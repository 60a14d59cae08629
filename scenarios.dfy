// Concrete runs on small boards: what the interpreters return for a few
// programs, including the program the loop check rejects although it
// would reach every star.
module Scenarios {
  import opened Coords
  import opened Instructions
  import opened Programs
  import opened Grids
  import opened Execution
  import TrunkPuzzle
  import LegacyPuzzle

  const Red: FieldColor := FieldColor.Red
  const Fwd: ProgramSlot := ProgramSlot(ProgramAction.Forward, FieldColor.None)

  /** A red line of three cells, a star on its right end, the robot on its
      left end facing right. */
  const Line: Board := Board(3, 1, map[Coord(0, 0) := Red, Coord(1, 0) := Red, Coord(2, 0) := Red],
                             {Coord(2, 0)}, 1, Coord(0, 0), 1)

  /** `Line` is a valid board whose star lies on it. */
  lemma LineBoard()
    ensures ValidConfiguration(Line) && Line.stars <= Cells(Line.width, Line.height)
    ensures Line.starsCount == |Line.stars|
  {
    assert Coord(2, 0) in Cells(Line.width, Line.height);
  }

  /** Two steps right reach the star. */
  lemma TwoStepsSolve()
    ensures ValidConfiguration(Line) && Ready(Line, Program([[Fwd, Fwd]]))
    ensures TrunkPuzzle.TrunkSolves(Line, Program([[Fwd, Fwd]]))
  {
    LineBoard();
    var p := Program([[Fwd, Fwd]]);
    var s0 := ProgramState(Coord(0, 0), 1, 0, 0);
    var s1 := ProgramState(Coord(1, 0), 1, 0, 1);
    var r0 := Run({}, {}, 0, Coord(0, 0), 1);
    var r1 := Run({s0}, {}, 0, Coord(1, 0), 1);
    var r2 := Run({s0, s1}, {Coord(2, 0)}, 1, Coord(2, 0), 1);
    assert Exec(Line, p, 0, 0, r0) == ExecSlot(Line, p, 0, 0, r0.(visited := {s0}));
    ForwardStep(Line, p, 0, 0, r0.(visited := {s0}));
    ForwardMoves(Line, p, 0, 0, r0.(visited := {s0}));
    assert s1 !in r1.visited && r1.visited + {s1} == {s0, s1};
    assert Exec(Line, p, 0, 1, r1) == ExecSlot(Line, p, 0, 1, r1.(visited := {s0, s1}));
    ForwardStep(Line, p, 0, 1, r1.(visited := {s0, s1}));
    ForwardEats(Line, p, 0, 1, r1.(visited := {s0, s1}), r2);
  }

  /** `Line` with its middle cell left unpainted. */
  const Gap: Board := Board(3, 1, map[Coord(0, 0) := Red, Coord(2, 0) := Red], {Coord(2, 0)}, 1, Coord(0, 0), 1)

  /** The same two steps fail on `Gap`: the first Forward moves onto the
      unpainted cell, and the run ends there in either version. */
  lemma UnpaintedCellFails()
    ensures ValidConfiguration(Gap) && Ready(Gap, Program([[Fwd, Fwd]]))
    ensures !TrunkPuzzle.TrunkSolves(Gap, Program([[Fwd, Fwd]]))
    ensures !LegacyPuzzle.LegacySolves(Gap, Program([[Fwd, Fwd]]))
  {
    var p := Program([[Fwd, Fwd]]);
    var s0 := ProgramState(Coord(0, 0), 1, 0, 0);
    var r0 := Run({}, {}, 0, Coord(0, 0), 1);
    assert Coord(2, 0) in Cells(Gap.width, Gap.height);
    assert Exec(Gap, p, 0, 0, r0) == ExecSlot(Gap, p, 0, 0, r0.(visited := {s0}));
    ForwardStep(Gap, p, 0, 0, r0.(visited := {s0}));
    ForwardFails(Gap, p, 0, 0, r0.(visited := {s0}));
  }

  const CallF1: ProgramSlot := ProgramSlot(ProgramAction.F1, FieldColor.None)

  /** F1 = [F1] never moves: the recursive call re-enters F1 in the state
      the run started in, which the loop check has already recorded. */
  lemma SelfCallFails()
    ensures ValidConfiguration(Line) && Ready(Line, Program([[CallF1]]))
    ensures !TrunkPuzzle.TrunkSolves(Line, Program([[CallF1]]))
    ensures !LegacyPuzzle.LegacySolves(Line, Program([[CallF1]]))
  {
    LineBoard();
    var p := Program([[CallF1]]);
    var s0 := ProgramState(Coord(0, 0), 1, 0, 0);
    var r0 := Run({}, {}, 0, Coord(0, 0), 1);
    var ra := Run({s0}, {}, 0, Coord(0, 0), 1);
    assert Exec(Line, p, 0, 0, r0) == ExecSlot(Line, p, 0, 0, ra);
    CallStep(Line, p, 0, 0, ra);
    CallReturns(Line, p, 0, 0, ra);
    assert Exec(Line, p, 0, 0, ra) == Outcome(Fail, ra);
  }

  const CallF2: ProgramSlot := ProgramSlot(ProgramAction.F2, FieldColor.None)

  /** The loop check is conservative: F1 = [F2, F2, Forward, Forward] with
      F2 empty makes the same moves as the two-step solution, but the second
      call enters F2 in the state the first call recorded, so the run fails
      in either version. */
  lemma RepeatedCallFails()
    ensures ValidConfiguration(Line) && Ready(Line, Program([[CallF2, CallF2, Fwd, Fwd], [Blank]]))
    ensures !TrunkPuzzle.TrunkSolves(Line, Program([[CallF2, CallF2, Fwd, Fwd], [Blank]]))
    ensures !LegacyPuzzle.LegacySolves(Line, Program([[CallF2, CallF2, Fwd, Fwd], [Blank]]))
  {
    LineBoard();
    var p := Program([[CallF2, CallF2, Fwd, Fwd], [Blank]]);
    var s0 := ProgramState(Coord(0, 0), 1, 0, 0);
    var t := ProgramState(Coord(0, 0), 1, 1, 0);
    var s1 := ProgramState(Coord(0, 0), 1, 0, 1);
    var r0 := Run({}, {}, 0, Coord(0, 0), 1);
    var ra := Run({s0}, {}, 0, Coord(0, 0), 1);
    var rb := Run({s0, t}, {}, 0, Coord(0, 0), 1);
    var rc := Run({s0, t, s1}, {}, 0, Coord(0, 0), 1);
    assert Exec(Line, p, 0, 0, r0) == ExecSlot(Line, p, 0, 0, ra);
    CallStep(Line, p, 0, 0, ra);
    CallReturns(Line, p, 0, 0, ra);
    // The first call runs the empty slot of F2 and returns.
    assert t !in ra.visited && ra.visited + {t} == rb.visited;
    assert Exec(Line, p, 1, 0, ra) == ExecSlot(Line, p, 1, 0, rb);
    SkipStep(Line, p, 1, 0, rb);
    assert Exec(Line, p, 1, 0, ra) == Outcome(StillWorking, rb);
    // The second call finds its entry state already recorded.
    assert s1 !in rb.visited && rb.visited + {s1} == rc.visited;
    assert Exec(Line, p, 0, 1, rb) == ExecSlot(Line, p, 0, 1, rc);
    CallStep(Line, p, 0, 1, rc);
    CallReturns(Line, p, 0, 1, rc);
    assert t in rc.visited;
    assert Exec(Line, p, 1, 0, rc) == Outcome(Fail, rc);
  }

  /** One red cell holding the only star, the robot on it facing right. */
  const Spot: Board := Board(1, 1, map[Coord(0, 0) := Red], {Coord(0, 0)}, 1, Coord(0, 0), 1)

  /** The current interpreter solves a board whose star lies under the
      start with the empty program; the first version never does, since it
      counts that star only when the robot walks back onto its cell. */
  lemma EmptyProgramOnStartStar()
    ensures ValidConfiguration(Spot) && Ready(Spot, Program([[Blank]]))
    ensures TrunkPuzzle.TrunkSolves(Spot, Program([[Blank]]))
    ensures !LegacyPuzzle.LegacySolves(Spot, Program([[Blank]]))
  {
    var p := Program([[Blank]]);
    assert !HasForward(p.code) by {
      forall f, i | 0 <= f < |p.code| && 0 <= i < |p.code[f]|
        ensures p.code[f][i].action != ProgramAction.Forward
      {
        assert p.code[f][i] == Blank;
      }
    }
    if LegacyPuzzle.LegacySolves(Spot, p) {
      LegacyPuzzle.LegacyNeedsForward(Spot, p);
    }
  }
}
