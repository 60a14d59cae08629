// How the two interpreters relate: the current one counts a star under the
// start cell before the first instruction, the first one only when the
// robot walks back onto it. Seeding the start star can only help.
module Versions {
  import opened Coords
  import opened Instructions
  import opened Programs
  import opened Grids
  import opened Execution
  import TrunkPuzzle
  import LegacyPuzzle

  /** A first-version context `r1` and a current-version context `r2` that
      differ only in that the start star (a star) counts as eaten in `r2`. */
  ghost predicate Seeded(b: Board, r1: Run, r2: Run) {
    b.start in b.stars && r1.visited == r2.visited && r1.pos == r2.pos && r1.dir == r2.dir &&
    r2.eaten == r1.eaten + {b.start}
  }

  /** From seeded contexts, the current version either wins, or reaches the
      verdict of the first version in seeded contexts again. */
  lemma {:induction false} ExecSeeded(b: Board, p: Program, func: int, instr: int, r1: Run, r2: Run)
    requires Ready(b, p) && 0 <= func < |p.code| && 0 <= instr <= |p.code[func]|
    requires RunInv(b, r1) && RunInv(b, r2) && Seeded(b, r1, r2)
    ensures var o1, o2 := Exec(b, p, func, instr, r1), Exec(b, p, func, instr, r2);
            o2.result == StarsEaten || (o1.result == o2.result && Seeded(b, o1.run, o2.run))
    decreases |Universe(b, p) - r1.visited|, 0
  {
    if instr < |p.code[func]| {
      var s := ProgramState(r1.pos, r1.dir, func, instr);
      if s !in r1.visited {
        RecordShrinks(b, p, r1.visited, r1.visited + {s}, s);
        SlotSeeded(b, p, func, instr, r1.(visited := r1.visited + {s}), r2.(visited := r2.visited + {s}));
      }
    }
  }

  lemma {:induction false} SlotSeeded(b: Board, p: Program, func: int, instr: int, r1: Run, r2: Run)
    requires SlotReady(b, p, func, instr, r1) && SlotReady(b, p, func, instr, r2) && Seeded(b, r1, r2)
    ensures var o1, o2 := ExecSlot(b, p, func, instr, r1), ExecSlot(b, p, func, instr, r2);
            o2.result == StarsEaten || (o1.result == o2.result && Seeded(b, o1.run, o2.run))
    decreases |Universe(b, p) - r1.visited|, 3
  {
    var slot := p.code[func][instr];
    if !Enabled(b, slot, r1) {
      SkipStep(b, p, func, instr, r1);
      SkipStep(b, p, func, instr, r2);
      ExecSeeded(b, p, func, instr + 1, r1, r2);
    } else if slot.action == ProgramAction.Left || slot.action == ProgramAction.Right {
      TurnStep(b, p, func, instr, r1);
      TurnStep(b, p, func, instr, r2);
      var d := if slot.action == ProgramAction.Left then TurnLeft(r1.dir) else TurnRight(r1.dir);
      ExecSeeded(b, p, func, instr + 1, r1.(dir := d), r2.(dir := d));
    } else if slot.action == ProgramAction.Forward {
      ForwardStep(b, p, func, instr, r1);
      ForwardStep(b, p, func, instr, r2);
      ForwardSeeded(b, p, func, instr, r1, r2);
    } else {
      CallStep(b, p, func, instr, r1);
      CallStep(b, p, func, instr, r2);
      CallReturns(b, p, func, instr, r1);
      CallReturns(b, p, func, instr, r2);
      var f := slot.action.Target();
      ExecSeeded(b, p, f, 0, r1, r2);
      var c1, c2 := Exec(b, p, f, 0, r1), Exec(b, p, f, 0, r2);
      if c2.result != StarsEaten && c1.result == StillWorking {
        SubsetCardinality(Universe(b, p) - c1.run.visited, Universe(b, p) - r1.visited);
        ExecSeeded(b, p, func, instr + 1, c1.run, c2.run);
      }
    }
  }

  lemma {:induction false} ForwardSeeded(b: Board, p: Program, func: int, instr: int, r1: Run, r2: Run)
    requires SlotReady(b, p, func, instr, r1) && SlotReady(b, p, func, instr, r2) && Seeded(b, r1, r2)
    ensures var o1, o2 := ExecForward(b, p, func, instr, r1), ExecForward(b, p, func, instr, r2);
            o2.result == StarsEaten || (o1.result == o2.result && Seeded(b, o1.run, o2.run))
    decreases |Universe(b, p) - r1.visited|, 2
  {
    var np := Move(r1.pos, r1.dir);
    if !InBounds(b, np) || ColorAt(b, np) == FieldColor.None {
      ForwardFails(b, p, func, instr, r1);
      ForwardFails(b, p, func, instr, r2);
    } else if np == b.start && np !in r1.eaten {
      EatStartSeeded(b, p, func, instr, r1, r2);
    } else if np in b.stars && np !in r1.eaten {
      EatOtherSeeded(b, p, func, instr, r1, r2);
    } else {
      ForwardMoves(b, p, func, instr, r1);
      ForwardMoves(b, p, func, instr, r2);
      ExecSeeded(b, p, func, instr + 1, r1.(pos := np), r2.(pos := np));
    }
  }

  /** The Forward case that reaches the start star: the current version
      ate it before the first instruction, the first version eats it now. */
  lemma {:induction false} EatStartSeeded(b: Board, p: Program, func: int, instr: int, r1: Run, r2: Run)
    requires SlotReady(b, p, func, instr, r1) && SlotReady(b, p, func, instr, r2) && Seeded(b, r1, r2)
    requires var np := Move(r1.pos, r1.dir);
             InBounds(b, np) && ColorAt(b, np) != FieldColor.None && np == b.start && np !in r1.eaten
    ensures var o1, o2 := ExecForward(b, p, func, instr, r1), ExecForward(b, p, func, instr, r2);
            o2.result == StarsEaten || (o1.result == o2.result && Seeded(b, o1.run, o2.run))
    decreases |Universe(b, p) - r1.visited|, 1
  {
    var np := Move(r1.pos, r1.dir);
    var e1 := r1.(pos := np, eaten := r1.eaten + {np}, starsEaten := r1.starsEaten + 1);
    ForwardEats(b, p, func, instr, r1, e1);
    ForwardMoves(b, p, func, instr, r2);
    assert e1.eaten == r2.eaten;
    ExecSeeded(b, p, func, instr + 1, e1, r2.(pos := np));
  }

  /** The Forward case that reaches another uneaten star: both versions
      eat it. */
  lemma {:induction false} EatOtherSeeded(b: Board, p: Program, func: int, instr: int, r1: Run, r2: Run)
    requires SlotReady(b, p, func, instr, r1) && SlotReady(b, p, func, instr, r2) && Seeded(b, r1, r2)
    requires var np := Move(r1.pos, r1.dir);
             InBounds(b, np) && ColorAt(b, np) != FieldColor.None && np in b.stars && np != b.start &&
             np !in r1.eaten
    ensures var o1, o2 := ExecForward(b, p, func, instr, r1), ExecForward(b, p, func, instr, r2);
            o2.result == StarsEaten || (o1.result == o2.result && Seeded(b, o1.run, o2.run))
    decreases |Universe(b, p) - r1.visited|, 1
  {
    var np := Move(r1.pos, r1.dir);
    var e1 := r1.(pos := np, eaten := r1.eaten + {np}, starsEaten := r1.starsEaten + 1);
    var e2 := r2.(pos := np, eaten := r2.eaten + {np}, starsEaten := r2.starsEaten + 1);
    ForwardEats(b, p, func, instr, r1, e1);
    ForwardEats(b, p, func, instr, r2, e2);
    if e2.starsEaten != b.starsCount {
      assert e2.eaten == e1.eaten + {b.start};
      SubsetCardinality(e1.eaten, e2.eaten);
      ExecSeeded(b, p, func, instr + 1, e1, e2);
    }
  }

  /** Every program that solves a valid board in the first version solves
      it in the current one. */
  lemma LegacySolvesImpliesTrunk(b: Board, p: Program)
    requires ValidConfiguration(b) && Ready(b, p) && LegacyPuzzle.LegacySolves(b, p)
    ensures TrunkPuzzle.TrunkSolves(b, p)
  {
    if b.start in b.stars && b.starsCount != 1 {
      ExecSeeded(b, p, 0, 0, Run({}, {}, 0, b.start, b.startDir), Run({}, {b.start}, 1, b.start, b.startDir));
    }
  }
}
