// The puzzle board of the current interpreter: a colour grid and a star
// grid indexed [x, y], a star counter kept up to date by `SetStar`, a start
// cell and a start direction; `CanBeSolvedWith` runs a program on it.
module TrunkPuzzle {
  import opened Coords
  import opened Instructions
  import opened Programs
  import opened Grids
  import opened Execution

  /** Whether a program solves the board: a star on the start cell counts as
      eaten before the first instruction, and a board whose only star it is
      is solved at once; otherwise the run must end with StarsEaten. */
  function TrunkSolves(b: Board, p: Program): bool
    requires ValidConfiguration(b) && Ready(b, p)
  {
    if b.start in b.stars then
      b.starsCount == 1 || Exec(b, p, 0, 0, Run({}, {b.start}, 1, b.start, b.startDir)).result == StarsEaten
    else
      Exec(b, p, 0, 0, Run({}, {}, 0, b.start, b.startDir)).result == StarsEaten
  }

  /** A board whose only star lies under the start cell is solved by every
      program, even one that does nothing. */
  lemma StartStarSolves(b: Board, p: Program)
    requires ValidConfiguration(b) && Ready(b, p) && b.stars == {b.start}
    ensures TrunkSolves(b, p)
  {
  }

  /** A program without Forward solves exactly the boards whose only star
      lies under the start cell. */
  lemma TrunkNeedsForward(b: Board, p: Program)
    requires ValidConfiguration(b) && Ready(b, p) && !HasForward(p.code)
    ensures TrunkSolves(b, p) <==> b.stars == {b.start}
  {
    if b.start in b.stars {
      if b.starsCount != 1 {
        assert b.stars != {b.start};
        ExecNoForward(b, p, 0, 0, Run({}, {b.start}, 1, b.start, b.startDir));
      } else {
        assert {b.start} <= b.stars && |b.stars| == |{b.start}|;
        SameCardinalitySubset({b.start}, b.stars);
      }
    } else {
      ExecNoForward(b, p, 0, 0, Run({}, {}, 0, b.start, b.startDir));
    }
  }

  class Puzzle {
    const width: int
    const height: int
    const colors: array2<FieldColor>
    const stars: array2<bool>
    var starsCount: int
    var startPos: Coord
    var startDir: int

    /** The grids have the board's size and the counter is the number of
        starred cells. */
    ghost predicate Valid()
      reads this, stars
    {
      width > 0 && height > 0 &&
      colors.Length0 == width && colors.Length1 == height &&
      stars.Length0 == width && stars.Length1 == height &&
      starsCount == |TrueCells(stars)|
    }

    /** The board as the interpreter sees it. */
    ghost function Board(): Board
      reads this, colors, stars
    {
      Execution.Board(width, height, ColorMap(colors), TrueCells(stars), starsCount, startPos, startDir)
    }

    /** The grids and the counter hold what `b` says, cell by cell. */
    ghost predicate Describes(b: Board)
      reads this, colors, stars
    {
      b.width == width && b.height == height && b.starsCount == starsCount &&
      colors.Length0 == width && colors.Length1 == height && stars.Length0 == width && stars.Length1 == height &&
      forall c :: InBounds(b, c) ==> ColorAt(b, c) == colors[c.x, c.y] && (c in b.stars <==> stars[c.x, c.y])
    }

    lemma BoardDescribed()
      requires Valid()
      ensures Describes(Board())
    {
    }

    ghost predicate InGrid(c: Coord)
      reads this
    {
      0 <= c.x < width && 0 <= c.y < height
    }

    /** A blank board: no paint, no star, start (-1, -1) facing -1. */
    constructor(width: int, height: int)
      requires width > 0 && height > 0
      ensures Valid()
      ensures this.width == width && this.height == height && fresh(colors) && fresh(stars)
      ensures forall x, y :: 0 <= x < width && 0 <= y < height ==> colors[x, y] == FieldColor.None && !stars[x, y]
      ensures TrueCells(stars) == {} && starsCount == 0
      ensures startPos == Coord(-1, -1) && startDir == -1
    {
      this.width := width;
      this.height := height;
      colors := new FieldColor[width, height]((x, y) => FieldColor.None);
      stars := new bool[width, height]((x, y) => false);
      starsCount := 0;
      startPos := Coord(-1, -1);
      startDir := -1;
      new;
      assert TrueCells(stars) == {};
    }

    /** `StartPosition`'s setter (without the change notification). */
    method SetStartPosition(value: Coord)
      modifies this
      ensures startPos == value && startDir == old(startDir) && starsCount == old(starsCount)
    {
      startPos := value;
    }

    /** `StartDirection`'s setter (without the change notification). */
    method SetStartDirection(value: int)
      modifies this
      ensures startDir == value && startPos == old(startPos) && starsCount == old(starsCount)
    {
      startDir := value;
    }

    /** `GetStar`: whether the cell holds a star. */
    function GetStar(c: Coord): (isStar: bool)
      reads this, colors, stars
      requires Valid() && InGrid(c)
      ensures isStar <==> c in Board().stars
    {
      stars[c.x, c.y]
    }

    /** `SetStar`: sets or clears the cell's star; the counter goes down for
        a star removed and up for a star present afterwards, so it keeps
        counting the starred cells. */
    method SetStar(c: Coord, isStar: bool)
      requires Valid() && InGrid(c)
      modifies this, stars
      ensures Valid()
      ensures TrueCells(stars) == if isStar then old(TrueCells(stars)) + {c} else old(TrueCells(stars)) - {c}
      ensures stars[c.x, c.y] == isStar
      ensures forall x, y :: 0 <= x < width && 0 <= y < height && (x != c.x || y != c.y) ==>
                               stars[x, y] == old(stars[x, y])
      ensures startPos == old(startPos) && startDir == old(startDir)
    {
      ghost var before := TrueCells(stars);
      assert stars[c.x, c.y] <==> c in before;
      if stars[c.x, c.y] {
        starsCount := starsCount - 1;
      }
      assert starsCount == |before - {c}|;
      SetFlag(stars, c, isStar);
      if stars[c.x, c.y] {
        starsCount := starsCount + 1;
      }
    }

    /** `GetColor`: the cell's paint. */
    function GetColor(c: Coord): (color: FieldColor)
      reads this, colors, stars
      requires Valid() && InGrid(c)
      ensures color == ColorAt(Board(), c)
    {
      colors[c.x, c.y]
    }

    /** `SetColor`: repaints one cell (without the change notification). */
    method SetColor(c: Coord, color: FieldColor)
      requires Valid() && InGrid(c)
      modifies colors
      ensures colors[c.x, c.y] == color
      ensures forall x, y :: 0 <= x < width && 0 <= y < height && (x != c.x || y != c.y) ==>
                               colors[x, y] == old(colors[x, y])
      ensures ColorMap(colors) == old(ColorMap(colors))[c := color]
    {
      colors[c.x, c.y] := color;
      assert ColorMap(colors) == old(ColorMap(colors))[c := color];
    }

    /** `Reset`: clears every cell's paint and star, line by line, then puts
        the start on (0, 0) facing right. */
    method Reset()
      requires Valid()
      modifies this, colors, stars
      ensures Valid()
      ensures forall x, y :: 0 <= x < width && 0 <= y < height ==> colors[x, y] == FieldColor.None && !stars[x, y]
      ensures TrueCells(stars) == {} && starsCount == 0
      ensures startPos == Zero && startDir == 1
    {
      for x := 0 to width
        invariant Valid()
        invariant forall i, j :: 0 <= i < x && 0 <= j < height ==> colors[i, j] == FieldColor.None
        invariant forall i, j :: 0 <= i < x && 0 <= j < height ==> !stars[i, j]
      {
        ResetLine(x);
      }
      assert TrueCells(stars) == {};
      SetStartPosition(Zero);
      SetStartDirection(1);
    }

    /** The inner loop of `Reset`: clears the paint and the star of every
        cell of line `x`; the other lines keep theirs. */
    method ResetLine(x: int)
      requires Valid() && 0 <= x < width
      modifies this, colors, stars
      ensures Valid()
      ensures forall j :: 0 <= j < height ==> colors[x, j] == FieldColor.None && !stars[x, j]
      ensures forall i, j :: 0 <= i < width && 0 <= j < height && i != x ==>
                               colors[i, j] == old(colors[i, j]) && stars[i, j] == old(stars[i, j])
      ensures startPos == old(startPos) && startDir == old(startDir)
    {
      for y := 0 to height
        invariant Valid()
        invariant forall j :: 0 <= j < y ==> colors[x, j] == FieldColor.None && !stars[x, j]
        invariant forall i, j :: 0 <= i < width && 0 <= j < height && i != x ==>
                                   colors[i, j] == old(colors[i, j]) && stars[i, j] == old(stars[i, j])
        invariant startPos == old(startPos) && startDir == old(startDir)
      {
        var coord := Coord(x, y);
        SetColor(coord, FieldColor.None);
        SetStar(coord, false);
      }
    }

    /** `IsInValidConfiguration`: the start can be run from. */
    function IsInValidConfiguration(): (ok: bool)
      reads this, colors, stars
      requires Valid()
      ensures ok <==> ValidConfiguration(Board())
    {
      starsCount > 0 &&
      startPos.x >= 0 && startPos.y >= 0 && startPos.x < width && startPos.y < height &&
      startDir >= 0 && startDir <= 3 &&
      colors[startPos.x, startPos.y] != FieldColor.None
    }

    /** `GetColorsCount`: the number of cells of each paint. */
    method GetColorsCount() returns (red: int, green: int, blue: int)
      requires Valid()
      ensures red == CountColor(colors, FieldColor.Red) && green == CountColor(colors, FieldColor.Green)
      ensures blue == CountColor(colors, FieldColor.Blue)
      ensures 0 <= red && 0 <= green && 0 <= blue && red + green + blue <= width * height
    {
      red, green, blue := CountColors(colors);
    }

    /** `CanBeSolvedWith`: seeds the start cell's star, then runs F1 from its
        first instruction on an empty visited set. */
    method CanBeSolvedWith(program: Program) returns (solved: bool)
      requires Valid() && IsInValidConfiguration() && Runnable(program)
      ensures solved == TrunkSolves(Board(), program)
    {
      ghost var b := Board();
      BoardDescribed();
      var stateSet: set<ProgramState> := {};
      var state := ProgramState(startPos, startDir, 0, 0);
      var eatenStarsMask := new bool[width, height]((x, y) => false);
      var starsEaten := 0;
      assert TrueCells(eatenStarsMask) == {};

      // A star under the start cell is eaten before the first instruction.
      if stars[startPos.x, startPos.y] {
        starsEaten := 1;
        eatenStarsMask[startPos.x, startPos.y] := true;
        assert TrueCells(eatenStarsMask) == {startPos};
        if starsCount == 1 {
          return true;
        }
      }

      var result, _, _, _ := CanBeSolvedWithDfs(stateSet, eatenStarsMask, state, starsEaten, program, b);
      solved := result == StarsEaten;
    }

    /** `CanBeSolvedWithDfs`: runs function `state0.func` from instruction 0,
        threading the visited set, the eaten-star mask, the star counter and
        the robot's position and direction; the verdict and the final context
        are those of `Exec`. Each pass of the loop records the state (a state
        seen before fails the run) and executes the slot. */
    method CanBeSolvedWithDfs(stateSet0: set<ProgramState>, eatenStarsMask: array2<bool>, state0: ProgramState,
                              starsEaten0: int, program: Program, ghost b: Board)
      returns (result: ExecutionResult, stateSet: set<ProgramState>, state: ProgramState, starsEaten: int)
      requires Describes(b) && Ready(b, program)
      requires eatenStarsMask != stars && eatenStarsMask.Length0 == width && eatenStarsMask.Length1 == height
      requires 0 <= state0.func < |program.code| && state0.instruction == 0
      requires RunInv(b, Run(stateSet0, TrueCells(eatenStarsMask), starsEaten0, state0.pos, state0.dir))
      modifies eatenStarsMask
      ensures Outcome(result, Run(stateSet, TrueCells(eatenStarsMask), starsEaten, state.pos, state.dir)) ==
              Exec(b, program, state0.func, 0,
                   Run(stateSet0, old(TrueCells(eatenStarsMask)), starsEaten0, state0.pos, state0.dir))
      decreases |Universe(b, program) - stateSet0|, 0
    {
      ghost var run0 := Run(stateSet0, TrueCells(eatenStarsMask), starsEaten0, state0.pos, state0.dir);
      ghost var func := state0.func;
      stateSet, state, starsEaten := stateSet0, state0, starsEaten0;
      for instr := 0 to GetInstructionCountInFunc(program, state.func)
        invariant state.func == func && stateSet0 <= stateSet
        invariant RunInv(b, Run(stateSet, TrueCells(eatenStarsMask), starsEaten, state.pos, state.dir))
        invariant Exec(b, program, func, 0, run0) ==
                  Exec(b, program, func, instr, Run(stateSet, TrueCells(eatenStarsMask), starsEaten, state.pos, state.dir))
      {
        ghost var r := Run(stateSet, TrueCells(eatenStarsMask), starsEaten, state.pos, state.dir);
        state := state.(instruction := instr);

        // The loop check.
        if state in stateSet {
          result := Fail;
          return;
        }
        RecordShrinks(b, program, stateSet0, stateSet + {state}, state);
        stateSet := stateSet + {state};
        assert Exec(b, program, func, instr, r) == ExecSlot(b, program, func, instr, r.(visited := stateSet));

        var verdict;
        verdict, stateSet, state, starsEaten := ExecuteSlot(stateSet, eatenStarsMask, state, starsEaten, program, b);
        if verdict != StillWorking {
          result := verdict;
          return;
        }
      }
      result := StillWorking;
    }

    /** The body of the instruction loop of `CanBeSolvedWithDfs` after the
        loop check: executes slot `state0.instruction` of `state0.func`.
        StillWorking means the loop goes on from the new context; any other
        verdict is the function's. */
    method ExecuteSlot(stateSet0: set<ProgramState>, eatenStarsMask: array2<bool>, state0: ProgramState,
                       starsEaten0: int, program: Program, ghost b: Board)
      returns (verdict: ExecutionResult, stateSet: set<ProgramState>, state: ProgramState, starsEaten: int)
      requires Describes(b) && eatenStarsMask != stars && eatenStarsMask.Length0 == width && eatenStarsMask.Length1 == height
      requires SlotReady(b, program, state0.func, state0.instruction,
                         Run(stateSet0, TrueCells(eatenStarsMask), starsEaten0, state0.pos, state0.dir))
      modifies eatenStarsMask
      ensures state.func == state0.func && state.instruction == state0.instruction
      ensures verdict == StillWorking ==>
                stateSet0 <= stateSet && RunInv(b, Run(stateSet, TrueCells(eatenStarsMask), starsEaten, state.pos, state.dir))
      ensures verdict == StillWorking ==>
                ExecSlot(b, program, state0.func, state0.instruction,
                         Run(stateSet0, old(TrueCells(eatenStarsMask)), starsEaten0, state0.pos, state0.dir)) ==
                Exec(b, program, state0.func, state0.instruction + 1,
                     Run(stateSet, TrueCells(eatenStarsMask), starsEaten, state.pos, state.dir))
      ensures verdict != StillWorking ==>
                ExecSlot(b, program, state0.func, state0.instruction,
                         Run(stateSet0, old(TrueCells(eatenStarsMask)), starsEaten0, state0.pos, state0.dir)) ==
                Outcome(verdict, Run(stateSet, TrueCells(eatenStarsMask), starsEaten, state.pos, state.dir))
      decreases |Universe(b, program) - stateSet0|, 1
    {
      ghost var func, instr := state0.func, state0.instruction;
      ghost var r1 := Run(stateSet0, TrueCells(eatenStarsMask), starsEaten0, state0.pos, state0.dir);
      stateSet, state, starsEaten := stateSet0, state0, starsEaten0;
      verdict := StillWorking;

      var currentColor := colors[state.pos.x, state.pos.y];
      var slot := GetProgramSlot(program, state.func, state.instruction);
      assert currentColor == ColorAt(b, r1.pos) && slot == program.code[func][instr];
      if slot.action == ProgramAction.None {
        SkipStep(b, program, func, instr, r1);
        return;
      }
      if slot.color != FieldColor.None && slot.color != currentColor {
        SkipStep(b, program, func, instr, r1);
        return;
      }

      if slot.action == ProgramAction.Forward || slot.action == ProgramAction.Left || slot.action == ProgramAction.Right {
        match slot.action {
          case Left =>
            TurnStep(b, program, func, instr, r1);
            state := state.(dir := (state.dir - 1 + 4) % 4);
            assert state.dir == TurnLeft(r1.dir);
          case Right =>
            TurnStep(b, program, func, instr, r1);
            state := state.(dir := (state.dir + 1) % 4);
            assert state.dir == TurnRight(r1.dir);
          case Forward =>
            ForwardStep(b, program, func, instr, r1);
            verdict, state, starsEaten := MoveForward(stateSet, eatenStarsMask, state, starsEaten, program, b);
        }
      } else if slot.action.IsCall() {
        CallStep(b, program, func, instr, r1);
        CallReturns(b, program, func, instr, r1);
        var stateToPass := state.(instruction := 0, func := slot.action.Target());
        var result, visitedAfter, stateAfter, eatenAfter :=
          CanBeSolvedWithDfs(stateSet, eatenStarsMask, stateToPass, starsEaten, program, b);
        state := state.(pos := stateAfter.pos, dir := stateAfter.dir);
        stateSet, starsEaten := visitedAfter, eatenAfter;
        if result != StillWorking {
          verdict := result;
          return;
        }
      }
    }
  
    /** The Forward case of the slot switch: moves one cell; leaving the
        board or reaching an unpainted cell fails the run; an uneaten star
        there is eaten and counted, and the run is won when the counter
        reaches the star count. */
    method MoveForward(stateSet: set<ProgramState>, eatenStarsMask: array2<bool>, state0: ProgramState,
                       starsEaten0: int, program: Program, ghost b: Board)
      returns (verdict: ExecutionResult, state: ProgramState, starsEaten: int)
      requires Describes(b) && eatenStarsMask != stars && eatenStarsMask.Length0 == width && eatenStarsMask.Length1 == height
      requires SlotReady(b, program, state0.func, state0.instruction,
                         Run(stateSet, TrueCells(eatenStarsMask), starsEaten0, state0.pos, state0.dir))
      modifies eatenStarsMask
      ensures state.func == state0.func && state.instruction == state0.instruction
      ensures verdict == StillWorking ==>
                RunInv(b, Run(stateSet, TrueCells(eatenStarsMask), starsEaten, state.pos, state.dir))
      ensures verdict == StillWorking ==>
                ExecForward(b, program, state0.func, state0.instruction,
                            Run(stateSet, old(TrueCells(eatenStarsMask)), starsEaten0, state0.pos, state0.dir)) ==
                Exec(b, program, state0.func, state0.instruction + 1,
                     Run(stateSet, TrueCells(eatenStarsMask), starsEaten, state.pos, state.dir))
      ensures verdict != StillWorking ==>
                ExecForward(b, program, state0.func, state0.instruction,
                            Run(stateSet, old(TrueCells(eatenStarsMask)), starsEaten0, state0.pos, state0.dir)) ==
                Outcome(verdict, Run(stateSet, TrueCells(eatenStarsMask), starsEaten, state.pos, state.dir))
    {
      ghost var func, instr := state0.func, state0.instruction;
      ghost var r1 := Run(stateSet, TrueCells(eatenStarsMask), starsEaten0, state0.pos, state0.dir);
      state, starsEaten := state0, starsEaten0;
      verdict := StillWorking;

      var newPosition := Coord(state.pos.x + ShiftX[state.dir], state.pos.y + ShiftY[state.dir]);
      state := state.(pos := newPosition);
      assert newPosition == Move(r1.pos, r1.dir);

      if state.pos.x < 0 || state.pos.y < 0 || state.pos.x >= width || state.pos.y >= height {
        ForwardFails(b, program, func, instr, r1);
        verdict := Fail;
        return;
      }
      if colors[state.pos.x, state.pos.y] == FieldColor.None {
        ForwardFails(b, program, func, instr, r1);
        verdict := Fail;
        return;
      }

      // A star not eaten before is eaten now.
      assert (newPosition in b.stars) == stars[newPosition.x, newPosition.y];
      assert (newPosition in r1.eaten) == eatenStarsMask[newPosition.x, newPosition.y];
      if stars[state.pos.x, state.pos.y] && !eatenStarsMask[state.pos.x, state.pos.y] {
        SetFlag(eatenStarsMask, state.pos, true);
        starsEaten := starsEaten + 1;
        ForwardEats(b, program, func, instr, r1,
                    Run(stateSet, TrueCells(eatenStarsMask), starsEaten, state.pos, state.dir));
        if starsEaten == starsCount {
          verdict := StarsEaten;
          return;
        }
      } else {
        ForwardMoves(b, program, func, instr, r1);
      }
    }
  }
}
