// The first version of the puzzle board: the same colour and star grids,
// with the start cell kept as two integers, a validity check without upper
// bounds and an interpreter that counts a star under the start cell only
// when the robot comes back to it.
module LegacyPuzzle {
  import opened Coords
  import opened Instructions
  import opened Programs
  import opened Grids
  import opened Execution

  /** Whether a program solves the board: the run starts with no star
      eaten and must end with StarsEaten. */
  function LegacySolves(b: Board, p: Program): bool
    requires Startable(b) && Ready(b, p)
  {
    Exec(b, p, 0, 0, Run({}, {}, 0, b.start, b.startDir)).result == StarsEaten
  }

  /** A program without Forward never solves a board. */
  lemma LegacyNeedsForward(b: Board, p: Program)
    requires Startable(b) && Ready(b, p) && LegacySolves(b, p)
    ensures HasForward(p.code)
  {
    if !HasForward(p.code) {
      ExecNoForward(b, p, 0, 0, Run({}, {}, 0, b.start, b.startDir));
    }
  }

  /** The value of an expression that may index an array out of range. */
  datatype Checked = Value(value: bool) | IndexOutOfRange

  class Puzzle {
    const width: int
    const height: int
    const colors: array2<FieldColor>
    const stars: array2<bool>
    var starsCount: int
    var startX: int
    var startY: int
    var startDir: int

    /** The grids have the board's size and the counter is the number of
        starred cells. */
    ghost predicate Valid()
      reads this, stars
    {
      width > 0 && height > 0 &&
      colors.Length0 == width && colors.Length1 == height &&
      stars.Length0 == width && stars.Length1 == height &&
      starsCount == |TrueCells(stars)|
    }

    /** The board as the interpreter sees it. */
    ghost function Board(): Board
      reads this, colors, stars
    {
      Execution.Board(width, height, ColorMap(colors), TrueCells(stars), starsCount, Coord(startX, startY), startDir)
    }

    /** The grids and the counter hold what `b` says, cell by cell. */
    ghost predicate Describes(b: Board)
      reads this, colors, stars
    {
      b.width == width && b.height == height && b.starsCount == starsCount &&
      colors.Length0 == width && colors.Length1 == height && stars.Length0 == width && stars.Length1 == height &&
      forall c :: InBounds(b, c) ==> ColorAt(b, c) == colors[c.x, c.y] && (c in b.stars <==> stars[c.x, c.y])
    }

    lemma BoardDescribed()
      requires Valid()
      ensures Describes(Board())
    {
    }

    /** A blank board: no paint, no star, start (-1, -1) facing -1. */
    constructor(width: int, height: int)
      requires width > 0 && height > 0
      ensures Valid()
      ensures this.width == width && this.height == height && fresh(colors) && fresh(stars)
      ensures forall x, y :: 0 <= x < width && 0 <= y < height ==> colors[x, y] == FieldColor.None && !stars[x, y]
      ensures TrueCells(stars) == {} && starsCount == 0
      ensures startX == -1 && startY == -1 && startDir == -1
    {
      this.width := width;
      this.height := height;
      colors := new FieldColor[width, height]((x, y) => FieldColor.None);
      stars := new bool[width, height]((x, y) => false);
      starsCount := 0;
      startX, startY := -1, -1;
      startDir := -1;
      new;
      assert TrueCells(stars) == {};
    }

    /** `SetStar`: sets or clears the cell's star; the counter goes down for
        a star removed and up for a star present afterwards, so it keeps
        counting the starred cells. */
    method SetStar(x: int, y: int, isStar: bool)
      requires Valid() && 0 <= x < width && 0 <= y < height
      modifies this, stars
      ensures Valid()
      ensures TrueCells(stars) == if isStar then old(TrueCells(stars)) + {Coord(x, y)} else old(TrueCells(stars)) - {Coord(x, y)}
      ensures stars[x, y] == isStar
      ensures forall i, j :: 0 <= i < width && 0 <= j < height && (i != x || j != y) ==> stars[i, j] == old(stars[i, j])
      ensures startX == old(startX) && startY == old(startY) && startDir == old(startDir)
    {
      ghost var before := TrueCells(stars);
      assert stars[x, y] <==> Coord(x, y) in before;
      if stars[x, y] {
        starsCount := starsCount - 1;
      }
      assert starsCount == |before - {Coord(x, y)}|;
      SetFlag(stars, Coord(x, y), isStar);
      if stars[x, y] {
        starsCount := starsCount + 1;
      }
    }

    /** `GetStar`: whether the cell holds a star. */
    function GetStar(x: int, y: int): (isStar: bool)
      reads this, colors, stars
      requires Valid() && 0 <= x < width && 0 <= y < height
      ensures isStar <==> Coord(x, y) in Board().stars
    {
      stars[x, y]
    }

    /** `SetColor`: repaints one cell. */
    method SetColor(x: int, y: int, color: FieldColor)
      requires Valid() && 0 <= x < width && 0 <= y < height
      modifies colors
      ensures colors[x, y] == color
      ensures forall i, j :: 0 <= i < width && 0 <= j < height && (i != x || j != y) ==> colors[i, j] == old(colors[i, j])
      ensures ColorMap(colors) == old(ColorMap(colors))[Coord(x, y) := color]
    {
      colors[x, y] := color;
      assert ColorMap(colors) == old(ColorMap(colors))[Coord(x, y) := color];
    }

    method SetStartPosition(x: int, y: int)
      modifies this
      ensures startX == x && startY == y && startDir == old(startDir) && starsCount == old(starsCount)
    {
      this.startX := x;
      this.startY := y;
    }

    method GetStartPosition() returns (x: int, y: int)
      ensures x == startX && y == startY
    {
      x := this.startX;
      y := this.startY;
    }

    method SetStartDirection(dir: int)
      modifies this
      ensures startDir == dir && startX == old(startX) && startY == old(startY) && starsCount == old(starsCount)
    {
      this.startDir := dir;
    }

    function GetStartDirection(): (dir: int)
      reads this
      ensures dir == Board().startDir
    {
      startDir
    }

    /** `IsInValidConfiguration` as written: the start cell's paint is read
        after lower-bound checks only, so a start beyond the grid faults, and
        a direction above 3 passes. */
    function IsInValidConfiguration(): (r: Checked)
      reads this, colors, stars
      requires Valid()
      ensures r == IndexOutOfRange <==>
                starsCount > 0 && startX >= 0 && startY >= 0 && startDir >= 0 && !InBounds(Board(), Board().start)
      ensures r == Value(true) <==>
                ValidConfiguration(Board()) || (startDir > 3 && ValidConfiguration(Board().(startDir := 0)))
    {
      if !(starsCount > 0 && startX >= 0 && startY >= 0 && startDir >= 0) then Value(false)
      else if startX >= width || startY >= height then IndexOutOfRange
      else Value(colors[startX, startY] != FieldColor.None)
    }

    /** `GetColorsCount`: the number of cells of each paint. */
    method GetColorsCount() returns (red: int, green: int, blue: int)
      requires Valid()
      ensures red == CountColor(colors, FieldColor.Red) && green == CountColor(colors, FieldColor.Green)
      ensures blue == CountColor(colors, FieldColor.Blue)
      ensures 0 <= red && 0 <= green && 0 <= blue && red + green + blue <= width * height
    {
      red, green, blue := CountColors(colors);
    }

    /** `CanBeSolvedWith`: runs F1 from its first instruction on an empty
        visited set and an empty eaten-star mask. */
    method CanBeSolvedWith(program: Program) returns (solved: bool)
      requires Valid() && Startable(Board()) && Runnable(program)
      ensures solved == LegacySolves(Board(), program)
    {
      ghost var b := Board();
      BoardDescribed();
      var stateSet: set<ProgramState> := {};
      var state := ProgramState(Coord(startX, startY), startDir, 0, 0);
      var eatenStarsMask := new bool[width, height]((x, y) => false);
      var starsEaten := 0;
      assert TrueCells(eatenStarsMask) == {};

      var result, _, _, _ := CanBeSolvedWithDfs(stateSet, eatenStarsMask, state, starsEaten, program, b);
      solved := result == StarsEaten;
    }

    /** `CanBeSolvedWithDfs`: runs function `state0.func` from instruction 0,
        threading the visited set, the eaten-star mask, the star counter and
        the robot's position and direction; the verdict and the final context
        are those of `Exec`. Each pass of the loop records the state (a state
        seen before fails the run) and executes the slot. */
    method CanBeSolvedWithDfs(stateSet0: set<ProgramState>, eatenStarsMask: array2<bool>, state0: ProgramState,
                              starsEaten0: int, program: Program, ghost b: Board)
      returns (result: ExecutionResult, stateSet: set<ProgramState>, state: ProgramState, starsEaten: int)
      requires Describes(b) && Ready(b, program)
      requires eatenStarsMask != stars && eatenStarsMask.Length0 == width && eatenStarsMask.Length1 == height
      requires 0 <= state0.func < |program.code| && state0.instruction == 0
      requires RunInv(b, Run(stateSet0, TrueCells(eatenStarsMask), starsEaten0, state0.pos, state0.dir))
      modifies eatenStarsMask
      ensures Outcome(result, Run(stateSet, TrueCells(eatenStarsMask), starsEaten, state.pos, state.dir)) ==
              Exec(b, program, state0.func, 0,
                   Run(stateSet0, old(TrueCells(eatenStarsMask)), starsEaten0, state0.pos, state0.dir))
      decreases |Universe(b, program) - stateSet0|, 0
    {
      ghost var run0 := Run(stateSet0, TrueCells(eatenStarsMask), starsEaten0, state0.pos, state0.dir);
      ghost var func := state0.func;
      stateSet, state, starsEaten := stateSet0, state0, starsEaten0;
      for instr := 0 to GetInstructionCountInFunc(program, state.func)
        invariant state.func == func && stateSet0 <= stateSet
        invariant RunInv(b, Run(stateSet, TrueCells(eatenStarsMask), starsEaten, state.pos, state.dir))
        invariant Exec(b, program, func, 0, run0) ==
                  Exec(b, program, func, instr, Run(stateSet, TrueCells(eatenStarsMask), starsEaten, state.pos, state.dir))
      {
        ghost var r := Run(stateSet, TrueCells(eatenStarsMask), starsEaten, state.pos, state.dir);
        state := state.(instruction := instr);

        // The loop check.
        if state in stateSet {
          result := Fail;
          return;
        }
        RecordShrinks(b, program, stateSet0, stateSet + {state}, state);
        stateSet := stateSet + {state};
        assert Exec(b, program, func, instr, r) == ExecSlot(b, program, func, instr, r.(visited := stateSet));

        var verdict;
        verdict, stateSet, state, starsEaten := ExecuteSlot(stateSet, eatenStarsMask, state, starsEaten, program, b);
        if verdict != StillWorking {
          result := verdict;
          return;
        }
      }
      result := StillWorking;
    }

    /** The body of the instruction loop of `CanBeSolvedWithDfs` after the
        loop check: executes slot `state0.instruction` of `state0.func`.
        StillWorking means the loop goes on from the new context; any other
        verdict is the function's. */
    method ExecuteSlot(stateSet0: set<ProgramState>, eatenStarsMask: array2<bool>, state0: ProgramState,
                       starsEaten0: int, program: Program, ghost b: Board)
      returns (verdict: ExecutionResult, stateSet: set<ProgramState>, state: ProgramState, starsEaten: int)
      requires Describes(b) && eatenStarsMask != stars && eatenStarsMask.Length0 == width && eatenStarsMask.Length1 == height
      requires SlotReady(b, program, state0.func, state0.instruction,
                         Run(stateSet0, TrueCells(eatenStarsMask), starsEaten0, state0.pos, state0.dir))
      modifies eatenStarsMask
      ensures state.func == state0.func && state.instruction == state0.instruction
      ensures verdict == StillWorking ==>
                stateSet0 <= stateSet && RunInv(b, Run(stateSet, TrueCells(eatenStarsMask), starsEaten, state.pos, state.dir))
      ensures verdict == StillWorking ==>
                ExecSlot(b, program, state0.func, state0.instruction,
                         Run(stateSet0, old(TrueCells(eatenStarsMask)), starsEaten0, state0.pos, state0.dir)) ==
                Exec(b, program, state0.func, state0.instruction + 1,
                     Run(stateSet, TrueCells(eatenStarsMask), starsEaten, state.pos, state.dir))
      ensures verdict != StillWorking ==>
                ExecSlot(b, program, state0.func, state0.instruction,
                         Run(stateSet0, old(TrueCells(eatenStarsMask)), starsEaten0, state0.pos, state0.dir)) ==
                Outcome(verdict, Run(stateSet, TrueCells(eatenStarsMask), starsEaten, state.pos, state.dir))
      decreases |Universe(b, program) - stateSet0|, 1
    {
      ghost var func, instr := state0.func, state0.instruction;
      ghost var r1 := Run(stateSet0, TrueCells(eatenStarsMask), starsEaten0, state0.pos, state0.dir);
      stateSet, state, starsEaten := stateSet0, state0, starsEaten0;
      verdict := StillWorking;

      var currentColor := colors[state.pos.x, state.pos.y];
      var slot := GetProgramSlot(program, state.func, state.instruction);
      assert currentColor == ColorAt(b, r1.pos) && slot == program.code[func][instr];
      if slot.action == ProgramAction.None {
        SkipStep(b, program, func, instr, r1);
        return;
      }
      if slot.color != FieldColor.None && slot.color != currentColor {
        SkipStep(b, program, func, instr, r1);
        return;
      }

      if slot.action == ProgramAction.Forward || slot.action == ProgramAction.Left || slot.action == ProgramAction.Right {
        match slot.action {
          case Left =>
            TurnStep(b, program, func, instr, r1);
            state := state.(dir := (state.dir - 1 + 4) % 4);
            assert state.dir == TurnLeft(r1.dir);
          case Right =>
            TurnStep(b, program, func, instr, r1);
            state := state.(dir := (state.dir + 1) % 4);
            assert state.dir == TurnRight(r1.dir);
          case Forward =>
            ForwardStep(b, program, func, instr, r1);
            verdict, state, starsEaten := MoveForward(stateSet, eatenStarsMask, state, starsEaten, program, b);
        }
      } else if slot.action.IsCall() {
        CallStep(b, program, func, instr, r1);
        CallReturns(b, program, func, instr, r1);
        var stateToPass := state.(instruction := 0, func := slot.action.Target());
        var result, visitedAfter, stateAfter, eatenAfter :=
          CanBeSolvedWithDfs(stateSet, eatenStarsMask, stateToPass, starsEaten, program, b);
        state := state.(pos := Coord(stateAfter.pos.x, stateAfter.pos.y), dir := stateAfter.dir);
        stateSet, starsEaten := visitedAfter, eatenAfter;
        if result != StillWorking {
          verdict := result;
          return;
        }
      }
    }

    /** The Forward case of the slot switch: X and Y move by one cell;
        leaving the board or reaching an unpainted cell fails the run; an
        uneaten star there is eaten and counted, and the run is won when the
        counter reaches the star count. */
    method MoveForward(stateSet: set<ProgramState>, eatenStarsMask: array2<bool>, state0: ProgramState,
                       starsEaten0: int, program: Program, ghost b: Board)
      returns (verdict: ExecutionResult, state: ProgramState, starsEaten: int)
      requires Describes(b) && eatenStarsMask != stars && eatenStarsMask.Length0 == width && eatenStarsMask.Length1 == height
      requires SlotReady(b, program, state0.func, state0.instruction,
                         Run(stateSet, TrueCells(eatenStarsMask), starsEaten0, state0.pos, state0.dir))
      modifies eatenStarsMask
      ensures state.func == state0.func && state.instruction == state0.instruction
      ensures verdict == StillWorking ==>
                RunInv(b, Run(stateSet, TrueCells(eatenStarsMask), starsEaten, state.pos, state.dir))
      ensures verdict == StillWorking ==>
                ExecForward(b, program, state0.func, state0.instruction,
                            Run(stateSet, old(TrueCells(eatenStarsMask)), starsEaten0, state0.pos, state0.dir)) ==
                Exec(b, program, state0.func, state0.instruction + 1,
                     Run(stateSet, TrueCells(eatenStarsMask), starsEaten, state.pos, state.dir))
      ensures verdict != StillWorking ==>
                ExecForward(b, program, state0.func, state0.instruction,
                            Run(stateSet, old(TrueCells(eatenStarsMask)), starsEaten0, state0.pos, state0.dir)) ==
                Outcome(verdict, Run(stateSet, TrueCells(eatenStarsMask), starsEaten, state.pos, state.dir))
    {
      ghost var func, instr := state0.func, state0.instruction;
      ghost var r1 := Run(stateSet, TrueCells(eatenStarsMask), starsEaten0, state0.pos, state0.dir);
      state, starsEaten := state0, starsEaten0;
      verdict := StillWorking;

      state := state.(pos := state.pos.(x := state.pos.x + ShiftX[state.dir]));
      state := state.(pos := state.pos.(y := state.pos.y + ShiftY[state.dir]));
      assert state.pos == Move(r1.pos, r1.dir);

      if state.pos.x < 0 || state.pos.y < 0 || state.pos.x >= width || state.pos.y >= height {
        ForwardFails(b, program, func, instr, r1);
        verdict := Fail;
        return;
      }
      if colors[state.pos.x, state.pos.y] == FieldColor.None {
        ForwardFails(b, program, func, instr, r1);
        verdict := Fail;
        return;
      }

      assert (state.pos in b.stars) == stars[state.pos.x, state.pos.y];
      assert (state.pos in r1.eaten) == eatenStarsMask[state.pos.x, state.pos.y];
      if stars[state.pos.x, state.pos.y] && !eatenStarsMask[state.pos.x, state.pos.y] {
        SetFlag(eatenStarsMask, state.pos, true);
        starsEaten := starsEaten + 1;
        ForwardEats(b, program, func, instr, r1,
                    Run(stateSet, TrueCells(eatenStarsMask), starsEaten, state.pos, state.dir));
        if starsEaten == starsCount {
          verdict := StarsEaten;
          return;
        }
      } else {
        ForwardMoves(b, program, func, instr, r1);
      }
    }
  }

  /** A one-cell board with a star on its painted start cell and start
      direction 4: the check as written accepts it, although the
      interpreter cannot take a step in direction 4 (a Forward made before
      any turn indexes the shift tables out of range). */
  method DirectionFourAccepted() returns (p: Puzzle)
    ensures p.Valid() && p.IsInValidConfiguration() == Value(true)
    ensures !ValidConfiguration(p.Board()) && !Startable(p.Board())
  {
    p := new Puzzle(1, 1);
    p.SetStar(0, 0, true);
    p.SetColor(0, 0, FieldColor.Red);
    p.SetStartPosition(0, 0);
    p.SetStartDirection(4);
  }

  /** A one-cell board with a star and the start one cell to the right of
      the grid: the check as written reads the paint of a cell that does not
      exist, where a `false` was meant. */
  method StartBeyondGridFaults() returns (p: Puzzle)
    ensures p.Valid() && p.IsInValidConfiguration() == IndexOutOfRange
    ensures !ValidConfiguration(p.Board())
  {
    p := new Puzzle(1, 1);
    p.SetStar(0, 0, true);
    p.SetColor(0, 0, FieldColor.Red);
    p.SetStartPosition(1, 0);
    p.SetStartDirection(1);
  }
}
