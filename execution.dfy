// The semantics of `CanBeSolvedWithDfs`, shared by both versions of the
// puzzle class: running function `func` from instruction `instr` in a
// context of visited states, eaten stars, a star counter and the robot's
// position and direction.
module Execution {
  import opened Coords
  import opened Instructions
  import opened Programs
  import opened Grids

  datatype ExecutionResult = StarsEaten | StillWorking | Fail

  /** `ProgramState`, the loop-check key. */
  datatype ProgramState = ProgramState(pos: Coord, dir: int, func: int, instruction: int)

  /** The puzzle as the interpreter sees it. */
  datatype Board = Board(width: int, height: int, colors: map<Coord, FieldColor>, stars: set<Coord>,
                         starsCount: int, start: Coord, startDir: int)

  /** What a run threads through the calls: the visited-state set, the
      eaten-star mask, the eaten-star counter, and the position and direction
      passed back by reference. */
  datatype Run = Run(visited: set<ProgramState>, eaten: set<Coord>, starsEaten: int, pos: Coord, dir: int)

  datatype Outcome = Outcome(result: ExecutionResult, run: Run)

  /** `shiftX` and `shiftY`, indexed by direction. */
  const ShiftX: seq<int> := [0, 1, 0, -1]
  const ShiftY: seq<int> := [-1, 0, 1, 0]

  /** `ProgramState.Equals` on two states: it compares the five fields one by
      one, which is value equality, so a `set` models the `HashSet`. */
  function StatesEqual(a: ProgramState, b: ProgramState): (r: bool)
    ensures r <==> a == b
  {
    a.pos.x == b.pos.x && a.pos.y == b.pos.y &&
    a.dir == b.dir && a.func == b.func && a.instruction == b.instruction
  }

  predicate InBounds(b: Board, c: Coord) {
    0 <= c.x < b.width && 0 <= c.y < b.height
  }

  function ColorAt(b: Board, c: Coord): FieldColor {
    if c in b.colors then b.colors[c] else FieldColor.None
  }

  /** Left: one step counter-clockwise; Right undoes it. */
  function TurnLeft(dir: int): (r: int)
    requires 0 <= dir < 4
    ensures 0 <= r < 4
    ensures TurnRight(r) == dir
  {
    (dir - 1 + 4) % 4
  }

  /** Right: one step clockwise; Left undoes it. */
  function TurnRight(dir: int): (r: int)
    requires 0 <= dir < 4
    ensures 0 <= r < 4
    ensures r == 0 <==> dir == 3
  {
    (dir + 1) % 4
  }

  /** Forward: one cell up (0), right (1), down (2) or left (3). */
  function Move(c: Coord, dir: int): (r: Coord)
    requires 0 <= dir < 4
    ensures dir == 0 ==> r == Coord(c.x, c.y - 1)
    ensures dir == 1 ==> r == Coord(c.x + 1, c.y)
    ensures dir == 2 ==> r == Coord(c.x, c.y + 1)
    ensures dir == 3 ==> r == Coord(c.x - 1, c.y)
  {
    Coord(c.x + ShiftX[dir], c.y + ShiftY[dir])
  }

  /** Two right turns face the opposite way, and moving there undoes a move. */
  lemma MoveBack(c: Coord, dir: int)
    requires 0 <= dir < 4
    ensures Move(Move(c, dir), TurnRight(TurnRight(dir))) == c
  {
  }

  /** What the interpreter needs of its inputs: a non-empty board whose star
      counter is the number of starred cells, and a runnable program. */
  ghost predicate Ready(b: Board, p: Program) {
    b.width > 0 && b.height > 0 && b.stars <= Cells(b.width, b.height) &&
    b.starsCount == |b.stars| && Runnable(p)
  }

  /** The context invariant on entry to an instruction: the robot stands on
      the board facing one of four ways, each eaten star is a star and is
      counted once, and not all stars are eaten yet. */
  ghost predicate RunInv(b: Board, r: Run) {
    InBounds(b, r.pos) && 0 <= r.dir < 4 &&
    r.eaten <= b.stars && r.starsEaten == |r.eaten| && r.starsEaten < b.starsCount
  }

  /** Every state a run can record. */
  ghost function Universe(b: Board, p: Program): set<ProgramState> {
    set c, d, f, i | c in Cells(b.width, b.height) && 0 <= d < 4 && 0 <= f < |p.code| &&
                     0 <= i < |p.code[f]| :: ProgramState(c, d, f, i)
  }

  /** Recording a state `s` of the universe, unseen in `v`, shrinks the
      unvisited part: the measure by which every run terminates. */
  lemma RecordShrinks(b: Board, p: Program, v: set<ProgramState>, w: set<ProgramState>, s: ProgramState)
    requires InBounds(b, s.pos) && 0 <= s.dir < 4 && 0 <= s.func < |p.code| && 0 <= s.instruction < |p.code[s.func]|
    requires s !in v && v + {s} <= w
    ensures |Universe(b, p) - w| < |Universe(b, p) - v|
  {
    var u := Universe(b, p);
    assert s == ProgramState(s.pos, s.dir, s.func, s.instruction);
    assert s in u;
    assert u - w <= (u - v) - {s};
    SubsetCardinality(u - w, (u - v) - {s});
    assert (u - v) == ((u - v) - {s}) + {s};
  }

  /** How a run's final context relates to its initial one: the visited set
      only grows, eaten stars stay eaten, are stars and are counted once, the
      direction stays one of four, the robot is on the board unless the run
      failed, and StarsEaten is the verdict exactly when the counter reaches
      the puzzle's star count. */
  ghost predicate Follows(b: Board, r: Run, o: Outcome) {
    r.visited <= o.run.visited && r.eaten <= o.run.eaten && o.run.eaten <= b.stars &&
    o.run.starsEaten == |o.run.eaten| && 0 <= o.run.dir < 4 &&
    (o.result != Fail ==> InBounds(b, o.run.pos)) &&
    (o.result == StarsEaten ==> o.run.starsEaten == b.starsCount) &&
    (o.result != StarsEaten ==> o.run.starsEaten < b.starsCount)
  }

  /** Runs function `func` from instruction `instr` to its verdict: the loop
      of `CanBeSolvedWithDfs` from `instr` on. A state seen before fails the
      run; otherwise the state is recorded and the slot executed. */
  function Exec(b: Board, p: Program, func: int, instr: int, r: Run): (o: Outcome)
    requires Ready(b, p) && 0 <= func < |p.code| && 0 <= instr <= |p.code[func]| && RunInv(b, r)
    ensures Follows(b, r, o)
    decreases |Universe(b, p) - r.visited|, 0
  {
    if instr == GetInstructionCountInFunc(p, func) then Outcome(StillWorking, r)
    else
      var s := ProgramState(r.pos, r.dir, func, instr);
      if s in r.visited then Outcome(Fail, r)
      else
        RecordShrinks(b, p, r.visited, r.visited + {s}, s);
        ExecSlot(b, p, func, instr, r.(visited := r.visited + {s}))
  }

  /** Executes slot `instr` of function `func`, whose state is recorded in
      `r`, and runs on. An empty slot, or a guard colour other than the
      current cell's, is skipped; Left and Right turn. */
  function ExecSlot(b: Board, p: Program, func: int, instr: int, r: Run): (o: Outcome)
    requires Ready(b, p) && 0 <= func < |p.code| && 0 <= instr < |p.code[func]| && RunInv(b, r)
    ensures Follows(b, r, o)
    decreases |Universe(b, p) - r.visited|, 3
  {
    var slot := GetProgramSlot(p, func, instr);
    if slot.action == ProgramAction.None then Exec(b, p, func, instr + 1, r)
    else if slot.color != FieldColor.None && slot.color != ColorAt(b, r.pos) then Exec(b, p, func, instr + 1, r)
    else if slot.action == ProgramAction.Left then Exec(b, p, func, instr + 1, r.(dir := TurnLeft(r.dir)))
    else if slot.action == ProgramAction.Right then Exec(b, p, func, instr + 1, r.(dir := TurnRight(r.dir)))
    else if slot.action == ProgramAction.Forward then ExecForward(b, p, func, instr, r)
    else ExecCall(b, p, func, instr, r)
  }

  /** Forward: moves one cell; the run fails off the board or on an unpainted
      cell; a star not eaten before is eaten and counted, and the run is won
      when the counter reaches the star count. */
  function ExecForward(b: Board, p: Program, func: int, instr: int, r: Run): (o: Outcome)
    requires Ready(b, p) && 0 <= func < |p.code| && 0 <= instr < |p.code[func]| && RunInv(b, r)
    ensures Follows(b, r, o)
    decreases |Universe(b, p) - r.visited|, 1
  {
    var np := Move(r.pos, r.dir);
    if !InBounds(b, np) then Outcome(Fail, r.(pos := np))
    else if ColorAt(b, np) == FieldColor.None then Outcome(Fail, r.(pos := np))
    else if np in b.stars && np !in r.eaten then
      var r2 := r.(pos := np, eaten := r.eaten + {np}, starsEaten := r.starsEaten + 1);
      if r2.starsEaten == b.starsCount then Outcome(StarsEaten, r2)
      else
        SubsetCardinality(r2.eaten, b.stars);
        Exec(b, p, func, instr + 1, r2)
    else Exec(b, p, func, instr + 1, r.(pos := np))
  }

  /** A call F1..F5 at slot `instr` of `func`: runs the callee from its
      instruction 0 in the same context; a verdict of the callee is the
      verdict, otherwise the caller goes on from the callee's final position,
      direction, visited set and eaten stars. */
  function ExecCall(b: Board, p: Program, func: int, instr: int, r: Run): (o: Outcome)
    requires Ready(b, p) && 0 <= func < |p.code| && 0 <= instr < |p.code[func]| && RunInv(b, r)
    requires p.code[func][instr].action.IsCall()
    ensures Follows(b, r, o)
    decreases |Universe(b, p) - r.visited|, 2
  {
    var callee := Exec(b, p, p.code[func][instr].action.Target(), 0, r);
    if callee.result != StillWorking then callee
    else
      SubsetCardinality(Universe(b, p) - callee.run.visited, Universe(b, p) - r.visited);
      Exec(b, p, func, instr + 1, callee.run)
  }

  /** The boards the interpreters are run on: a star to eat, a start cell
      on the board and a direction 0..3. Outside these the C# may fault (a
      Forward in a direction beyond 0..3, the paint of a start off the grid)
      or simply fail; the callers never produce such boards. */
  predicate Startable(b: Board) {
    b.starsCount > 0 && InBounds(b, b.start) && 0 <= b.startDir < 4
  }

  /** A valid configuration: startable, and the start cell is painted
      (the trunk version's `IsInValidConfiguration`). */
  predicate ValidConfiguration(b: Board) {
    Startable(b) && ColorAt(b, b.start) != FieldColor.None
  }

  /** The conditions under which slot `instr` of `func` may run. */
  ghost predicate SlotReady(b: Board, p: Program, func: int, instr: int, r: Run) {
    Ready(b, p) && 0 <= func < |p.code| && 0 <= instr < |p.code[func]| && RunInv(b, r)
  }

  /** Whether the slot's guard lets it act on the current cell. */
  predicate Enabled(b: Board, slot: ProgramSlot, r: Run) {
    slot.action != ProgramAction.None && (slot.color == FieldColor.None || slot.color == ColorAt(b, r.pos))
  }

  /** An empty slot, or one whose guard colour is not the current cell's,
      changes nothing but the instruction. */
  lemma SkipStep(b: Board, p: Program, func: int, instr: int, r: Run)
    requires SlotReady(b, p, func, instr, r) && !Enabled(b, p.code[func][instr], r)
    ensures ExecSlot(b, p, func, instr, r) == Exec(b, p, func, instr + 1, r)
  {
  }

  /** Left and Right change only the direction, by one quarter turn. */
  lemma TurnStep(b: Board, p: Program, func: int, instr: int, r: Run)
    requires SlotReady(b, p, func, instr, r) && Enabled(b, p.code[func][instr], r)
    requires p.code[func][instr].action in {ProgramAction.Left, ProgramAction.Right}
    ensures ExecSlot(b, p, func, instr, r) ==
            Exec(b, p, func, instr + 1,
                 r.(dir := if p.code[func][instr].action == ProgramAction.Left then TurnLeft(r.dir) else TurnRight(r.dir)))
  {
  }

  lemma ForwardStep(b: Board, p: Program, func: int, instr: int, r: Run)
    requires SlotReady(b, p, func, instr, r) && Enabled(b, p.code[func][instr], r)
    requires p.code[func][instr].action == ProgramAction.Forward
    ensures ExecSlot(b, p, func, instr, r) == ExecForward(b, p, func, instr, r)
  {
  }

  lemma CallStep(b: Board, p: Program, func: int, instr: int, r: Run)
    requires SlotReady(b, p, func, instr, r) && Enabled(b, p.code[func][instr], r)
    requires p.code[func][instr].action.IsCall()
    ensures ExecSlot(b, p, func, instr, r) == ExecCall(b, p, func, instr, r)
  {
  }

  /** A move off the board or onto an unpainted cell fails the run, with
      the robot on the cell it moved to. */
  lemma ForwardFails(b: Board, p: Program, func: int, instr: int, r: Run)
    requires SlotReady(b, p, func, instr, r)
    requires !InBounds(b, Move(r.pos, r.dir)) || ColorAt(b, Move(r.pos, r.dir)) == FieldColor.None
    ensures ExecForward(b, p, func, instr, r) == Outcome(Fail, r.(pos := Move(r.pos, r.dir)))
  {
  }

  /** A move onto a painted cell without an uneaten star changes only the
      position. */
  lemma ForwardMoves(b: Board, p: Program, func: int, instr: int, r: Run)
    requires SlotReady(b, p, func, instr, r)
    requires InBounds(b, Move(r.pos, r.dir)) && ColorAt(b, Move(r.pos, r.dir)) != FieldColor.None
    requires Move(r.pos, r.dir) !in b.stars || Move(r.pos, r.dir) in r.eaten
    ensures ExecForward(b, p, func, instr, r) == Exec(b, p, func, instr + 1, r.(pos := Move(r.pos, r.dir)))
  {
  }

  /** A move onto an uneaten star eats it and counts it; the run is won
      when the counter reaches the star count and goes on otherwise. */
  lemma ForwardEats(b: Board, p: Program, func: int, instr: int, r: Run, r2: Run)
    requires SlotReady(b, p, func, instr, r)
    requires InBounds(b, Move(r.pos, r.dir)) && ColorAt(b, Move(r.pos, r.dir)) != FieldColor.None
    requires Move(r.pos, r.dir) in b.stars && Move(r.pos, r.dir) !in r.eaten
    requires r2 == r.(pos := Move(r.pos, r.dir), eaten := r.eaten + {Move(r.pos, r.dir)}, starsEaten := r.starsEaten + 1)
    ensures r2.starsEaten == b.starsCount ==> ExecForward(b, p, func, instr, r) == Outcome(StarsEaten, r2)
    ensures r2.starsEaten != b.starsCount ==> RunInv(b, r2) && ExecForward(b, p, func, instr, r) == Exec(b, p, func, instr + 1, r2)
  {
    SubsetCardinality(r2.eaten, b.stars);
  }

  /** A call whose callee reaches a verdict ends the caller with it;
      otherwise the caller goes on from the callee's final context. */
  lemma CallReturns(b: Board, p: Program, func: int, instr: int, r: Run)
    requires SlotReady(b, p, func, instr, r) && p.code[func][instr].action.IsCall()
    ensures var callee := Exec(b, p, p.code[func][instr].action.Target(), 0, r);
            ExecCall(b, p, func, instr, r) ==
            if callee.result != StillWorking then callee else Exec(b, p, func, instr + 1, callee.run)
  {
  }

  /** Without a Forward anywhere in the program the robot never moves, so
      no star is eaten and no run is won. */
  lemma {:induction false} ExecNoForward(b: Board, p: Program, func: int, instr: int, r: Run)
    requires Ready(b, p) && 0 <= func < |p.code| && 0 <= instr <= |p.code[func]| && RunInv(b, r)
    requires !HasForward(p.code)
    ensures Exec(b, p, func, instr, r).result != StarsEaten
    ensures Exec(b, p, func, instr, r).run.eaten == r.eaten
    ensures Exec(b, p, func, instr, r).run.pos == r.pos
    decreases |Universe(b, p) - r.visited|, 0
  {
    if instr < |p.code[func]| {
      var s := ProgramState(r.pos, r.dir, func, instr);
      if s !in r.visited {
        RecordShrinks(b, p, r.visited, r.visited + {s}, s);
        SlotNoForward(b, p, func, instr, r.(visited := r.visited + {s}));
      }
    }
  }

  lemma {:induction false} SlotNoForward(b: Board, p: Program, func: int, instr: int, r: Run)
    requires SlotReady(b, p, func, instr, r) && !HasForward(p.code)
    ensures ExecSlot(b, p, func, instr, r).result != StarsEaten
    ensures ExecSlot(b, p, func, instr, r).run.eaten == r.eaten
    ensures ExecSlot(b, p, func, instr, r).run.pos == r.pos
    decreases |Universe(b, p) - r.visited|, 1
  {
    var slot := p.code[func][instr];
    assert slot.action != ProgramAction.Forward;
    if !Enabled(b, slot, r) {
      SkipStep(b, p, func, instr, r);
      ExecNoForward(b, p, func, instr + 1, r);
    } else if slot.action == ProgramAction.Left || slot.action == ProgramAction.Right {
      TurnStep(b, p, func, instr, r);
      ExecNoForward(b, p, func, instr + 1,
                    r.(dir := if slot.action == ProgramAction.Left then TurnLeft(r.dir) else TurnRight(r.dir)));
    } else {
      CallStep(b, p, func, instr, r);
      CallReturns(b, p, func, instr, r);
      var callee := Exec(b, p, slot.action.Target(), 0, r);
      ExecNoForward(b, p, slot.action.Target(), 0, r);
      if callee.result == StillWorking {
        SubsetCardinality(Universe(b, p) - callee.run.visited, Universe(b, p) - r.visited);
        ExecNoForward(b, p, func, instr + 1, callee.run);
      }
    }
  }
}
