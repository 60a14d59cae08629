// The exhaustive program generator: a depth-first search over the slots of
// each function, left to right, that writes one slot of a working buffer at
// a time, offers every completed program that moves forward to a stop
// predicate, and undoes each write when it backtracks.
module Enumeration {
  import opened Instructions
  import opened Programs

  /** The slot lengths the generator accepts: at most five functions, none
      of them empty (an empty function would index its buffer out of
      range). */
  predicate ValidSlotCounts(lens: seq<int>) {
    |lens| <= 5 && forall i :: 0 <= i < |lens| ==> lens[i] >= 1
  }

  predicate Positive(lens: seq<int>) {
    forall i :: 0 <= i < |lens| ==> lens[i] >= 1
  }

  /** The colour list: None first, then the enabled paints in the order
      Red, Green, Blue. */
  function AvailableColors(useRed: bool, useGreen: bool, useBlue: bool): (r: seq<FieldColor>)
    ensures |r| >= 1 && r[0] == FieldColor.None
    ensures forall c :: c in r <==>
              c == FieldColor.None || (c == FieldColor.Red && useRed) ||
              (c == FieldColor.Green && useGreen) || (c == FieldColor.Blue && useBlue)
    ensures forall i, j :: 0 <= i < j < |r| ==> ColorRank(r[i]) < ColorRank(r[j])
  {
    [FieldColor.None] + (if useRed then [FieldColor.Red] else []) +
    (if useGreen then [FieldColor.Green] else []) + (if useBlue then [FieldColor.Blue] else [])
  }

  /** The position of a colour in the enum. */
  function ColorRank(c: FieldColor): nat {
    match c
    case None => 0
    case Red => 1
    case Green => 2
    case Blue => 3
  }

  /** The action list: Forward, Left, Right, then a call of each configured
      function in order (at most F5). */
  function AvailableActions(funcCount: int): (r: seq<ProgramAction>)
    ensures |r| == 3 + (if funcCount < 0 then 0 else if funcCount > 5 then 5 else funcCount)
    ensures r[0] == ProgramAction.Forward && r[1] == ProgramAction.Left && r[2] == ProgramAction.Right
    ensures forall i :: 3 <= i < |r| ==> r[i].IsCall() && r[i].Target() == i - 3
    ensures ProgramAction.None !in r
  {
    [ProgramAction.Forward, ProgramAction.Left, ProgramAction.Right] +
    (if funcCount > 0 then [ProgramAction.F1] else []) + (if funcCount > 1 then [ProgramAction.F2] else []) +
    (if funcCount > 2 then [ProgramAction.F3] else []) + (if funcCount > 3 then [ProgramAction.F4] else []) +
    (if funcCount > 4 then [ProgramAction.F5] else [])
  }

  // ---------------------------------------------------------------------
  // The pruning rules

  predicate IsTurn(a: ProgramAction) {
    a == ProgramAction.Left || a == ProgramAction.Right
  }

  /** Two rotations under the same guard that cancel each other. */
  predicate Opposite(a: ProgramSlot, b: ProgramSlot) {
    a.color == b.color &&
    ((a.action == ProgramAction.Left && b.action == ProgramAction.Right) ||
     (a.action == ProgramAction.Right && b.action == ProgramAction.Left))
  }

  /** The number of consecutive copies of `s` that end at index `i`. */
  function SameRun(code: seq<ProgramSlot>, i: int, s: ProgramSlot): (n: nat)
    requires -1 <= i < |code|
    ensures n <= i + 1
    ensures n > 0 <==> i >= 0 && code[i] == s
    decreases i + 1
  {
    if i < 0 || code[i] != s then 0 else 1 + SameRun(code, i - 1, s)
  }

  /** The slot `s` at `depth` is pruned: a rotation that cancels the one
      before it, a third Right or a second Left in a row under the same
      guard, or a first instruction that calls its own function. */
  predicate Skipped(code: seq<ProgramSlot>, funcIndex: int, depth: int, s: ProgramSlot)
    requires 0 <= depth <= |code|
  {
    (IsTurn(s.action) && depth > 0 &&
     (Opposite(code[depth - 1], s) ||
      (s.action == ProgramAction.Right && SameRun(code, depth - 1, s) >= 2) ||
      (s.action == ProgramAction.Left && SameRun(code, depth - 1, s) >= 1)))
    || (depth == 0 && s.action.IsCall() && s.action.Target() == funcIndex)
  }

  /** `SkipDueToOptimizations`: first the opposite-rotation test, then a
      backward count of the run of identical rotations, then the
      self-call test. */
  method SkipDueToOptimizations(code: array<ProgramSlot>, funcIndex: int, depth: int,
                                action: ProgramAction, color: FieldColor) returns (skip: bool)
    requires 0 <= depth <= code.Length
    ensures skip == Skipped(code[..], funcIndex, depth, ProgramSlot(action, color))
  {
    ghost var s := ProgramSlot(action, color);
    if (action == ProgramAction.Left || action == ProgramAction.Right) && depth > 0 {
      // Opposite rotations under the same colour.
      if code[depth - 1].color == color &&
         ((code[depth - 1].action == ProgramAction.Left && action == ProgramAction.Right) ||
          (code[depth - 1].action == ProgramAction.Right && action == ProgramAction.Left)) {
        return true;
      }

      // The run of identical rotations this one would extend.
      var i := depth - 1;
      var sameCount := 1;
      while i >= 0 && code[i].color == color && code[i].action == action
        invariant -1 <= i <= depth - 1
        invariant sameCount - 1 + SameRun(code[..], i, s) == SameRun(code[..], depth - 1, s)
        decreases i
      {
        sameCount := sameCount + 1;
        i := i - 1;
      }

      if (sameCount > 2 && action == ProgramAction.Right) || (sameCount > 1 && action == ProgramAction.Left) {
        return true;
      }
    }

    if (depth == 0 && funcIndex == 0 && action == ProgramAction.F1) ||
       (depth == 0 && funcIndex == 1 && action == ProgramAction.F2) ||
       (depth == 0 && funcIndex == 2 && action == ProgramAction.F3) ||
       (depth == 0 && funcIndex == 3 && action == ProgramAction.F4) ||
       (depth == 0 && funcIndex == 4 && action == ProgramAction.F5) {
      return true;
    }

    return false;
  }

  /** `CheckIfCompleteCodeIsGood`: a flag loop over every slot of every
      function (the `break` leaves only the inner loop); a program is good
      exactly when some slot is a Forward. */
  method CheckIfCompleteCodeIsGood(programCode: array<seq<ProgramSlot>>) returns (good: bool)
    ensures good == HasForward(programCode[..])
  {
    var forwardInstructionFound := false;
    for f := 0 to programCode.Length
      invariant forwardInstructionFound == HasForward(programCode[..f])
    {
      var funcCode := programCode[f];
      ghost var before := forwardInstructionFound;
      for i := 0 to |funcCode|
        invariant forwardInstructionFound == (before || exists j :: 0 <= j < i && funcCode[j].action == ProgramAction.Forward)
      {
        if funcCode[i].action == ProgramAction.Forward {
          forwardInstructionFound := true;
          break;
        }
      }
      HasForwardExtend(programCode[..f + 1], f);
      assert programCode[..f + 1][..f] == programCode[..f];
    }
    assert programCode[..programCode.Length] == programCode[..];

    if !forwardInstructionFound {
      return false;
    }
    return true;
  }

  /** Code with one more function has a Forward exactly when the shorter
      code has one or the added function has one. */
  lemma HasForwardExtend(code: seq<seq<ProgramSlot>>, f: int)
    requires 0 <= f && f + 1 == |code|
    ensures HasForward(code) == (HasForward(code[..f]) ||
                                 exists j :: 0 <= j < |code[f]| && code[f][j].action == ProgramAction.Forward)
  {
    if HasForward(code) {
      var g, i :| 0 <= g < |code| && 0 <= i < |code[g]| && code[g][i].action == ProgramAction.Forward;
      if g < f {
        assert code[..f][g] == code[g];
      }
    }
    if HasForward(code[..f]) {
      var g, i :| 0 <= g < f && 0 <= i < |code[..f][g]| && code[..f][g][i].action == ProgramAction.Forward;
      assert code[g] == code[..f][g];
    }
  }

  // ---------------------------------------------------------------------
  // The order in which programs are offered

  function Blanks(n: nat): (r: seq<ProgramSlot>)
    ensures |r| == n && forall i :: 0 <= i < n ==> r[i] == Blank
  {
    seq(n, _ => Blank)
  }

  /** The programs `GenerateProgramsDfs` offers to the stop predicate, in
      order, when the functions before `func` are `done`: once every
      function is written, the program if it has a Forward; otherwise every
      body of function `func`, each followed by the programs completing it. */
  ghost function From(colors: seq<FieldColor>, actions: seq<ProgramAction>, lens: seq<int>,
                      func: nat, done: seq<seq<ProgramSlot>>): seq<Program>
    requires Positive(lens) && func <= |lens| && |done| == func
    decreases |lens| - func, 1, 0, 0, 0
  {
    if func == |lens| then
      if HasForward(done) then [Program(done)] else []
    else
      Over(colors, actions, lens, func, done, Blanks(lens[func]), 0, 0, 0)
  }

  /** The programs `GenerateFuncCodeDfs` leads to from action `ai` and
      colour `ci` on, writing slot `depth` of the buffer `code` of function
      `func`: the slots in action-major order, each with what it leads to. */
  ghost function Over(colors: seq<FieldColor>, actions: seq<ProgramAction>, lens: seq<int>, func: nat,
                      done: seq<seq<ProgramSlot>>, code: seq<ProgramSlot>, depth: nat, ai: nat, ci: nat): seq<Program>
    requires Positive(lens) && func < |lens| && |done| == func
    requires depth < |code| && ai <= |actions| && ci <= |colors|
    decreases |lens| - func, 0, |code| - depth, |actions| - ai, |colors| - ci
  {
    if ai == |actions| then []
    else if ci == |colors| then Over(colors, actions, lens, func, done, code, depth, ai + 1, 0)
    else
      Contribution(colors, actions, lens, func, done, code, depth, ProgramSlot(actions[ai], colors[ci])) +
      Over(colors, actions, lens, func, done, code, depth, ai, ci + 1)
  }

  /** What slot `s` written at `depth` leads to: nothing when it is pruned;
      otherwise first the programs completing the body that ends with it,
      then those completing its extensions at the next depth. */
  ghost function Contribution(colors: seq<FieldColor>, actions: seq<ProgramAction>, lens: seq<int>, func: nat,
                              done: seq<seq<ProgramSlot>>, code: seq<ProgramSlot>, depth: nat, s: ProgramSlot): seq<Program>
    requires Positive(lens) && func < |lens| && |done| == func && depth < |code|
    decreases |lens| - func, 0, |code| - depth, 0, 0
  {
    if Skipped(code, func, depth, s) then []
    else
      var c2 := code[depth := s];
      From(colors, actions, lens, func + 1, done + [c2]) +
      (if s.action != ProgramAction.None && depth < |code| - 1
       then Over(colors, actions, lens, func, done, c2, depth + 1, 0, 0) else [])
  }

  /** What a slot leads to, case by case. */
  lemma ContributionCases(colors: seq<FieldColor>, actions: seq<ProgramAction>, lens: seq<int>, func: nat,
                          done: seq<seq<ProgramSlot>>, code: seq<ProgramSlot>, depth: nat, s: ProgramSlot)
    requires Positive(lens) && func < |lens| && |done| == func && depth < |code|
    ensures Skipped(code, func, depth, s) ==> Contribution(colors, actions, lens, func, done, code, depth, s) == []
    ensures !Skipped(code, func, depth, s) ==>
              Contribution(colors, actions, lens, func, done, code, depth, s) ==
              From(colors, actions, lens, func + 1, done + [code[depth := s]]) +
              Extensions(colors, actions, lens, func, done, code[depth := s], depth)
  {
  }

  /** The programs the extensions of the body ending at `depth` lead to:
      none when that slot is empty or the last one. */
  ghost function Extensions(colors: seq<FieldColor>, actions: seq<ProgramAction>, lens: seq<int>, func: nat,
                            done: seq<seq<ProgramSlot>>, code: seq<ProgramSlot>, depth: nat): seq<Program>
    requires Positive(lens) && func < |lens| && |done| == func && depth < |code|
  {
    if code[depth].action != ProgramAction.None && depth < |code| - 1
    then Over(colors, actions, lens, func, done, code, depth + 1, 0, 0) else []
  }

  /** The programs the slots of action `ai` lead to, from colour `ci` on. */
  ghost function Row(colors: seq<FieldColor>, actions: seq<ProgramAction>, lens: seq<int>, func: nat,
                     done: seq<seq<ProgramSlot>>, code: seq<ProgramSlot>, depth: nat, ai: nat, ci: nat): seq<Program>
    requires Positive(lens) && func < |lens| && |done| == func
    requires depth < |code| && ai < |actions| && ci <= |colors|
    decreases |colors| - ci
  {
    if ci == |colors| then []
    else
      Contribution(colors, actions, lens, func, done, code, depth, ProgramSlot(actions[ai], colors[ci])) +
      Row(colors, actions, lens, func, done, code, depth, ai, ci + 1)
  }

  /** The scan over the slots at `depth` is the row of the current action,
      then the scan from the next action on. */
  lemma {:induction false} OverRow(colors: seq<FieldColor>, actions: seq<ProgramAction>, lens: seq<int>, func: nat,
                                   done: seq<seq<ProgramSlot>>, code: seq<ProgramSlot>, depth: nat, ai: nat, ci: nat)
    requires Positive(lens) && func < |lens| && |done| == func
    requires depth < |code| && ai < |actions| && ci <= |colors|
    ensures Over(colors, actions, lens, func, done, code, depth, ai, ci) ==
            Row(colors, actions, lens, func, done, code, depth, ai, ci) +
            Over(colors, actions, lens, func, done, code, depth, ai + 1, 0)
    decreases |colors| - ci
  {
    var next := Over(colors, actions, lens, func, done, code, depth, ai + 1, 0);
    if ci == |colors| {
      assert [] + next == next;
    } else {
      OverRow(colors, actions, lens, func, done, code, depth, ai, ci + 1);
      var here := Contribution(colors, actions, lens, func, done, code, depth, ProgramSlot(actions[ai], colors[ci]));
      var rest := Row(colors, actions, lens, func, done, code, depth, ai, ci + 1);
      assert here + (rest + next) == (here + rest) + next;
    }
  }

  /** Every program the generator can offer for the given colours and
      function lengths, in the order it offers them. */
  ghost function Candidates(useRed: bool, useGreen: bool, useBlue: bool, lens: seq<int>): seq<Program>
    requires ValidSlotCounts(lens)
  {
    From(AvailableColors(useRed, useGreen, useBlue), AvailableActions(|lens|), lens, 0, [])
  }

  // ---------------------------------------------------------------------
  // Stopping early

  /** Some program of `l` makes the predicate stop. */
  ghost predicate Stops(l: seq<Program>, stop: Program -> bool) {
    l != [] && (stop(l[0]) || Stops(l[1..], stop))
  }

  /** The programs of `l` up to and including the first one that makes the
      predicate stop (all of `l` when none does). */
  ghost function TakeThrough(l: seq<Program>, stop: Program -> bool): seq<Program> {
    if l == [] then []
    else if stop(l[0]) then [l[0]]
    else [l[0]] + TakeThrough(l[1..], stop)
  }

  /** `Stops` is the existence of a program that stops the predicate. */
  lemma {:induction false} StopsExists(l: seq<Program>, stop: Program -> bool)
    ensures Stops(l, stop) <==> exists i :: 0 <= i < |l| && stop(l[i])
  {
    if l != [] {
      StopsExists(l[1..], stop);
      if exists i :: 0 <= i < |l| && stop(l[i]) {
        var i :| 0 <= i < |l| && stop(l[i]);
        if i > 0 {
          assert stop(l[1..][i - 1]);
        }
      }
      if Stops(l[1..], stop) {
        var i :| 0 <= i < |l[1..]| && stop(l[1..][i]);
        assert stop(l[i + 1]);
      }
    }
  }

  /** The predicate is asked about a prefix of the programs; when it stops,
      the last program asked is the first that stops it and no later one is
      asked; when it never stops, it is asked about every program. */
  lemma {:induction false} TakeThroughPrefix(l: seq<Program>, stop: Program -> bool)
    ensures var t := TakeThrough(l, stop);
            (t <= l &&
             (Stops(l, stop) ==> |t| > 0 && stop(t[|t| - 1]) && forall i :: 0 <= i < |t| - 1 ==> !stop(t[i])) &&
             (!Stops(l, stop) ==> t == l))
  {
    if l != [] && !stop(l[0]) {
      TakeThroughPrefix(l[1..], stop);
      var t := TakeThrough(l[1..], stop);
      assert TakeThrough(l, stop) == [l[0]] + t;
      assert l == [l[0]] + l[1..];
    }
  }

  /** When nothing stops the predicate, it is asked about every program. */
  lemma TakeThroughAll(l: seq<Program>, stop: Program -> bool)
    requires !Stops(l, stop)
    ensures TakeThrough(l, stop) == l
  {
    TakeThroughPrefix(l, stop);
  }

  /** Asking about `a + b` asks about `a`, then, unless `a` stopped it,
      about `b`. */
  lemma {:induction false} TakeThroughAppend(a: seq<Program>, b: seq<Program>, stop: Program -> bool)
    ensures Stops(a + b, stop) == (Stops(a, stop) || Stops(b, stop))
    ensures TakeThrough(a + b, stop) == if Stops(a, stop) then TakeThrough(a, stop) else a + TakeThrough(b, stop)
  {
    if a == [] {
      assert a + b == b;
    } else {
      assert (a + b)[0] == a[0] && (a + b)[1..] == a[1..] + b;
      TakeThroughAppend(a[1..], b, stop);
      if !stop(a[0]) && !Stops(a[1..], stop) {
        assert [a[0]] + (a[1..] + TakeThrough(b, stop)) == a + TakeThrough(b, stop);
      }
    }
  }

  /** A part of a scan that stops the predicate: the scan ends inside it. */
  lemma ScanStops(before: seq<Program>, here: seq<Program>, rest: seq<Program>, stop: Program -> bool)
    requires !Stops(before, stop) && Stops(here, stop)
    ensures Stops(before + (here + rest), stop)
    ensures TakeThrough(before + (here + rest), stop) == before + TakeThrough(here, stop)
  {
    TakeThroughAppend(here, rest, stop);
    TakeThroughAppend(before, here + rest, stop);
  }

  /** A part of a scan that does not stop the predicate: it is asked about
      the whole part, and the scan goes on. */
  lemma ScanPasses(before: seq<Program>, here: seq<Program>, rest: seq<Program>, stop: Program -> bool)
    requires !Stops(before, stop) && !Stops(here, stop)
    ensures !Stops(before + here, stop) && TakeThrough(here, stop) == here
    ensures before + (here + rest) == (before + here) + rest
  {
    TakeThroughAll(here, stop);
    TakeThroughAppend(before, here, stop);
  }

  /** A body is offered, then extended: the scan asks about the programs
      completing the body, and goes on to its extensions only when none of
      those stopped it. */
  lemma OfferThenExtend(first: seq<Program>, deeper: seq<Program>, stop: Program -> bool)
    ensures Stops(first, stop) ==>
              Stops(first + deeper, stop) && TakeThrough(first + deeper, stop) == TakeThrough(first, stop)
    ensures !Stops(first, stop) ==>
              Stops(first + deeper, stop) == Stops(deeper, stop) &&
              TakeThrough(first + deeper, stop) == TakeThrough(first, stop) + TakeThrough(deeper, stop)
  {
    TakeThroughAppend(first, deeper, stop);
    if !Stops(first, stop) {
      TakeThroughAll(first, stop);
    }
  }

  lemma TakeThroughSingle(p: Program, stop: Program -> bool)
    ensures Stops([p], stop) == stop(p) && TakeThrough([p], stop) == [p]
  {
    assert [p][0] == p && [p][1..] == [];
  }

  lemma TakeThroughEmpty(stop: Program -> bool)
    ensures !Stops([], stop) && TakeThrough([], stop) == []
  {
  }

  // ---------------------------------------------------------------------
  // The generator

  /** The rows of the program under construction have the configured
      lengths. */
  ghost predicate Shaped(generatedCode: array<seq<ProgramSlot>>, lens: seq<int>)
    reads generatedCode
  {
    generatedCode.Length == |lens| && forall f :: 0 <= f < |lens| ==> |generatedCode[f]| == lens[f]
  }

  /** `GeneratePrograms`: builds the colour and action lists and a blank
      program of the configured shape, and runs the search from function 0.
      The predicate is asked, in order, about the candidates up to the first
      that stops it. */
  method GeneratePrograms(useRed: bool, useGreen: bool, useBlue: bool, funcSlotCount: seq<int>,
                          shouldStopPredicate: Program -> bool) returns (ghost asked: seq<Program>)
    requires ValidSlotCounts(funcSlotCount)
    ensures asked == TakeThrough(Candidates(useRed, useGreen, useBlue, funcSlotCount), shouldStopPredicate)
  {
    var availableColors := [FieldColor.None];
    if useRed { availableColors := availableColors + [FieldColor.Red]; }
    if useGreen { availableColors := availableColors + [FieldColor.Green]; }
    if useBlue { availableColors := availableColors + [FieldColor.Blue]; }

    var availableActions := [ProgramAction.Forward, ProgramAction.Left, ProgramAction.Right];
    if |funcSlotCount| > 0 { availableActions := availableActions + [ProgramAction.F1]; }
    if |funcSlotCount| > 1 { availableActions := availableActions + [ProgramAction.F2]; }
    if |funcSlotCount| > 2 { availableActions := availableActions + [ProgramAction.F3]; }
    if |funcSlotCount| > 3 { availableActions := availableActions + [ProgramAction.F4]; }
    if |funcSlotCount| > 4 { availableActions := availableActions + [ProgramAction.F5]; }
    assert availableColors == AvailableColors(useRed, useGreen, useBlue);
    assert availableActions == AvailableActions(|funcSlotCount|);

    var generatedCode := new seq<ProgramSlot>[|funcSlotCount|];
    for i := 0 to |funcSlotCount|
      invariant forall f :: 0 <= f < i ==> generatedCode[f] == Blanks(funcSlotCount[f])
    {
      generatedCode[i] := Blanks(funcSlotCount[i]);
    }

    var _, trace := GenerateProgramsDfs(availableColors, availableActions, 0, generatedCode,
                                        shouldStopPredicate, funcSlotCount);
    assert generatedCode[..0] == [];
    asked := trace;
  }

  /** `GenerateProgramsDfs`: once every function is written, checks the
      program and asks the predicate about it; otherwise enumerates the
      bodies of function `func` on a fresh blank buffer. Returns whether the
      predicate stopped the search; the functions before `func` are left as
      they were. */
  method GenerateProgramsDfs(colors: seq<FieldColor>, actions: seq<ProgramAction>, func: int,
                             generatedCode: array<seq<ProgramSlot>>, shouldStopPredicate: Program -> bool,
                             ghost lens: seq<int>)
    returns (stopped: bool, ghost trace: seq<Program>)
    requires Positive(lens) && Shaped(generatedCode, lens) && 0 <= func <= |lens|
    modifies generatedCode
    ensures Shaped(generatedCode, lens) && generatedCode[..func] == old(generatedCode[..func])
    ensures stopped == Stops(From(colors, actions, lens, func, old(generatedCode[..func])), shouldStopPredicate)
    ensures trace == TakeThrough(From(colors, actions, lens, func, old(generatedCode[..func])), shouldStopPredicate)
    decreases |lens| - func, 1, 0, 0
  {
    if func >= generatedCode.Length {
      assert generatedCode[..func] == generatedCode[..];
      var good := CheckIfCompleteCodeIsGood(generatedCode);
      if !good {
        TakeThroughEmpty(shouldStopPredicate);
        return false, [];
      }
      var program := Program(generatedCode[..]);
      TakeThroughSingle(program, shouldStopPredicate);
      return shouldStopPredicate(program), [program];
    }

    var funcCode := new ProgramSlot[|generatedCode[func]|](_ => Blank);
    assert funcCode[..] == Blanks(lens[func]);
    stopped, trace := GenerateFuncCodeDfs(func, colors, actions, 0, funcCode, generatedCode, shouldStopPredicate, lens);
  }

  /** `GenerateFuncCodeDfs`: for each action, then each colour, tries that
      slot at `depth`. Returns whether the predicate stopped the search;
      when it did not, the buffer is as it was. */
  method GenerateFuncCodeDfs(funcIndex: int, colors: seq<FieldColor>, actions: seq<ProgramAction>, depth: int,
                             funcCode: array<ProgramSlot>, generatedCode: array<seq<ProgramSlot>>,
                             shouldStopPredicate: Program -> bool, ghost lens: seq<int>)
    returns (stopped: bool, ghost trace: seq<Program>)
    requires Positive(lens) && Shaped(generatedCode, lens) && 0 <= funcIndex < |lens|
    requires funcCode.Length == lens[funcIndex] && 0 <= depth < funcCode.Length
    requires forall i :: depth <= i < funcCode.Length ==> funcCode[i] == Blank
    modifies funcCode, generatedCode
    ensures Shaped(generatedCode, lens) && generatedCode[..funcIndex] == old(generatedCode[..funcIndex])
    ensures stopped == Stops(Over(colors, actions, lens, funcIndex, old(generatedCode[..funcIndex]),
                                  old(funcCode[..]), depth, 0, 0), shouldStopPredicate)
    ensures trace == TakeThrough(Over(colors, actions, lens, funcIndex, old(generatedCode[..funcIndex]),
                                      old(funcCode[..]), depth, 0, 0), shouldStopPredicate)
    ensures !stopped ==> funcCode[..] == old(funcCode[..])
    decreases |lens| - funcIndex, 0, funcCode.Length - depth, 3
  {
    ghost var done := generatedCode[..funcIndex];
    ghost var code := funcCode[..];
    ghost var total := Over(colors, actions, lens, funcIndex, done, code, depth, 0, 0);
    ghost var before: seq<Program> := [];
    trace := [];

    for ai := 0 to |actions|
      invariant Shaped(generatedCode, lens) && generatedCode[..funcIndex] == done
      invariant funcCode[..] == code
      invariant total == before + Over(colors, actions, lens, funcIndex, done, code, depth, ai, 0)
      invariant trace == before && !Stops(before, shouldStopPredicate)
    {
      ghost var here := Row(colors, actions, lens, funcIndex, done, code, depth, ai, 0);
      ghost var rest := Over(colors, actions, lens, funcIndex, done, code, depth, ai + 1, 0);
      OverRow(colors, actions, lens, funcIndex, done, code, depth, ai, 0);
      var s, t := VisitColors(funcIndex, colors, actions, depth, ai, funcCode, generatedCode, shouldStopPredicate, lens);
      trace := trace + t;
      if s {
        ScanStops(before, here, rest, shouldStopPredicate);
        return true, trace;
      }
      ScanPasses(before, here, rest, shouldStopPredicate);
      before := before + here;
    }
    assert Over(colors, actions, lens, funcIndex, done, code, depth, |actions|, 0) == [];
    assert total == before;
    TakeThroughAll(before, shouldStopPredicate);
    return false, trace;
  }

  /** The inner loop of `GenerateFuncCodeDfs`: for the action `actions[ai]`,
      tries each colour in turn. */
  method VisitColors(funcIndex: int, colors: seq<FieldColor>, actions: seq<ProgramAction>, depth: int, ai: int,
                     funcCode: array<ProgramSlot>, generatedCode: array<seq<ProgramSlot>>,
                     shouldStopPredicate: Program -> bool, ghost lens: seq<int>)
    returns (stopped: bool, ghost trace: seq<Program>)
    requires Positive(lens) && Shaped(generatedCode, lens) && 0 <= funcIndex < |lens|
    requires funcCode.Length == lens[funcIndex] && 0 <= depth < funcCode.Length && 0 <= ai < |actions|
    requires forall i :: depth <= i < funcCode.Length ==> funcCode[i] == Blank
    modifies funcCode, generatedCode
    ensures Shaped(generatedCode, lens) && generatedCode[..funcIndex] == old(generatedCode[..funcIndex])
    ensures stopped == Stops(Row(colors, actions, lens, funcIndex, old(generatedCode[..funcIndex]),
                                 old(funcCode[..]), depth, ai, 0), shouldStopPredicate)
    ensures trace == TakeThrough(Row(colors, actions, lens, funcIndex, old(generatedCode[..funcIndex]),
                                     old(funcCode[..]), depth, ai, 0), shouldStopPredicate)
    ensures !stopped ==> funcCode[..] == old(funcCode[..])
    decreases |lens| - funcIndex, 0, funcCode.Length - depth, 2
  {
    ghost var done := generatedCode[..funcIndex];
    ghost var code := funcCode[..];
    ghost var total := Row(colors, actions, lens, funcIndex, done, code, depth, ai, 0);
    ghost var before: seq<Program> := [];
    trace := [];

    for ci := 0 to |colors|
      invariant Shaped(generatedCode, lens) && generatedCode[..funcIndex] == done
      invariant funcCode[..] == code
      invariant total == before + Row(colors, actions, lens, funcIndex, done, code, depth, ai, ci)
      invariant trace == before && !Stops(before, shouldStopPredicate)
    {
      ghost var here := Contribution(colors, actions, lens, funcIndex, done, code, depth,
                                     ProgramSlot(actions[ai], colors[ci]));
      ghost var rest := Row(colors, actions, lens, funcIndex, done, code, depth, ai, ci + 1);
      var s, t := VisitSlot(funcIndex, colors, actions, depth, actions[ai], colors[ci], funcCode, generatedCode,
                            shouldStopPredicate, lens);
      trace := trace + t;
      if s {
        ScanStops(before, here, rest, shouldStopPredicate);
        return true, trace;
      }
      ScanPasses(before, here, rest, shouldStopPredicate);
      before := before + here;
    }
    assert Row(colors, actions, lens, funcIndex, done, code, depth, ai, |colors|) == [];
    assert total == before;
    TakeThroughAll(before, shouldStopPredicate);
    return false, trace;
  }

  /** One pass of the inner loop of `GenerateFuncCodeDfs`, with the closure
      that stores a finished body and continues with the next function
      written out: unless the slot is pruned, writes it at `depth`, offers
      the body, then extends it at the next depth, and blanks the slot
      again. */
  method VisitSlot(funcIndex: int, colors: seq<FieldColor>, actions: seq<ProgramAction>, depth: int,
                   action: ProgramAction, color: FieldColor,
                   funcCode: array<ProgramSlot>, generatedCode: array<seq<ProgramSlot>>,
                   shouldStopPredicate: Program -> bool, ghost lens: seq<int>)
    returns (stopped: bool, ghost trace: seq<Program>)
    requires Positive(lens) && Shaped(generatedCode, lens) && 0 <= funcIndex < |lens|
    requires funcCode.Length == lens[funcIndex] && 0 <= depth < funcCode.Length
    requires forall i :: depth <= i < funcCode.Length ==> funcCode[i] == Blank
    modifies funcCode, generatedCode
    ensures Shaped(generatedCode, lens) && generatedCode[..funcIndex] == old(generatedCode[..funcIndex])
    ensures stopped == Stops(Contribution(colors, actions, lens, funcIndex, old(generatedCode[..funcIndex]),
                                          old(funcCode[..]), depth, ProgramSlot(action, color)), shouldStopPredicate)
    ensures trace == TakeThrough(Contribution(colors, actions, lens, funcIndex, old(generatedCode[..funcIndex]),
                                              old(funcCode[..]), depth, ProgramSlot(action, color)), shouldStopPredicate)
    ensures !stopped ==> funcCode[..] == old(funcCode[..])
    decreases |lens| - funcIndex, 0, funcCode.Length - depth, 1
  {
    ghost var done := generatedCode[..funcIndex];
    ghost var code := funcCode[..];
    ghost var slot := ProgramSlot(action, color);
    ghost var c2 := code[depth := slot];
    ghost var first := From(colors, actions, lens, funcIndex + 1, done + [c2]);
    ghost var deeper := Extensions(colors, actions, lens, funcIndex, done, c2, depth);
    ContributionCases(colors, actions, lens, funcIndex, done, code, depth, slot);
    var skip := SkipDueToOptimizations(funcCode, funcIndex, depth, action, color);
    if skip {
      TakeThroughEmpty(shouldStopPredicate);
      return false, [];
    }

    funcCode[depth] := ProgramSlot(action, color);
    assert funcCode[..] == c2;
    var s1, t1 := OfferBody(funcIndex, colors, actions, funcCode, generatedCode, shouldStopPredicate, lens);
    OfferThenExtend(first, deeper, shouldStopPredicate);
    if s1 {
      return true, t1;
    }
    var s2, t2 := ExtendSlot(funcIndex, colors, actions, depth, funcCode, generatedCode, shouldStopPredicate, lens);
    return s2, t1 + t2;
  }

  /** The rest of a pass of the inner loop of `GenerateFuncCodeDfs`, once
      the body ending with the slot at `depth` has been offered: unless the
      slot is empty or last, extends the body at the next depth; then blanks
      the slot again. */
  method ExtendSlot(funcIndex: int, colors: seq<FieldColor>, actions: seq<ProgramAction>, depth: int,
                    funcCode: array<ProgramSlot>, generatedCode: array<seq<ProgramSlot>>,
                    shouldStopPredicate: Program -> bool, ghost lens: seq<int>)
    returns (stopped: bool, ghost trace: seq<Program>)
    requires Positive(lens) && Shaped(generatedCode, lens) && 0 <= funcIndex < |lens|
    requires funcCode.Length == lens[funcIndex] && 0 <= depth < funcCode.Length
    requires forall i :: depth < i < funcCode.Length ==> funcCode[i] == Blank
    modifies funcCode, generatedCode
    ensures Shaped(generatedCode, lens) && generatedCode[..funcIndex] == old(generatedCode[..funcIndex])
    ensures stopped == Stops(Extensions(colors, actions, lens, funcIndex, old(generatedCode[..funcIndex]),
                                        old(funcCode[..]), depth), shouldStopPredicate)
    ensures trace == TakeThrough(Extensions(colors, actions, lens, funcIndex, old(generatedCode[..funcIndex]),
                                            old(funcCode[..]), depth), shouldStopPredicate)
    ensures !stopped ==> funcCode[..] == old(funcCode[..])[depth := Blank]
    decreases |lens| - funcIndex, 0, funcCode.Length - depth, 0
  {
    if funcCode[depth].action != ProgramAction.None && depth < funcCode.Length - 1 {
      stopped, trace := GenerateFuncCodeDfs(funcIndex, colors, actions, depth + 1, funcCode, generatedCode,
                                            shouldStopPredicate, lens);
      if stopped {
        return;
      }
    } else {
      TakeThroughEmpty(shouldStopPredicate);
      stopped, trace := false, [];
    }
    funcCode[depth] := Blank;
  }

  /** The predicate `GenerateProgramsDfs` hands to `GenerateFuncCodeDfs`:
      a copy of the body is stored as the function's code, and the search
      goes on with the next function. */
  method OfferBody(funcIndex: int, colors: seq<FieldColor>, actions: seq<ProgramAction>,
                   funcCode: array<ProgramSlot>, generatedCode: array<seq<ProgramSlot>>,
                   shouldStopPredicate: Program -> bool, ghost lens: seq<int>)
    returns (stopped: bool, ghost trace: seq<Program>)
    requires Positive(lens) && Shaped(generatedCode, lens) && 0 <= funcIndex < |lens|
    requires funcCode.Length == lens[funcIndex]
    modifies generatedCode
    ensures Shaped(generatedCode, lens) && generatedCode[..funcIndex] == old(generatedCode[..funcIndex])
    ensures stopped == Stops(From(colors, actions, lens, funcIndex + 1, old(generatedCode[..funcIndex]) + [funcCode[..]]),
                             shouldStopPredicate)
    ensures trace == TakeThrough(From(colors, actions, lens, funcIndex + 1, old(generatedCode[..funcIndex]) + [funcCode[..]]),
                                 shouldStopPredicate)
    decreases |lens| - funcIndex, 0, 0, 0
  {
    generatedCode[funcIndex] := funcCode[..];
    assert generatedCode[..funcIndex + 1] == old(generatedCode[..funcIndex]) + [funcCode[..]];
    stopped, trace := GenerateProgramsDfs(colors, actions, funcIndex + 1, generatedCode, shouldStopPredicate, lens);
    assert generatedCode[..funcIndex] == generatedCode[..funcIndex + 1][..funcIndex];
  }

  // ---------------------------------------------------------------------
  // What the offered programs look like

  /** The first `k` slots hold actions and the rest are blank. */
  ghost predicate Filled(body: seq<ProgramSlot>, k: int) {
    0 <= k <= |body| &&
    (forall i :: 0 <= i < k ==> body[i].action != ProgramAction.None) &&
    (forall i :: k <= i < |body| ==> body[i] == Blank)
  }

  /** A non-empty run of written slots followed by blanks. */
  ghost predicate FilledPrefix(body: seq<ProgramSlot>) {
    exists k :: 1 <= k <= |body| && Filled(body, k)
  }

  /** No rotation directly undoes the one before it. */
  ghost predicate NoOppositeTurns(body: seq<ProgramSlot>) {
    forall i :: 0 < i < |body| ==> !Opposite(body[i - 1], body[i])
  }

  /** No Left directly repeats the same guarded Left, and no Right is the
      third of a run of the same guarded Right. */
  ghost predicate TurnRunsCapped(body: seq<ProgramSlot>) {
    (forall i :: 0 < i < |body| && body[i].action == ProgramAction.Left ==> body[i - 1] != body[i]) &&
    (forall i :: 1 < i < |body| && body[i].action == ProgramAction.Right ==>
                 body[i - 2] != body[i] || body[i - 1] != body[i])
  }

  /** The first slot of function `f` does not call `f`. */
  ghost predicate NoImmediateSelfCall(f: int, body: seq<ProgramSlot>) {
    |body| > 0 ==> !(body[0].action.IsCall() && body[0].action.Target() == f)
  }

  /** Every written slot combines an offered action and an offered colour. */
  ghost predicate Drawn(body: seq<ProgramSlot>, actions: seq<ProgramAction>, colors: seq<FieldColor>) {
    forall i :: 0 <= i < |body| ==> body[i] == Blank || (body[i].action in actions && body[i].color in colors)
  }

  /** A buffer at `depth`, before the slot is written: its first `depth`
      slots obey the pruning rules and the rest are blank. */
  ghost predicate Partial(f: int, body: seq<ProgramSlot>, depth: int, actions: seq<ProgramAction>, colors: seq<FieldColor>) {
    Filled(body, depth) && NoOppositeTurns(body) && TurnRunsCapped(body) && NoImmediateSelfCall(f, body) &&
    Drawn(body, actions, colors)
  }

  /** A body of function `f` the generator can produce: a non-empty run of
      written slots, then blanks, obeying every pruning rule. */
  ghost predicate Emittable(f: int, body: seq<ProgramSlot>, actions: seq<ProgramAction>, colors: seq<FieldColor>) {
    FilledPrefix(body) && NoOppositeTurns(body) && TurnRunsCapped(body) && NoImmediateSelfCall(f, body) && Drawn(body, actions, colors)
  }

  /** A complete program the generator can offer. */
  ghost predicate WellFormed(p: Program, lens: seq<int>, actions: seq<ProgramAction>, colors: seq<FieldColor>) {
    HasForward(p.code) && |p.code| == |lens| &&
    forall f :: 0 <= f < |lens| ==> |p.code[f]| == lens[f] && Emittable(f, p.code[f], actions, colors)
  }

  /** Writing a slot that is not pruned after a partial body keeps every
      pruning rule and makes the body one slot longer. */
  lemma ExtendPartial(f: int, code: seq<ProgramSlot>, depth: int, s: ProgramSlot,
                      actions: seq<ProgramAction>, colors: seq<FieldColor>)
    requires 0 <= depth < |code| && Partial(f, code, depth, actions, colors)
    requires s.action != ProgramAction.None && s.action in actions && s.color in colors
    requires !Skipped(code, f, depth, s)
    ensures Partial(f, code[depth := s], depth + 1, actions, colors)
  {
    var c2 := code[depth := s];
    if depth > 1 && s.action == ProgramAction.Right && c2[depth - 1] == s {
      assert SameRun(code, depth - 1, s) == 1 + SameRun(code, depth - 2, s);
    }
    forall i | 0 < i < |c2| ensures !Opposite(c2[i - 1], c2[i]) {
      if i != depth && i != depth + 1 {
        assert c2[i - 1] == code[i - 1] && c2[i] == code[i];
      }
    }
  }

  lemma {:induction false} FromWellFormed(colors: seq<FieldColor>, actions: seq<ProgramAction>, lens: seq<int>,
                                          func: nat, done: seq<seq<ProgramSlot>>)
    requires Positive(lens) && func <= |lens| && |done| == func && ProgramAction.None !in actions
    requires forall g :: 0 <= g < func ==> |done[g]| == lens[g] && Emittable(g, done[g], actions, colors)
    ensures forall p :: p in From(colors, actions, lens, func, done) ==> WellFormed(p, lens, actions, colors)
    decreases |lens| - func, 1, 0, 0, 0
  {
    if func < |lens| {
      OverWellFormed(colors, actions, lens, func, done, Blanks(lens[func]), 0, 0, 0);
    }
  }

  lemma {:induction false} OverWellFormed(colors: seq<FieldColor>, actions: seq<ProgramAction>, lens: seq<int>,
                                          func: nat, done: seq<seq<ProgramSlot>>, code: seq<ProgramSlot>,
                                          depth: nat, ai: nat, ci: nat)
    requires Positive(lens) && func < |lens| && |done| == func && ProgramAction.None !in actions
    requires forall g :: 0 <= g < func ==> |done[g]| == lens[g] && Emittable(g, done[g], actions, colors)
    requires |code| == lens[func] && depth < |code| && ai <= |actions| && ci <= |colors|
    requires Partial(func, code, depth, actions, colors)
    ensures forall p :: p in Over(colors, actions, lens, func, done, code, depth, ai, ci) ==>
                        WellFormed(p, lens, actions, colors)
    decreases |lens| - func, 0, |code| - depth, |actions| - ai, |colors| - ci
  {
    if ai < |actions| {
      if ci == |colors| {
        OverWellFormed(colors, actions, lens, func, done, code, depth, ai + 1, 0);
      } else {
        ContributionWellFormed(colors, actions, lens, func, done, code, depth, ProgramSlot(actions[ai], colors[ci]));
        OverWellFormed(colors, actions, lens, func, done, code, depth, ai, ci + 1);
      }
    }
  }

  lemma {:induction false} ContributionWellFormed(colors: seq<FieldColor>, actions: seq<ProgramAction>, lens: seq<int>,
                                                  func: nat, done: seq<seq<ProgramSlot>>, code: seq<ProgramSlot>,
                                                  depth: nat, s: ProgramSlot)
    requires Positive(lens) && func < |lens| && |done| == func && ProgramAction.None !in actions
    requires forall g :: 0 <= g < func ==> |done[g]| == lens[g] && Emittable(g, done[g], actions, colors)
    requires |code| == lens[func] && depth < |code| && s.action in actions && s.color in colors
    requires Partial(func, code, depth, actions, colors)
    ensures forall p :: p in Contribution(colors, actions, lens, func, done, code, depth, s) ==>
                        WellFormed(p, lens, actions, colors)
    decreases |lens| - func, 0, |code| - depth, 0, 0
  {
    if !Skipped(code, func, depth, s) {
      var c2 := code[depth := s];
      ExtendPartial(func, code, depth, s, actions, colors);
      assert Filled(c2, depth + 1);
      var done2 := done + [c2];
      forall g | 0 <= g < func + 1 ensures |done2[g]| == lens[g] && Emittable(g, done2[g], actions, colors) {
        if g < func {
          assert done2[g] == done[g];
        }
      }
      FromWellFormed(colors, actions, lens, func + 1, done2);
      if depth < |code| - 1 {
        OverWellFormed(colors, actions, lens, func, done, c2, depth + 1, 0, 0);
      }
    }
  }

  /** Every program the generator offers has a Forward, has the configured
      shape, can be run without an index fault (its calls name configured
      functions), and each of its functions is a non-empty run of offered
      slots followed by blanks that obeys every pruning rule. */
  lemma CandidatesWellFormed(useRed: bool, useGreen: bool, useBlue: bool, lens: seq<int>, p: Program)
    requires ValidSlotCounts(lens) && p in Candidates(useRed, useGreen, useBlue, lens)
    ensures HasForward(p.code) && Runnable(p)
    ensures |p.code| == |lens| && forall f :: 0 <= f < |lens| ==> |p.code[f]| == lens[f]
    ensures forall f :: 0 <= f < |lens| ==>
              NoOppositeTurns(p.code[f]) && TurnRunsCapped(p.code[f]) && NoImmediateSelfCall(f, p.code[f])
    ensures forall f :: 0 <= f < |lens| ==> FilledPrefix(p.code[f])
    ensures forall f :: 0 <= f < |lens| ==> Drawn(p.code[f], AvailableActions(|lens|), AvailableColors(useRed, useGreen, useBlue))
  {
    var actions, colors := AvailableActions(|lens|), AvailableColors(useRed, useGreen, useBlue);
    FromWellFormed(colors, actions, lens, 0, []);
    assert WellFormed(p, lens, actions, colors);
    CallsConfigured(p, lens, colors);
  }

  /** Slots drawn from the action list of `|lens|` functions call only
      those functions. */
  lemma CallsConfigured(p: Program, lens: seq<int>, colors: seq<FieldColor>)
    requires |lens| <= 5 && |p.code| == |lens| && HasForward(p.code)
    requires forall f :: 0 <= f < |lens| ==> Drawn(p.code[f], AvailableActions(|lens|), colors)
    ensures Runnable(p)
  {
    var actions := AvailableActions(|lens|);
    forall f, i | 0 <= f < |p.code| && 0 <= i < |p.code[f]| && p.code[f][i].action.IsCall()
      ensures p.code[f][i].action.Target() < |p.code|
    {
      assert p.code[f][i] != Blank;
      var j :| 0 <= j < |actions| && actions[j] == p.code[f][i].action;
    }
  }

  /** The search asks the predicate about the candidates in order, up to the
      first that stops it; each program asked is a candidate. */
  lemma AskedInOrder(useRed: bool, useGreen: bool, useBlue: bool, lens: seq<int>, stop: Program -> bool)
    requires ValidSlotCounts(lens)
    ensures var c, asked := Candidates(useRed, useGreen, useBlue, lens),
                            TakeThrough(Candidates(useRed, useGreen, useBlue, lens), stop);
            asked <= c &&
            ((exists i :: 0 <= i < |c| && stop(c[i])) ==>
               |asked| > 0 && stop(asked[|asked| - 1]) && forall i :: 0 <= i < |asked| - 1 ==> !stop(asked[i])) &&
            ((forall i :: 0 <= i < |c| ==> !stop(c[i])) ==> asked == c)
  {
    var c := Candidates(useRed, useGreen, useBlue, lens);
    TakeThroughPrefix(c, stop);
    StopsExists(c, stop);
  }
}
