// The chromosome of the genetic solver: a flat array of program slots with
// random generation, one-slot mutation and two-point crossover. The random
// numbers the operators draw are passed in as arguments, each within the
// range the random generator promises for its call.
module Chromosomes {
  import opened Instructions

  /** `random.Next(funcCount + 4)` read as an action: 0 is None, 1 Left,
      2 Right, 3 Forward, and 4 + k a call of function k. */
  function ActionForDraw(draw: int): (a: ProgramAction)
    requires 0 <= draw < 9
    ensures a == ProgramAction.None <==> draw == 0
    ensures a == ProgramAction.Left <==> draw == 1
    ensures a == ProgramAction.Right <==> draw == 2
    ensures a == ProgramAction.Forward <==> draw == 3
    ensures a.IsCall() <==> draw >= 4
    ensures a.IsCall() ==> a.Target() == draw - 4
  {
    match draw
    case 0 => ProgramAction.None
    case 1 => ProgramAction.Left
    case 2 => ProgramAction.Right
    case 3 => ProgramAction.Forward
    case 4 => ProgramAction.F1
    case 5 => ProgramAction.F2
    case 6 => ProgramAction.F3
    case 7 => ProgramAction.F4
    case _ => ProgramAction.F5
  }

  /** The draw that yields an action. */
  function DrawForAction(a: ProgramAction): (draw: int)
    ensures 0 <= draw < 9
  {
    match a
    case None => 0
    case Left => 1
    case Right => 2
    case Forward => 3
    case F1 => 4
    case F2 => 5
    case F3 => 6
    case F4 => 7
    case F5 => 8
  }

  /** An action the generator can produce for `funcCount` functions. */
  predicate AdmissibleAction(a: ProgramAction, funcCount: int) {
    a.IsCall() ==> a.Target() < funcCount
  }

  /** The draws 0 .. funcCount + 3 and the admissible actions correspond
      one to one. */
  lemma ActionDrawsBijective(funcCount: int, draw: int, a: ProgramAction)
    requires 1 <= funcCount <= 5
    ensures 0 <= draw < funcCount + 4 ==>
              (AdmissibleAction(ActionForDraw(draw), funcCount) && DrawForAction(ActionForDraw(draw)) == draw)
    ensures AdmissibleAction(a, funcCount) ==>
              (DrawForAction(a) < funcCount + 4 && ActionForDraw(DrawForAction(a)) == a)
  {
  }

  /** `random.Next(4)` read as a colour. */
  function ColorForDraw(draw: int): (c: FieldColor)
    requires 0 <= draw < 4
  {
    [FieldColor.None, FieldColor.Red, FieldColor.Green, FieldColor.Blue][draw]
  }

  /** The loop condition of `GenerateRandomColor` is false: a colour has
      been drawn, and it is None or an enabled paint. */
  predicate Accepted(color: int, useRed: bool, useGreen: bool, useBlue: bool) {
    !(color == -1 || (color == 1 && !useRed) || (color == 2 && !useGreen) || (color == 3 && !useBlue))
  }

  /** A colour the generator can produce: None or an enabled paint. */
  predicate EnabledColor(c: FieldColor, useRed: bool, useGreen: bool, useBlue: bool) {
    c == FieldColor.None || (c == FieldColor.Red && useRed) ||
    (c == FieldColor.Green && useGreen) || (c == FieldColor.Blue && useBlue)
  }

  /** Draws of `random.Next(4)` among which the rejection loop finds one it
      accepts. */
  predicate ColorDrawsOk(draws: seq<int>, useRed: bool, useGreen: bool, useBlue: bool) {
    (forall i :: 0 <= i < |draws| ==> 0 <= draws[i] < 4) &&
    exists i :: 0 <= i < |draws| && Accepted(draws[i], useRed, useGreen, useBlue)
  }

  /** The index of the first accepted draw. */
  function FirstAccepted(draws: seq<int>, useRed: bool, useGreen: bool, useBlue: bool): (k: nat)
    requires exists i :: 0 <= i < |draws| && Accepted(draws[i], useRed, useGreen, useBlue)
    ensures k < |draws| && Accepted(draws[k], useRed, useGreen, useBlue)
    ensures forall j :: 0 <= j < k ==> !Accepted(draws[j], useRed, useGreen, useBlue)
  {
    if Accepted(draws[0], useRed, useGreen, useBlue) then 0
    else
      var i :| 0 <= i < |draws| && Accepted(draws[i], useRed, useGreen, useBlue);
      assert Accepted(draws[1..][i - 1], useRed, useGreen, useBlue);
      1 + FirstAccepted(draws[1..], useRed, useGreen, useBlue)
  }

  /** The colour the rejection loop returns: that of the first accepted
      draw. */
  function DrawnColor(draws: seq<int>, useRed: bool, useGreen: bool, useBlue: bool): (c: FieldColor)
    requires ColorDrawsOk(draws, useRed, useGreen, useBlue)
    ensures EnabledColor(c, useRed, useGreen, useBlue)
  {
    ColorForDraw(draws[FirstAccepted(draws, useRed, useGreen, useBlue)])
  }

  /** `Mutate` on slot contents: slot `pos` gets a new colour or a new
      action. */
  function Mutation(slots: seq<ProgramSlot>, pos: int, mutateColor: bool,
                    action: ProgramAction, color: FieldColor): seq<ProgramSlot>
    requires 0 <= pos < |slots|
  {
    slots[pos := if mutateColor then slots[pos].(color := color) else slots[pos].(action := action)]
  }

  /** A mutation changes one field of one slot: the length and every other
      slot stay, and the mutated slot keeps its action when the colour is
      redrawn and its colour when the action is redrawn. */
  lemma MutationChangesOneField(slots: seq<ProgramSlot>, pos: int, mutateColor: bool,
                                action: ProgramAction, color: FieldColor)
    requires 0 <= pos < |slots|
    ensures var m := Mutation(slots, pos, mutateColor, action, color);
            |m| == |slots| && (forall i :: 0 <= i < |slots| && i != pos ==> m[i] == slots[i]) &&
            (mutateColor ==> m[pos] == ProgramSlot(slots[pos].action, color)) &&
            (!mutateColor ==> m[pos] == ProgramSlot(action, slots[pos].color))
  {
  }

  /** `Crossover` on slot contents: the two sequences trade their slots
      `lo` to `hi`. */
  function Swapped(a: seq<ProgramSlot>, b: seq<ProgramSlot>, lo: int, hi: int): (r: (seq<ProgramSlot>, seq<ProgramSlot>))
    requires 0 <= lo <= hi < |a| && hi < |b|
    ensures |r.0| == |a| && |r.1| == |b|
    ensures forall i :: 0 <= i < |a| ==> r.0[i] == if lo <= i <= hi then b[i] else a[i]
    ensures forall i :: 0 <= i < |b| ==> r.1[i] == if lo <= i <= hi then a[i] else b[i]
  {
    (a[..lo] + b[lo..hi + 1] + a[hi + 1..], b[..lo] + a[lo..hi + 1] + b[hi + 1..])
  }

  /** A second crossover at the same two positions trades the slots back. */
  lemma SwappedTwiceRestores(a: seq<ProgramSlot>, b: seq<ProgramSlot>, lo: int, hi: int)
    requires 0 <= lo <= hi < |a| && hi < |b|
    ensures var r := Swapped(a, b, lo, hi); Swapped(r.0, r.1, lo, hi) == (a, b)
  {
    var r := Swapped(a, b, lo, hi);
    var s := Swapped(r.0, r.1, lo, hi);
    assert s.0 == a;
    assert s.1 == b;
  }

  /** Trading slots keeps every slot admissible when both sides were. */
  lemma SwappedKeepsAdmissible(a: seq<ProgramSlot>, b: seq<ProgramSlot>, lo: int, hi: int, funcCount: int,
                               useRed: bool, useGreen: bool, useBlue: bool)
    requires 0 <= lo <= hi < |a| && hi < |b|
    requires forall i :: 0 <= i < |a| ==> AdmissibleSlot(a[i], funcCount, useRed, useGreen, useBlue)
    requires forall i :: 0 <= i < |b| ==> AdmissibleSlot(b[i], funcCount, useRed, useGreen, useBlue)
    ensures var r := Swapped(a, b, lo, hi);
            (forall i :: 0 <= i < |r.0| ==> AdmissibleSlot(r.0[i], funcCount, useRed, useGreen, useBlue)) &&
            (forall i :: 0 <= i < |r.1| ==> AdmissibleSlot(r.1[i], funcCount, useRed, useGreen, useBlue))
  {
  }

  /** A slot the genetic operators can produce. */
  predicate AdmissibleSlot(s: ProgramSlot, funcCount: int, useRed: bool, useGreen: bool, useBlue: bool) {
    AdmissibleAction(s.action, funcCount) && EnabledColor(s.color, useRed, useGreen, useBlue)
  }

  class ProgramChromosome {
    const slotCount: int
    const funcCount: int
    const useRed: bool
    const useGreen: bool
    const useBlue: bool
    const program: array<ProgramSlot>

    /** The checked constructor arguments and the slot array of their
        length. */
    ghost predicate Valid()
      reads this
    {
      slotCount > 0 && 1 <= funcCount <= 5 && program.Length == slotCount
    }

    /** Every slot is one the operators can produce. */
    ghost predicate Admissible()
      reads this, program
    {
      forall i :: 0 <= i < program.Length ==> AdmissibleSlot(program[i], funcCount, useRed, useGreen, useBlue)
    }

    /** Draws for `Generate`: one action draw and one run of colour draws
        per slot. */
    ghost predicate GenerateDrawsOk(actionDraws: seq<int>, colorDraws: seq<seq<int>>)
      reads this
    {
      |actionDraws| == slotCount && |colorDraws| == slotCount &&
      (forall i :: 0 <= i < slotCount ==> 0 <= actionDraws[i] < funcCount + 4) &&
      (forall i :: 0 <= i < slotCount ==> ColorDrawsOk(colorDraws[i], useRed, useGreen, useBlue))
    }

    /** The slot `Generate` writes for one action draw and one run of colour
        draws. */
    ghost function GeneratedSlot(actionDraw: int, colorDraws: seq<int>): ProgramSlot
      reads this
      requires Valid() && 0 <= actionDraw < funcCount + 4 && ColorDrawsOk(colorDraws, useRed, useGreen, useBlue)
    {
      ProgramSlot(ActionForDraw(actionDraw), DrawnColor(colorDraws, useRed, useGreen, useBlue))
    }

    /** `ProgramChromosome(...)`: stores the parameters, allocates the slot
        array and fills it with `Generate`. */
    constructor(slotCount: int, funcCount: int, useRed: bool, useGreen: bool, useBlue: bool,
                actionDraws: seq<int>, colorDraws: seq<seq<int>>)
      requires slotCount > 0 && 0 < funcCount <= 5
      requires |actionDraws| == slotCount && |colorDraws| == slotCount
      requires forall i :: 0 <= i < slotCount ==> 0 <= actionDraws[i] < funcCount + 4
      requires forall i :: 0 <= i < slotCount ==> ColorDrawsOk(colorDraws[i], useRed, useGreen, useBlue)
      ensures Valid() && Admissible() && fresh(program)
      ensures this.slotCount == slotCount && this.funcCount == funcCount
      ensures this.useRed == useRed && this.useGreen == useGreen && this.useBlue == useBlue
      ensures forall i :: 0 <= i < slotCount ==> program[i] == GeneratedSlot(actionDraws[i], colorDraws[i])
    {
      this.slotCount := slotCount;
      this.funcCount := funcCount;
      this.useRed := useRed;
      this.useGreen := useGreen;
      this.useBlue := useBlue;
      this.program := new ProgramSlot[slotCount](_ => Blank);
      new;
      Generate(actionDraws, colorDraws);
    }

    /** `SlotCount`. */
    function SlotCount(): (n: int)
      reads this
      requires Valid()
      ensures n == program.Length && n > 0
    {
      slotCount
    }

    /** `GetSlot`. */
    function GetSlot(index: int): (s: ProgramSlot)
      reads this, program
      requires Valid() && 0 <= index < slotCount
      ensures s == program[..][index]
    {
      program[index]
    }

    /** `Generate`: draws an action and a colour for every slot in turn. */
    method Generate(actionDraws: seq<int>, colorDraws: seq<seq<int>>)
      requires Valid() && GenerateDrawsOk(actionDraws, colorDraws)
      modifies program
      ensures Admissible()
      ensures forall i :: 0 <= i < slotCount ==> program[i] == GeneratedSlot(actionDraws[i], colorDraws[i])
    {
      for i := 0 to slotCount
        invariant forall k :: 0 <= k < i ==> program[k] == GeneratedSlot(actionDraws[k], colorDraws[k])
      {
        var action := GenerateRandomAction(actionDraws[i]);
        var color := GenerateRandomColor(colorDraws[i]);
        program[i] := program[i].(action := action);
        program[i] := program[i].(color := color);
      }
    }

    /** `GenerateRandomColor`: draws until the colour is None or an enabled
        paint. */
    method GenerateRandomColor(draws: seq<int>) returns (c: FieldColor)
      requires ColorDrawsOk(draws, useRed, useGreen, useBlue)
      ensures c == DrawnColor(draws, useRed, useGreen, useBlue)
      ensures EnabledColor(c, useRed, useGreen, useBlue)
    {
      ghost var first := FirstAccepted(draws, useRed, useGreen, useBlue);
      var color := -1;
      var next := 0;
      while color == -1 || (color == 1 && !useRed) || (color == 2 && !useGreen) || (color == 3 && !useBlue)
        invariant 0 <= next <= first + 1
        invariant next == 0 ==> color == -1
        invariant next > 0 ==> color == draws[next - 1]
        decreases first + 1 - next
      {
        color := draws[next];
        next := next + 1;
      }

      match color
      case 0 => return FieldColor.None;
      case 1 => return FieldColor.Red;
      case 2 => return FieldColor.Green;
      case 3 => return FieldColor.Blue;
    }

    /** `GenerateRandomAction`: one of None, Left, Right, Forward and the
        calls of the configured functions. */
    function GenerateRandomAction(draw: int): (a: ProgramAction)
      reads this
      requires Valid() && 0 <= draw < funcCount + 4
      ensures AdmissibleAction(a, funcCount)
      ensures a == ActionForDraw(draw)
    {
      ActionForDraw(draw)
    }

    /** `Clone`: a new chromosome of the same parameters (whose own
        generation draws are discarded), given this one's slots. */
    method Clone(actionDraws: seq<int>, colorDraws: seq<seq<int>>) returns (c: ProgramChromosome)
      requires Valid() && GenerateDrawsOk(actionDraws, colorDraws)
      ensures fresh(c) && fresh(c.program) && c.Valid() && (Admissible() ==> c.Admissible())
      ensures c.slotCount == slotCount && c.funcCount == funcCount
      ensures c.useRed == useRed && c.useGreen == useGreen && c.useBlue == useBlue
      ensures c.program[..] == program[..]
    {
      c := new ProgramChromosome(slotCount, funcCount, useRed, useGreen, useBlue, actionDraws, colorDraws);
      for i := 0 to slotCount
        invariant c.program[..i] == program[..i]
        invariant Admissible() ==> c.Admissible()
      {
        c.program[i] := program[i];
      }
    }

    /** `Mutate`: with `coin` 0 redraws the colour of slot `pos`, otherwise
        its action; nothing else changes. */
    method Mutate(coin: int, pos: int, actionDraw: int, colorDraws: seq<int>)
      requires Valid() && 0 <= coin < 2 && 0 <= pos < slotCount
      requires coin == 0 ==> ColorDrawsOk(colorDraws, useRed, useGreen, useBlue)
      requires coin != 0 ==> 0 <= actionDraw < funcCount + 4
      modifies program
      ensures coin == 0 ==> program[..] == Mutation(old(program[..]), pos, true, ProgramAction.None,
                                                      DrawnColor(colorDraws, useRed, useGreen, useBlue))
      ensures coin != 0 ==> program[..] == Mutation(old(program[..]), pos, false, ActionForDraw(actionDraw),
                                                      FieldColor.None)
      ensures old(Admissible()) ==> Admissible()
    {
      var mutateColor := coin == 0;
      var randomPos := pos;
      if mutateColor {
        var color := GenerateRandomColor(colorDraws);
        program[randomPos] := program[randomPos].(color := color);
      } else {
        var action := GenerateRandomAction(actionDraw);
        program[randomPos] := program[randomPos].(action := action);
      }
    }

    /** `Crossover`: this chromosome and `pair` trade their slots between
        the two drawn positions, both included. */
    method Crossover(pair: ProgramChromosome, draw1: int, draw2: int)
      requires Valid() && 0 <= draw1 < slotCount && 0 <= draw2 < slotCount
      requires draw1 < pair.program.Length && draw2 < pair.program.Length
      modifies program, pair.program
      ensures var lo, hi := if draw1 <= draw2 then draw1 else draw2, if draw1 <= draw2 then draw2 else draw1;
              (program[..], pair.program[..]) == Swapped(old(program[..]), old(pair.program[..]), lo, hi)
      ensures old(Admissible()) && old(pair.Admissible()) && pair.funcCount == funcCount &&
              pair.useRed == useRed && pair.useGreen == useGreen && pair.useBlue == useBlue ==>
                Admissible() && pair.Admissible()
    {
      var lo := if draw1 <= draw2 then draw1 else draw2;
      var hi := if draw1 <= draw2 then draw2 else draw1;
      for i := lo to hi + 1
        invariant forall k :: lo <= k < i ==> program[k] == old(pair.program[k]) && pair.program[k] == old(program[k])
        invariant forall k :: 0 <= k < program.Length && !(lo <= k < i) ==> program[k] == old(program[k])
        invariant forall k :: 0 <= k < pair.program.Length && !(lo <= k < i) ==> pair.program[k] == old(pair.program[k])
      {
        var temp := pair.program[i];
        pair.program[i] := program[i];
        program[i] := temp;
      }
      ghost var r := Swapped(old(program[..]), old(pair.program[..]), lo, hi);
      assert program[..] == r.0;
      assert pair.program[..] == r.1;
      if old(Admissible()) && old(pair.Admissible()) && pair.funcCount == funcCount &&
         pair.useRed == useRed && pair.useGreen == useGreen && pair.useBlue == useBlue {
        SwappedKeepsAdmissible(old(program[..]), old(pair.program[..]), lo, hi, funcCount, useRed, useGreen, useBlue);
      }
    }
  }
}
