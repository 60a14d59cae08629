// The fitness function of the genetic solver: it cuts a chromosome's flat
// slot array into the puzzle's functions and scores the resulting program
// by the stars it eats, plus one.
module Fitness {
  import opened Instructions
  import opened Programs
  import opened Chromosomes

  /** `Sum` over the function lengths. */
  function Sum(s: seq<int>): int {
    if s == [] then 0 else s[0] + Sum(s[1..])
  }

  /** Function lengths that can be allocated. */
  predicate NonNegative(lens: seq<int>) {
    forall i :: 0 <= i < |lens| ==> lens[i] >= 0
  }

  /** The function bodies: consecutive pieces of `flat` of the given
      lengths, the first piece first. */
  function Slice(flat: seq<ProgramSlot>, lens: seq<int>): (code: seq<seq<ProgramSlot>>)
    requires NonNegative(lens) && Sum(lens) <= |flat|
    ensures |code| == |lens|
    ensures forall i :: 0 <= i < |lens| ==> |code[i]| == lens[i]
  {
    if lens == [] then []
    else
      assert Sum(lens[1..]) <= |flat[lens[0]..]| by { SumNonNegative(lens[1..]); }
      [flat[..lens[0]]] + Slice(flat[lens[0]..], lens[1..])
  }

  /** The function bodies laid end to end. */
  function Flatten(code: seq<seq<ProgramSlot>>): seq<ProgramSlot> {
    if code == [] then [] else code[0] + Flatten(code[1..])
  }

  lemma SumNonNegative(lens: seq<int>)
    requires NonNegative(lens)
    ensures Sum(lens) >= 0
  {
  }

  lemma SumAppend(a: seq<int>, b: seq<int>)
    ensures Sum(a + b) == Sum(a) + Sum(b)
  {
    if a == [] {
      assert a + b == b;
    } else {
      assert (a + b)[1..] == a[1..] + b;
      SumAppend(a[1..], b);
    }
  }

  /** The slots before function `i` and function `i` itself lie within
      the total. */
  lemma PrefixSum(lens: seq<int>, i: int)
    requires NonNegative(lens) && 0 <= i < |lens|
    ensures 0 <= Sum(lens[..i]) && Sum(lens[..i]) + lens[i] <= Sum(lens)
  {
    assert lens == lens[..i] + lens[i..];
    SumAppend(lens[..i], lens[i..]);
    SumNonNegative(lens[..i]);
    SumNonNegative(lens[i + 1..]);
    assert lens[i..][1..] == lens[i + 1..];
  }

  /** The running total over one more length. */
  lemma SumStep(lens: seq<int>, i: int)
    requires 0 <= i < |lens|
    ensures Sum(lens[..i + 1]) == Sum(lens[..i]) + lens[i]
  {
    assert lens[..i + 1] == lens[..i] + [lens[i]];
    SumAppend(lens[..i], [lens[i]]);
  }

  /** Function `i` of the sliced program is the piece of `flat` starting
      after the lengths of functions 0 .. i-1. */
  lemma {:induction false} SliceRow(flat: seq<ProgramSlot>, lens: seq<int>, i: int)
    requires NonNegative(lens) && Sum(lens) <= |flat| && 0 <= i < |lens|
    ensures 0 <= Sum(lens[..i]) && Sum(lens[..i]) + lens[i] <= Sum(lens)
    ensures Slice(flat, lens)[i] == flat[Sum(lens[..i])..Sum(lens[..i]) + lens[i]]
  {
    PrefixSum(lens, i);
    SumNonNegative(lens[1..]);
    if i > 0 {
      assert lens[..i][1..] == lens[1..][..i - 1];
      SliceRow(flat[lens[0]..], lens[1..], i - 1);
    }
  }

  /** Laying the sliced functions end to end gives the chromosome back:
      every slot is read once, in order. */
  lemma {:induction false} FlattenSlice(flat: seq<ProgramSlot>, lens: seq<int>)
    requires NonNegative(lens) && Sum(lens) == |flat|
    ensures Flatten(Slice(flat, lens)) == flat
  {
    if lens != [] {
      SumNonNegative(lens[1..]);
      FlattenSlice(flat[lens[0]..], lens[1..]);
      assert flat == flat[..lens[0]] + flat[lens[0]..];
    }
  }

  /** Slicing a program's bodies laid end to end gives the bodies back. */
  lemma {:induction false} SliceFlatten(code: seq<seq<ProgramSlot>>, lens: seq<int>)
    requires |lens| == |code| && forall i :: 0 <= i < |code| ==> lens[i] == |code[i]|
    ensures NonNegative(lens) && Sum(lens) == |Flatten(code)|
    ensures Slice(Flatten(code), lens) == code
  {
    if code != [] {
      SliceFlatten(code[1..], lens[1..]);
      var flat := Flatten(code);
      assert flat[..lens[0]] == code[0];
      assert flat[lens[0]..] == Flatten(code[1..]);
    }
  }

  class ProgramFitnessFunction {
    /** `puzzle.TrySolveWith`: the number of stars the program eats. */
    const trySolve: Program -> int
    const funcSlotCount: seq<int>
    const totalSlots: int

    /** The function lengths and their stored total. */
    ghost predicate Valid()
      reads this
    {
      |funcSlotCount| > 0 && NonNegative(funcSlotCount) && totalSlots == Sum(funcSlotCount)
    }

    /** `ProgramFitnessFunction(puzzle, funcSlotCount)`: stores the lengths
        and their sum. */
    constructor(trySolve: Program -> int, funcSlotCount: seq<int>)
      requires |funcSlotCount| > 0 && NonNegative(funcSlotCount)
      ensures Valid()
      ensures this.trySolve == trySolve && this.funcSlotCount == funcSlotCount
    {
      this.trySolve := trySolve;
      this.funcSlotCount := funcSlotCount;
      this.totalSlots := Sum(funcSlotCount);
    }

    /** `Evaluate`: one more than the stars the decoded program eats, so
        every program scores at least one. */
    method Evaluate(chromosome: ProgramChromosome) returns (fitness: int)
      requires Valid() && chromosome.Valid() && totalSlots == chromosome.slotCount
      ensures fitness == trySolve(Program(Slice(chromosome.program[..], funcSlotCount))) + 1
      ensures trySolve(Program(Slice(chromosome.program[..], funcSlotCount))) >= 0 ==> fitness >= 1
    {
      var program := ChromosomeToProgram(chromosome);
      var starsEaten := trySolve(program);
      fitness := starsEaten + 1;
    }

    /** `ChromosomeToProgram`: function `i` receives the next
        `funcSlotCount[i]` slots of the chromosome. */
    method ChromosomeToProgram(chromosome: ProgramChromosome) returns (p: Program)
      requires Valid() && chromosome.Valid() && totalSlots <= chromosome.slotCount
      ensures p.code == Slice(chromosome.program[..], funcSlotCount)
    {
      var flat := chromosome.program[..];
      var programCode := new array?<ProgramSlot>[|funcSlotCount|];
      var index := 0;
      SumNonNegative(funcSlotCount);
      for i := 0 to |funcSlotCount|
        invariant index == Sum(funcSlotCount[..i]) && index <= totalSlots
        invariant forall k :: 0 <= k < i ==> programCode[k] != null && programCode[k][..] == Slice(flat, funcSlotCount)[k]
      {
        SliceRow(flat, funcSlotCount, i);
        SumStep(funcSlotCount, i);
        var row;
        row, index := CopyRow(chromosome, index, funcSlotCount[i]);
        programCode[i] := row;
      }
      p := NewProgram(programCode);
    }

    /** The inner loop of `ChromosomeToProgram`: a new row receives the
        `len` slots of the chromosome from `index` on, and the index moves
        past them. */
    static method CopyRow(chromosome: ProgramChromosome, index: int, len: int) returns (row: array<ProgramSlot>, next: int)
      requires chromosome.Valid() && 0 <= index && 0 <= len && index + len <= chromosome.slotCount
      ensures fresh(row) && row[..] == chromosome.program[index..index + len] && next == index + len
    {
      row := new ProgramSlot[len];
      next := index;
      for j := 0 to len
        invariant next == index + j
        invariant row[..j] == chromosome.program[index..next]
      {
        row[j] := chromosome.GetSlot(next);
        next := next + 1;
      }
      assert row[..] == row[..len];
    }
  }
}
