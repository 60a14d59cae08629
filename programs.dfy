// `Program`: an immutable list of functions, each a fixed-length sequence
// of slots.
module Programs {
  import opened Instructions

  /** The program text; `code[f][i]` is slot `i` of function `f` (F(f+1)). */
  datatype Program = Program(code: seq<seq<ProgramSlot>>)

  /** The `Program` constructor clones every function array, so the program
      holds a snapshot of the argument's contents: later writes to the
      argument's arrays cannot reach it. Every function array must be
      present. */
  method NewProgram(programCode: array<array?<ProgramSlot>>) returns (p: Program)
    requires forall i :: 0 <= i < programCode.Length ==> programCode[i] != null
    ensures |p.code| == programCode.Length
    ensures forall i :: 0 <= i < programCode.Length ==> p.code[i] == programCode[i][..]
  {
    var code: seq<seq<ProgramSlot>> := [];
    for i := 0 to programCode.Length
      invariant |code| == i
      invariant forall k :: 0 <= k < i ==> code[k] == programCode[k][..]
    {
      code := code + [programCode[i][..]];
    }
    p := Program(code);
  }

  /** `GetProgramSlot`: slot `number` of function `func`. */
  function GetProgramSlot(p: Program, func: int, number: int): (s: ProgramSlot)
    requires 0 <= func < |p.code| && 0 <= number < |p.code[func]|
    ensures s == p.code[func][number]
  {
    p.code[func][number]
  }

  /** `GetInstructionCountInFunc`: the length of function `func`. */
  function GetInstructionCountInFunc(p: Program, func: int): (n: nat)
    requires 0 <= func < |p.code|
    ensures n == |p.code[func]|
  {
    |p.code[func]|
  }

  /** A program the interpreter can run without an index fault: it has a
      function 0 and every call names one of its functions. */
  ghost predicate Runnable(p: Program) {
    |p.code| >= 1 &&
    forall f, i :: 0 <= f < |p.code| && 0 <= i < |p.code[f]| && p.code[f][i].action.IsCall() ==>
      p.code[f][i].action.Target() < |p.code|
  }

  /** Some slot of some function is a Forward. */
  ghost predicate HasForward(code: seq<seq<ProgramSlot>>) {
    exists f, i :: 0 <= f < |code| && 0 <= i < |code[f]| && code[f][i].action == ProgramAction.Forward
  }
}
