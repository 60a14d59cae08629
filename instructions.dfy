// The instruction vocabulary shared by the interpreter, the enumerator and
// the genetic operators: actions, cell / guard colours and program slots.
module Instructions {

  /** `ProgramAction`: an empty slot, the three moves and calls of F1..F5. */
  datatype ProgramAction = None | Forward | Left | Right | F1 | F2 | F3 | F4 | F5
  {
    predicate IsCall() {
      F1? || F2? || F3? || F4? || F5?
    }

    /** The index of the function a call action invokes (F1 is function 0). */
    function Target(): (f: nat)
      requires IsCall()
      ensures f < 5
    {
      match this
      case F1 => 0
      case F2 => 1
      case F3 => 2
      case F4 => 3
      case F5 => 4
    }
  }

  /** `FieldColor` (called `CellColor` in the older interpreter); None is the
      default value of the enum, an unpainted cell and an unguarded slot. */
  datatype FieldColor = None | Red | Green | Blue

  /** `ProgramSlot`: an action guarded by a colour. */
  datatype ProgramSlot = ProgramSlot(action: ProgramAction, color: FieldColor)

  /** The default value of the `ProgramSlot` struct. */
  const Blank: ProgramSlot := ProgramSlot(ProgramAction.None, FieldColor.None)

  /** The call action of function `f` (F1 for function 0). */
  function CallOf(f: nat): (a: ProgramAction)
    requires f < 5
    ensures a.IsCall() && a.Target() == f
  {
    [ProgramAction.F1, ProgramAction.F2, ProgramAction.F3, ProgramAction.F4, ProgramAction.F5][f]
  }
}
