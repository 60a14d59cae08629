# RoboZZle solver core in Dafny

RoboZZle is a puzzle in which a robot walks a grid of painted cells and
must eat every star. It runs a small program of up to five functions
F1..F5. Each function is a row of slots, and each slot holds an action
(Forward, Left, Right, a call of F1..F5, or nothing) guarded by an optional
colour. The solver has three parts, and this project models and proves
each one:

- **The interpreter** (`TrunkPuzzle`, `LegacyPuzzle`, `Execution`). This is
  the puzzle board: a colour grid, a star grid, a star counter and a start
  cell and direction.
  - `CanBeSolvedWith` runs a program on the board. It uses a depth-first
    interpreter that threads the robot's position and direction through
    calls by reference.
  - A visited set of (position, direction, function, instruction) states
    fails any run that revisits a state.
  - Both versions of the board class are classes over `array2` grids. Their
    interpreters are imperative methods, each proved equal to one
    functional semantics, `Execution.Exec`. `Exec` terminates because every
    step records an unseen state out of a finite universe.
  - `Versions` proves how the two versions relate. `Scenarios` proves what both
    interpreters return on small boards, including a program that the loop check
    rejects even though it would reach every star.
- **The exhaustive enumerator** (`Enumeration`, `BodyOrder`, `Completeness`). It is a
  depth-first generator over a slot buffer that it writes in place and
  restores on backtracking.
  - It prunes cancelling rotations, long runs of the same rotation and
    immediate self-calls.
  - It offers only programs that contain a Forward.
  - It stops as soon as the stop predicate says so.
  - The methods are proved against `Candidates`, the ordered sequence of
    every program the search can offer. Lemmas then state what each
    candidate looks like and in which order the bodies are written. The
    candidates are exactly the well-formed programs, each offered once.
- **The genetic operators** (`Chromosomes`, `Fitness`).
  - A chromosome is a flat slot array that supports random generation,
    one-slot mutation and two-point crossover. Every random number is
    passed in as a draw within the range that `Random.Next` promises.
  - The fitness function slices the flat array into functions and scores a
    program as the number of stars it eats, plus one.
- **The coordinate value type** (`Coords`). It provides equality and the
  hash code.

The loop check that the code marks as a known bug is modelled exactly as
written. `Scenarios.RepeatedCallFails` shows its effect: a program that
calls the empty F2 twice from the same state fails. The two Forwards after
those calls would have reached the star.

## Model

| member | source | states |
|---|---|---|
| Coords.NewCoord | GameModel/Puzzle/Coord.cs:44-48 | the constructor keeps x and y unchanged, and the result equals `Zero` exactly when both are 0 |
| Coords.Equal | GameModel/Puzzle/Coord.cs:21-24 | `==` holds exactly when X and Y both agree, which is value equality |
| Coords.NotEqual | GameModel/Puzzle/Coord.cs:26-29 | `!=` is the negation of `==` |
| Coords.EqualsObject | GameModel/Puzzle/Coord.cs:31-37 | `Equals` is false for null and for an object of another type; otherwise it holds exactly when the boxed coordinate equals this one |
| Coords.HashCode | GameModel/Puzzle/Coord.cs:39-42 | the hash is X ^ Y on 32-bit two's complement: a 32-bit value, and 0 when X == Y |
| Coords.HashCodeProperties | GameModel/Puzzle/Coord.cs:39-42 | equal coordinates have equal hash codes, and swapping X and Y keeps the hash |
| Instructions.ProgramAction.Target | trunk/RoboZZle/Puzzle.cs:238-255 | a call F1..F5 enters function 0..4 |
| Instructions.CallOf | RoboZZle/Program.cs:67-71 | the call action added for function f is a call whose target is f |
| Programs.NewProgram | RoboZZle/Program.cs:11-16 | the program has one function per argument array, each holding that array's contents at construction, so later writes to the arrays cannot reach it |
| Programs.GetProgramSlot | RoboZZle/Program.cs:45-48 | the slot returned is exactly slot `number` of function `func`, read without changing the program |
| Programs.GetInstructionCountInFunc | RoboZZle/Program.cs:50-53 | the count is the function's length |
| Grids.SetFlag | trunk/RoboZZle/Puzzle.cs:85 | writing one cell of a boolean grid adds that cell to the set of true cells or removes it, and leaves every other cell alone |
| Grids.CountColors | trunk/RoboZZle/Puzzle.cs:133-152 | the three counters are the numbers of Red, Green and Blue cells, and together they are at most width·height |
| Grids.ColorCountsBounded | trunk/RoboZZle/Puzzle.cs:133-152 | red + green + blue cells are at most width·height |
| Execution.StatesEqual | trunk/RoboZZle/Puzzle.cs:283-295 | the field-by-field comparison of two states is value equality, so a set of states models the `HashSet` |
| Execution.TurnLeft | trunk/RoboZZle/Puzzle.cs:201-203 | Left keeps the direction in 0..3, and a Right turn undoes it |
| Execution.TurnRight | trunk/RoboZZle/Puzzle.cs:204-206 | Right keeps the direction in 0..3 and wraps 3 to 0 |
| Execution.Move | trunk/RoboZZle/Puzzle.cs:9-11 | direction 0 moves to y−1, 1 to x+1, 2 to y+1 and 3 to x−1 |
| Execution.MoveBack | trunk/RoboZZle/Puzzle.cs:207-211 | turning around twice to the right and moving undoes a move |
| Execution.RecordShrinks | trunk/RoboZZle/Puzzle.cs:186-188 | recording an unseen state shrinks the set of states not yet visited, which is why every run terminates |
| Execution.Exec | trunk/RoboZZle/Puzzle.cs:180-188 | the instruction loop: the end of a function is StillWorking and a repeated state is Fail. Every run terminates. Afterwards the visited set has grown and the eaten stars are stars, each counted once. StarsEaten is the verdict exactly when the counter reaches the star count |
| Execution.ExecSlot | trunk/RoboZZle/Puzzle.cs:190-206 | one slot: an empty slot and a mismatched guard are skipped, and Left and Right turn; the run keeps the same invariant |
| Execution.ExecForward | trunk/RoboZZle/Puzzle.cs:207-228 | Forward keeps the run invariant: the eaten stars are counted once, and the robot is on the board unless the run failed |
| Execution.ExecCall | trunk/RoboZZle/Puzzle.cs:231-262 | a call keeps the run invariant across the callee and the caller's rest |
| Execution.SkipStep | trunk/RoboZZle/Puzzle.cs:192-195 | a None action, or a guard colour other than the cell's, changes nothing but the instruction (the state stays recorded) |
| Execution.TurnStep | trunk/RoboZZle/Puzzle.cs:201-206 | Left and Right change only the direction, by one quarter turn |
| Execution.ForwardStep | trunk/RoboZZle/Puzzle.cs:197-211 | an enabled Forward slot runs the Forward case |
| Execution.CallStep | trunk/RoboZZle/Puzzle.cs:231-257 | an enabled call slot runs the call case |
| Execution.ForwardFails | trunk/RoboZZle/Puzzle.cs:213-217 | Forward off the grid, or onto an unpainted cell, returns Fail |
| Execution.ForwardMoves | trunk/RoboZZle/Puzzle.cs:207-211 | Forward onto a painted cell without an uneaten star changes only the position |
| Execution.ForwardEats | trunk/RoboZZle/Puzzle.cs:219-226 | Forward onto an uneaten star marks it and increments the counter once. The result is StarsEaten when the counter reaches the star count; otherwise the run goes on |
| Execution.CallReturns | trunk/RoboZZle/Puzzle.cs:257-261 | a call starts the callee at its instruction 0. The callee's position and direction are passed back, and any verdict other than StillWorking is returned at once |
| Execution.ExecNoForward | trunk/RoboZZle/Puzzle.cs:207-226 | without a Forward in the program the robot never moves, eats nothing and never wins |
| TrunkPuzzle.StartStarSolves | trunk/RoboZZle/Puzzle.cs:163-170 | when the only star is on the start cell, every program solves the board |
| TrunkPuzzle.TrunkNeedsForward | trunk/RoboZZle/Puzzle.cs:154-172 | a program without Forward solves a board exactly when its only star is on the start cell |
| TrunkPuzzle.Puzzle.constructor | trunk/RoboZZle/Puzzle.cs:23-35 | a new board has the given size, no paint and no stars, a star count of 0, start (−1, −1) and direction −1 |
| TrunkPuzzle.Puzzle.SetStartPosition | trunk/RoboZZle/Puzzle.cs:45-57 | sets the start cell and nothing else |
| TrunkPuzzle.Puzzle.SetStartDirection | trunk/RoboZZle/Puzzle.cs:59-71 | sets the start direction and nothing else |
| TrunkPuzzle.Puzzle.GetStar | trunk/RoboZZle/Puzzle.cs:73-76 | true exactly when the cell is one of the board's stars |
| TrunkPuzzle.Puzzle.SetStar | trunk/RoboZZle/Puzzle.cs:78-93 | sets or clears one star and leaves the other cells alone; the counter stays equal to the number of starred cells |
| TrunkPuzzle.Puzzle.GetColor | trunk/RoboZZle/Puzzle.cs:95-98 | the cell's paint on the board |
| TrunkPuzzle.Puzzle.SetColor | trunk/RoboZZle/Puzzle.cs:100-108 | repaints one cell and leaves the other cells alone |
| TrunkPuzzle.Puzzle.Reset | trunk/RoboZZle/Puzzle.cs:110-122 | afterwards every cell is unpainted without a star, the counter is 0, the start is (0, 0) and the direction is 1 |
| TrunkPuzzle.Puzzle.ResetLine | trunk/RoboZZle/Puzzle.cs:113-118 | clears column x and leaves the other columns alone |
| TrunkPuzzle.Puzzle.IsInValidConfiguration | trunk/RoboZZle/Puzzle.cs:124-131 | true exactly when there is a star, the start is inside width×height, the direction is in 0..3 and the start cell is painted |
| TrunkPuzzle.Puzzle.GetColorsCount | trunk/RoboZZle/Puzzle.cs:133-152 | the numbers of Red, Green and Blue cells; their sum is at most width·height |
| TrunkPuzzle.Puzzle.CanBeSolvedWith | trunk/RoboZZle/Puzzle.cs:154-173 | the result is `TrunkSolves`: a star under the start cell is eaten first, and is a win when it is the only star; otherwise F1 must end with StarsEaten |
| TrunkPuzzle.Puzzle.CanBeSolvedWithDfs | trunk/RoboZZle/Puzzle.cs:175-266 | the verdict and the final visited set, eaten mask, counter, position and direction are those of `Exec` |
| TrunkPuzzle.Puzzle.ExecuteSlot | trunk/RoboZZle/Puzzle.cs:190-262 | the body of the instruction loop agrees with `ExecSlot`, and StillWorking leaves the run invariant in place |
| TrunkPuzzle.Puzzle.MoveForward | trunk/RoboZZle/Puzzle.cs:207-228 | the Forward case agrees with `ExecForward` |
| LegacyPuzzle.LegacyNeedsForward | RoboZZle/Puzzle.cs:108-116 | a program that solves a board has a Forward |
| LegacyPuzzle.Puzzle.constructor | RoboZZle/Puzzle.cs:22-36 | a new board has the given size, no paint and no stars, a star count of 0, start (−1, −1) and direction −1 |
| LegacyPuzzle.Puzzle.SetStar | RoboZZle/Puzzle.cs:38-47 | sets or clears one star and leaves the other cells alone; the counter stays equal to the number of starred cells |
| LegacyPuzzle.Puzzle.GetStar | RoboZZle/Puzzle.cs:49-52 | true exactly when the cell is one of the board's stars |
| LegacyPuzzle.Puzzle.SetColor | RoboZZle/Puzzle.cs:54-57 | repaints one cell and leaves the other cells alone |
| LegacyPuzzle.Puzzle.SetStartPosition | RoboZZle/Puzzle.cs:59-63 | sets both start coordinates and nothing else |
| LegacyPuzzle.Puzzle.GetStartPosition | RoboZZle/Puzzle.cs:65-69 | returns both start coordinates |
| LegacyPuzzle.Puzzle.SetStartDirection | RoboZZle/Puzzle.cs:71-74 | sets the direction and nothing else |
| LegacyPuzzle.Puzzle.GetStartDirection | RoboZZle/Puzzle.cs:76-79 | the board's start direction |
| LegacyPuzzle.Puzzle.IsInValidConfiguration | RoboZZle/Puzzle.cs:81-85 | faults exactly when the lower-bound checks pass but the start is outside the grid. It is true exactly when the current check holds, or holds once a direction above 3 is replaced by 0 |
| LegacyPuzzle.Puzzle.GetColorsCount | RoboZZle/Puzzle.cs:87-106 | the numbers of Red, Green and Blue cells; their sum is at most width·height |
| LegacyPuzzle.Puzzle.CanBeSolvedWith | RoboZZle/Puzzle.cs:108-116 | the result is `LegacySolves`: F1 from the start with no star eaten must end with StarsEaten, and a star on the start cell is not counted in advance |
| LegacyPuzzle.Puzzle.CanBeSolvedWithDfs | RoboZZle/Puzzle.cs:118-207 | the verdict and the final context are those of `Exec` |
| LegacyPuzzle.Puzzle.ExecuteSlot | RoboZZle/Puzzle.cs:133-203 | the body of the instruction loop agrees with `ExecSlot` |
| LegacyPuzzle.Puzzle.MoveForward | RoboZZle/Puzzle.cs:152-168 | the Forward case agrees with `ExecForward` |
| LegacyPuzzle.DirectionFourAccepted | RoboZZle/Puzzle.cs:81-85 | the check as written accepts a board whose start direction is 4 |
| LegacyPuzzle.StartBeyondGridFaults | RoboZZle/Puzzle.cs:81-85 | the check as written indexes outside the colour grid when the start is to the right of it |
| Versions.ExecSeeded | trunk/RoboZZle/Puzzle.cs:163-172 | from the same context, except that the start star counts as eaten, the current interpreter either wins or reaches the first version's verdict |
| Versions.LegacySolvesImpliesTrunk | trunk/RoboZZle/Puzzle.cs:163-172 | every program that solves a valid board in the first version solves it in the current one |
| Scenarios.TwoStepsSolve | trunk/RoboZZle/Puzzle.cs:207-226 | two Forwards reach the star at the end of a three-cell line |
| Scenarios.RepeatedCallFails | trunk/RoboZZle/Puzzle.cs:184-188 | the loop check fails a program that calls the same empty function twice from one cell, in both versions |
| Scenarios.UnpaintedCellFails | trunk/RoboZZle/Puzzle.cs:207-217 | the same two Forwards fail, in both versions, when the middle cell of the line is unpainted |
| Scenarios.SelfCallFails | trunk/RoboZZle/Puzzle.cs:184-188 | a function that only calls itself fails on re-entering the state the run started in, in both versions |
| Scenarios.EmptyProgramOnStartStar | trunk/RoboZZle/Puzzle.cs:163-170 | with the only star on the start cell, the current version accepts an empty program and the first version rejects it |
| Enumeration.AvailableColors | RoboZZle/Program.cs:60-63 | None first, then exactly the enabled paints in the order Red, Green, Blue |
| Enumeration.AvailableActions | RoboZZle/Program.cs:65-71 | Forward, Left, Right, then one call for each configured function in order; never None |
| Enumeration.SameRun | RoboZZle/Program.cs:157-164 | the length of the run of identical slots ending at index i is positive exactly when slot i equals the slot in question |
| Enumeration.SkipDueToOptimizations | RoboZZle/Program.cs:144-182 | prunes exactly a rotation that cancels the one before it under the same guard, a third Right or a second Left in a row under the same guard, and a call of the function itself in slot 0 |
| Enumeration.CheckIfCompleteCodeIsGood | RoboZZle/Program.cs:184-203 | true exactly when some slot of some function is a Forward |
| Enumeration.TakeThroughPrefix | RoboZZle/Program.cs:124-125 | the programs asked form a prefix of those available: everything up to and including the first that stops the predicate, or all of them when none does |
| Enumeration.GeneratePrograms | RoboZZle/Program.cs:55-78 | the predicate is asked about exactly `Candidates` in order, up to the first program that stops it |
| Enumeration.GenerateProgramsDfs | RoboZZle/Program.cs:82-105 | the programs offered, whether the search stopped, and that the earlier functions' code is left in place |
| Enumeration.GenerateFuncCodeDfs | RoboZZle/Program.cs:107-138 | the programs offered for one buffer depth; when the search did not stop, the buffer is back to what it was, so slots from depth on are blank again |
| Enumeration.VisitSlot | RoboZZle/Program.cs:118-134 | one unpruned slot: the body is offered, then its extensions, then the slot is blanked again |
| Enumeration.VisitColors | RoboZZle/Program.cs:116-135 | for one action, the programs offered over the colours in order, up to the first that stops the predicate; when none does, the buffer is back to what it was |
| Enumeration.OfferBody | RoboZZle/Program.cs:97-102 | a copy of the body becomes the function's code and the programs completing it are offered; the earlier functions' code is left in place |
| Enumeration.ExtendSlot | RoboZZle/Program.cs:127-134 | the extensions at the next depth are offered only after a non-empty slot that is not the last; when the search did not stop, exactly the slot at depth is blank again |
| Enumeration.OverRow | RoboZZle/Program.cs:115-116 | the slots at one depth are tried action by action, every colour of an action before the next action |
| Enumeration.ExtendPartial | RoboZZle/Program.cs:144-179 | writing a slot that is not pruned keeps every pruning rule and makes the written run one slot longer |
| Enumeration.CandidatesWellFormed | RoboZZle/Program.cs:82-138 | every program offered has a Forward, the configured lengths and calls only to configured functions. Each of its functions is a non-empty run of offered slots followed by blanks, with no cancelling rotations, capped turn runs and no immediate self-call |
| Enumeration.CallsConfigured | RoboZZle/Program.cs:65-71 | slots drawn from the action list call only the configured functions, so every program offered can run |
| Completeness.CandidatesComplete | RoboZZle/Program.cs:82-138 | a program is a candidate if and only if it is well formed: the converse of `CandidatesWellFormed`, so the pruned search misses no admissible program |
| Completeness.CandidatesDistinct | RoboZZle/Program.cs:107-138 | no program is offered twice, so the stop predicate is asked about each admissible program at most once |
| Completeness.NotSkipped | RoboZZle/Program.cs:144-182 | a slot that keeps a body free of cancelling rotations, over-long turn runs and an immediate self-call is never pruned when the buffer before it holds the same slots |
| Completeness.ContributionComplete | RoboZZle/Program.cs:121-134 | a well-formed program that agrees with the buffer up to the slot being written is offered once that slot is written: as the body ending there, or as one of its extensions |
| Completeness.OverDistinct | RoboZZle/Program.cs:115-135 | the scan over actions and colours at one slot offers no program twice |
| Enumeration.AskedInOrder | RoboZZle/Program.cs:89-131 | the programs asked are a prefix of the candidates. Once the predicate says stop, nothing more is asked; when it never does, every candidate is asked |
| BodyOrder.SearchFollowsBodies | RoboZZle/Program.cs:97-104 | the search over a function runs the search over the later functions once for each of its bodies, in the order the bodies are written |
| BodyOrder.BodiesPrefixOrdered | RoboZZle/Program.cs:115-131 | within one function, a body that writes slot k comes after its own first k slots followed by blanks: each prefix is offered before it is extended |
| Chromosomes.ActionForDraw | GameModel/ProgramChromosome.cs:82-101 | draw 0 is None, 1 Left, 2 Right, 3 Forward and 4+k a call of function k |
| Chromosomes.ActionDrawsBijective | GameModel/ProgramChromosome.cs:79-106 | the draws 0..funcCount+3 and the admissible actions correspond one to one |
| Chromosomes.FirstAccepted | GameModel/ProgramChromosome.cs:59-61 | the rejection loop stops at the first draw that is None or an enabled paint |
| Chromosomes.DrawnColor | GameModel/ProgramChromosome.cs:57-77 | the drawn colour is None or an enabled paint |
| Chromosomes.MutationChangesOneField | GameModel/ProgramChromosome.cs:121-135 | a mutation changes one slot, and in it only the colour or only the action; all other slots stay |
| Chromosomes.Swapped | GameModel/ProgramChromosome.cs:143-148 | positions lo..hi of each side hold the other's slots, and every other position keeps its own |
| Chromosomes.SwappedTwiceRestores | GameModel/ProgramChromosome.cs:143-148 | a second crossover at the same positions restores both chromosomes |
| Chromosomes.SwappedKeepsAdmissible | GameModel/ProgramChromosome.cs:143-148 | trading slots between admissible chromosomes of the same kind keeps both admissible |
| Chromosomes.ProgramChromosome.constructor | GameModel/ProgramChromosome.cs:23-34 | stores the parameters and allocates exactly slotCount slots, each filled with a generated slot |
| Chromosomes.ProgramChromosome.SlotCount | GameModel/ProgramChromosome.cs:36-39 | the number of slots, which is positive |
| Chromosomes.ProgramChromosome.GetSlot | GameModel/ProgramChromosome.cs:41-44 | slot `index` of the chromosome |
| Chromosomes.ProgramChromosome.Generate | GameModel/ProgramChromosome.cs:46-55 | every slot is overwritten with the action and colour drawn for it, and every slot is admissible afterwards |
| Chromosomes.ProgramChromosome.GenerateRandomColor | GameModel/ProgramChromosome.cs:57-77 | the colour of the first accepted draw, which is None or an enabled paint |
| Chromosomes.ProgramChromosome.GenerateRandomAction | GameModel/ProgramChromosome.cs:79-106 | one of None, Left, Right, Forward and F1..F(funcCount) |
| Chromosomes.ProgramChromosome.Clone | GameModel/ProgramChromosome.cs:108-119 | a fresh chromosome with the same parameters and equal slots, slot for slot; the copy is admissible when the original is |
| Chromosomes.ProgramChromosome.Mutate | GameModel/ProgramChromosome.cs:121-135 | the colour (coin 0) or the action of slot `pos` is redrawn, and nothing else changes; admissibility is kept |
| Chromosomes.ProgramChromosome.Crossover | GameModel/ProgramChromosome.cs:137-149 | positions min..max of the two draws are traded between the chromosomes and all else stays, even when `pair` is the same chromosome; admissibility is kept |
| Fitness.Slice | GameModel/ProgramFitnessFunction.cs:36-43 | as many functions as lengths, function i of length funcSlotCount[i] |
| Fitness.SliceRow | GameModel/ProgramFitnessFunction.cs:37-43 | slot j of function i is chromosome slot (sum of the lengths before i) + j |
| Fitness.FlattenSlice | GameModel/ProgramFitnessFunction.cs:37-43 | laying the functions end to end gives back the chromosome, so each slot is read once, in order |
| Fitness.SliceFlatten | GameModel/ProgramFitnessFunction.cs:34-46 | slicing the concatenation of a program's functions by their lengths gives the functions back |
| Fitness.PrefixSum | GameModel/ProgramFitnessFunction.cs:37-43 | the running index stays within the total before and after each function |
| Fitness.ProgramFitnessFunction.constructor | GameModel/ProgramFitnessFunction.cs:14-21 | stores the lengths, and `totalSlots` is their sum |
| Fitness.ProgramFitnessFunction.Evaluate | GameModel/ProgramFitnessFunction.cs:23-32 | the stars eaten by the decoded program, plus one, so the fitness is at least 1 whenever the star count is non-negative |
| Fitness.ProgramFitnessFunction.ChromosomeToProgram | GameModel/ProgramFitnessFunction.cs:34-46 | the program is the chromosome sliced by the function lengths |
| Fitness.ProgramFitnessFunction.CopyRow | GameModel/ProgramFitnessFunction.cs:40-42 | the new row holds the next `len` slots of the chromosome, in order, and the index moves past them |

## Left out

- Change notifications: the events raised by the trunk setters are left out, along with their event-argument classes. The setters are modelled without them.
- `Program.ToString`: not modelled. It renders text through .NET enum names.
- The user interface is not part of this model. That covers the window classes, the puzzle-file parser, the background worker and the size estimate.
- AForge: the genetic library's base classes and its population loop are not modelled. `CreateNew` is modelled inside `Clone`, as the constructor call it is.
- `System.Random`: every draw is an argument within the range that `Next(n)` promises.
- Chromosomes.ProgramChromosome.GenerateRandomColor: consumes a finite sequence of draws that contains an accepted one. A sequence that never yields an accepted colour, and the loop's probabilistic termination, are not modelled.
- Chromosomes.ProgramChromosome.Clone: takes the draws that `CreateNew` spends on generating slots, which the copy then overwrites.
- `Puzzle.TrySolveWith` of the game model is not part of this model. `Evaluate` sees it as a function `trySolve` from a program to a star count. The game model's own `Program` class is not part of this model either; `Programs.Program` stands in for it.
- `ProgramState.GetHashCode`: not modelled, because it only buckets the `HashSet`. The visited set is a Dafny `set`, and `StatesEqual` shows that this matches the state equality.
- 32-bit integers: coordinates, counters and sums are unbounded `int`s. Only the coordinate hash wraps explicitly. The model does not capture overflow of the other values.
- TrunkPuzzle.Puzzle.CanBeSolvedWith: requires a runnable program, one with an F1 whose calls all name existing functions. The C# code faults only when a call to a missing function is executed (trunk/RoboZZle/Puzzle.cs:180). The model excludes every program that merely contains such a slot, even one the run never reaches.
- LegacyPuzzle.Puzzle.CanBeSolvedWith: also requires a start inside the grid, facing 0..3, with a star on the board. The C# code handles more of these boards. With no star it never reports success (RoboZZle/Puzzle.cs:165). A start facing 4 or -1 is brought back into 0..3 by a Left or Right before any Forward (lines 147 and 150). It faults only on a Forward while the direction is out of range (line 153), or when it reads the paint of a start outside the grid (line 133). The model does not cover these boards because the callers never produce them: trunk/RoboZZle/MainWindow.xaml.cs:278 and :283 keep the direction in 0..3 with `% 4`, :311 sets the start from a grid cell, and :335 runs the validity check first.
- LegacyPuzzle.Puzzle.SetStar: the grid accessors and setters of both versions require the cell to be on the grid. The C# code would throw otherwise.
- Chromosomes.ProgramChromosome.Crossover: requires both chromosomes to hold at least `slotCount` slots. In the C#, a shorter pair faults at GameModel/ProgramChromosome.cs:145 after some slots have already been swapped. That partial swap is not modelled.
- Fitness.ProgramFitnessFunction.ChromosomeToProgram: requires the chromosome to hold at least `totalSlots` slots. In the C#, a shorter one faults at GameModel/ProgramFitnessFunction.cs:42. The fault is not modelled.
- Fitness.ProgramFitnessFunction.constructor: requires every function length to be non-negative. The C# accepts negative lengths here, and the fault comes later, when the array is allocated (GameModel/ProgramFitnessFunction.cs:40). That delayed fault is not modelled.
- Enumeration.GeneratePrograms: requires at most five functions of length at least 1. The C# code asserts that no length is 0, and a negative length would fail at allocation.
- Enumeration.GenerateProgramsDfs: stores each finished body as an immutable sequence. The C# code stores a clone, which is never written again. The buffer itself is an array written in place.
- The `default` branches that report "never get there": they are unreachable for draws in range, so they are not modelled.
- The `X` and `Y` setters of `Coord`: modelled as datatype updates.

## Findings

| source | as written | input that shows it | evidently intended | confidence | as-written member | corrected member |
|---|---|---|---|---|---|---|
| RoboZZle/Puzzle.cs:81-85 | the validity check tests only the lower bounds of the start cell before reading its paint | a 1×1 board with a star on a red cell (0, 0), start (1, 0), direction 1: the check reads `colors[1, 0]` and faults | false for a start outside the grid, as the later version checks | not executed | LegacyPuzzle.StartBeyondGridFaults | TrunkPuzzle.Puzzle.IsInValidConfiguration |
| RoboZZle/Puzzle.cs:81-85 | the validity check has no upper bound on the direction | the same board with start (0, 0) and direction 4: the check answers true, though the interpreter cannot take a step in direction 4 | false for a direction above 3 | not executed | LegacyPuzzle.DirectionFourAccepted | TrunkPuzzle.Puzzle.IsInValidConfiguration |
