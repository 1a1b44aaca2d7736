# Verified models of the interpreter's hard parts

This project models, in Dafny, the parts of the PHP interpreter whose behaviour spans many branches, several
functions or whole runs, and proves what they promise:

- **Class constants** (`ClassTables`, `ClassConstants`, `ClassSoundness`, `ClassLinking`, `ClassReads`, `ClassRuns`,
  `ClassCycles`, `ClassTyping`, `ClassScopes`, `ClassSharing`, `ClassSharers`, `ClassTangles`, `ClassResolver`,
  `ConstHints`): classes declared at their first mention, in the middle of whatever is running, with a pass that
  resolves what it can; lazy resolution behind it, with in-progress marks, a cache and typed coercion; both against
  the plain recursive meaning of constant expressions.
- **Statements** (`Variables`, `Statements`, `StatementMemory`, `StatementLaws`, `StatementLevels`, `StatementLeak`,
  `StatementReturns`, `StatementSwitch`, `StatementReference`, `StatementRunner`): a small language with for, while,
  do-while, foreach, switch, try/catch/finally, multi-level break and continue, return, throw, exit, generator
  force-close and calls with parameters by reference. The level of a break lives in its shared syntax node and is
  changed in place, and variables lead to values in memory, directly or as references, as in the source; a second
  semantics, in which a jump carries its level and programs never change, says what they mean.
- **Exception chains** (`ExceptionChain`): the in-place splice of `previous` chains on any finite heap.
- **Arrow functions** (`ArrowFunctions`): the syntactic variable collector against evaluation with captured values.
- **DNF type hints** (`DnfTypes`, `SortedNames`): the redundancy check against types read as sets of values.
- **printf and scanf** (`Numerals`, `Printf`, `PrintRunner`, `PrintDirectives`, `ScanFormats`, `Scanf`, `ScanFields`,
  `ScanRunner`, `PrintScan`): both format languages, what each conversion prints and reads, the integer conversions
  with 64-bit wrap-around, and the round trip between them.
- **isset and empty** (`IssetChains`): the bytecode helpers against the walk of the syntax tree.
- **foreach over Iterator objects** (`ForeachIterators`): the lazy iterator against the call protocol.
- **Smaller state machines**: recursive count as a graph search (`RecursiveCounts`), nested indenting writers
  (`IndentWriters`), static variables (`StaticVars`), the two protected-method checks (`ProtectedMethods`), and
  escaping against the two readers of quoted strings (`Escapes`).

Where the source works step by step, a class or method with loops (`StatementRunner`, `ScanRunner`, `PrintRunner`, and
the classes inside the other modules) is proved to compute the specification function about which the lemmas speak.
Everything the code cannot decide by itself (conversions of values, user code, clocks, other objects) is a parameter.
`dafny verify dfyconfig.toml` checks the whole project.

Several expected properties hold only under a condition. Each time the code is modelled as it is, the condition is
exact or a concrete program shows the failure:

- A declaration in the middle of another evaluation loses the compiling class. A method can then have a class take over
  another's constant for good (`ClassScopes.SelfIsTheCaller`), and code outside of classes can have a read fail that
  succeeds later (`ClassScopes.ScopeIsLostOnce`). Values are right whenever no class is running
  (`ClassRuns.EveryValueIsRight`), and at most one read per class to declare fails in this way
  (`ClassReads.ReadsAreRight`).
- A class declared on behalf of one that it extends never gets what it inherits later
  (`ClassTangles.TangleLosesConstant`).
- A constant entry that an interface and a class share, that mentions `self`, and that names a class loaded only after
  both, takes the value of whichever of them is read first (`ClassSharing.SharedSelfDependsOnReadOrder`,
  `ClassSharers.SharersFollowFirst`).
- `?float` rejects the null it declares (`ConstHints.NullableFloatRejectsNull`).
- `(A&A)|(A&B)` passes the redundancy check (`DnfTypes.DuplicatesHideRedundancy`).
- An exit inside a loop runs the finally blocks around the loop, because the loop wraps it
  (`StatementReturns.ExitInLoopRunsFinally`).
- A return inside a loop inside a catch, and a return by reference, pass a finally block without being copied. They
  deliver what the block writes to the place of the returned value: through a reference, or in place as `++` does. A
  plain assignment to an ordinary variable does not show (`StatementReturns.UndetachedReturnSeesLastWrite`,
  `StatementReturns.UndetachedReturnSeesReference`).
- A finally block that calls back into its own function can change the level of a pending break, which then leaves the
  function (`StatementLeak.ReentrantFinallyLeaksBreak`).
- Compound assignments other than `.=` and variables inside interpolated strings are not captured by arrow functions
  (`ArrowFunctions.CompoundAssignmentLosesVariable`, `ArrowFunctions.InterpolationLosesVariable`).
- A padding character above ASCII is written as two bytes (`Printf.PadWidth`); zeros appended by a left-justified
  field change the number (`PrintScan.FieldRoundTrip`).
- The by-reference form of scanf reads the text of a class behind a length modifier as format, and counts what it finds
  there (`ScanFormats.ModifiedClassMiscounted`).
- An isset path that goes on inside a byte above ASCII sees its two-byte encoding (`IssetChains.MachineRefinesTree`).
- A static variable first set to an object is stored without a reference and forgets later assignments
  (`StaticVars.StartsWhereLeft`). An initializer that calls its own function completes once for every call inside of
  the other, and the outer value replaces what the inner call left (`StaticVars.SelfCallRunsAgain`,
  `StaticVars.InnerIsOverwritten`); one that fails in a plain function empties the slot
  (`StaticVars.FailureEmptiesSlot`).

## Model

| member | source | states |
|---|---|---|
| ClassReads.ResolutionIsTransparent | core/compiler/compile-classref.go:428-625 | while nothing is under resolution or being declared, on any finite table in order and from whatever was read and declared before, a read gives exactly what the constant means, a self-reference exactly when its evaluation never ends, or fails because self was evaluated behind a declaration; the latter needs an expression with self or parent behind a class still to be declared, and declares at least one class each time |
| ClassReads.ReadsAreRight | core/compiler/compile-classref.go:428-625 | in any run of reads every answer is right but for such lost scopes, and there are at most as many of these as classes to declare |
| ClassReads.ReadsAreIndependent | core/compiler/compile-classref.go:428-625 | where no scope can be lost, any two runs of reads, from any states, give a constant the same answer |
| ClassReads.EvalConstAgrees | core/compiler/compile-classref.go:522-625 | the same in the middle of a resolution: with marks set, an answer agrees with the plain meaning, has lost its scope, or is a self-reference that waits on a marked constant |
| ClassReads.CycleUnwinds | core/compiler/compile-classref.go:530-548 | an evaluation that waits on its own constant waits on a marked one, so no answer is lost by the cycle check |
| ClassRuns.StartIsQuiet | core/compiler/compile.go:458-468 | with all classes of the file waiting for their first mention, nothing is under resolution or being declared |
| ClassRuns.LoadedIsQuiet | core/compiler/compile.go:458-468 | loading a further file keeps it so, with the cached values right among the classes known then |
| ClassRuns.EveryValueIsRight | core/phpctx/global.go:1692-1787 | over any run of loading files, mentioning classes and reading constants, with declarations nested in each other in any way, failing ones included, every cached value and every value read is the one its constant means, as long as no class is running or no scope can be lost |
| ClassSoundness.EvalExprRight | core/compiler/compile-classref.go:522-625 | the same for one expression in the middle of anything: a value is the meaning inside its own class, whatever was declared on the way |
| ClassSoundness.DeclareRight | core/phpobj/zclass.go:97-1275 | a declaration, with the lookups and the pass that it makes and all those nested in it, leaves a sound cache |
| ClassLinking.DeclareGoes | core/phpobj/zclass.go:97-282 | a declaration succeeds and leaves its class, and every class declared on the way, with all links and all own and inherited constants, if no class is declared on behalf of one that it extends or implements |
| ClassCycles.SelfReferenceIffCycle | core/compiler/compile-classref.go:530-548 | a read reports a self-reference only if, and where no scope can be lost if and only if, a cycle can be reached of constants each of which demands the next: earlier operands have values and the branch is the one taken |
| ClassCycles.DivergesIffLasso | core/compiler/compile-classref.go:522-625 | the plain evaluation of a constant never ends if and only if it can reach such a cycle |
| ClassCycles.CycleNeverSucceeds | core/compiler/compile-classref.go:530-548 | a constant in a set each of whose members surely reads another never gets a value |
| ClassCycles.AcyclicNeverSelfReferences | core/compiler/compile-classref.go:530-548 | a table whose references go down in rank never reports a self-reference |
| ClassTyping.OpenTypedRead | core/compiler/compile-classref.go:578-588 | a constant with a hint whose expression means v reads as what the hint makes of v, if it accepts v, and as a type error otherwise |
| ClassTyping.UntypedRead | core/compiler/compile-classref.go:522-590 | without a hint it reads as v |
| ClassTyping.ResolvedEntry | core/compiler/compile-classref.go:530-590 | the resolution stores the coerced value, or nothing after a type error, and takes back its mark and the compiling class |
| ClassTyping.CachedTypedRead | core/compiler/compile-classref.go:608-620 | a value that is cached already is coerced or refused at every read, and the cache stays as it was |
| ClassTyping.DeclaredIntIsFloat | core/phpobj/zclass.go:1262-1275 | an int under a float hint is stored as it is by the pass over its class and read as a float |
| ClassTyping.ReadsMatchHints | core/compiler/compile-classref.go:578-620 | over any run of loading files, mentioning classes and reading constants, every value read for a constant with a hint matches the hint |
| ClassTyping.OperatorIsApplied | core/compiler/compile-classref.go:522-625 | an operator of a constant expression gets its left and its right operand in this order |
| ClassTables.NeedsInOrder | core/phpobj/zclass.go:97-282 | a declaration looks up the parent first and then the interfaces in their order |
| ClassScopes.SelfIsTheCaller | core/phpctx/global.go:1692-1717 | in a method of Q, the first mention of B declares its parent A, self in B means Q from there on, and B::X is 100 for good though it means 1 |
| ClassScopes.ScopeIsLostOnce | core/phpobj/zclass.go:97-99 | X = D::Z + self::Y with D loaded after its class fails at the first read and gives 11 at the second |
| ClassScopes.NeitherIsSteady | core/phpobj/zclass.go:1262-1275 | what the two programs break is the order of mentions, in the pass over B and in the expression of X |
| ClassTangles.TangleLosesConstant | core/phpobj/zclass.go:244-282 | with A extends B, B::K = E::Q, C extends A and E extends C, reading A::K leaves E without the K it inherits |
| ClassTangles.TangleIsTangled | core/phpobj/zclass.go:244-282 | that program breaks the condition under which declarations leave whole classes |
| ClassSharing.SharedSelfDependsOnReadOrder | core/phpobj/zclass.go:1393-1397 | with X = self::Y + D::Z in an interface, Y redeclared by the class that implements it and D loaded after both, X is 11 for both when the interface's is read first and 12 when the class's is |
| ClassSharing.KnownOperandIsSettled | core/phpobj/zclass.go:1262-1275 | with D known from the start the pass over the interface declares it, and X is 11 before anyone reads it |
| ClassSharing.LateOperandIsNotScoped | core/phpobj/zclass.go:1393-1397 | those classes are well formed and break the condition that sharers' references lead to the same entries |
| ClassSharers.SharersFollowFirst | core/phpobj/zclass.go:1393-1397 | two holders of an open entry, whose references lead to constants in order, read one after the other: both answers are right if and only if the first fails or both mean the same |
| ClassResolver.Resolver.Run | core/compiler/compile-classref.go:522-625 | the evaluator as the source runs it, on marks, values, the compiling class and the tables of classes in place, computes the specified answer and state |
| ClassResolver.Resolver.Fetch | core/compiler/compile-classref.go:428-625 | reading one constant in place computes the specified answer and state on success, type error and cycle |
| ClassResolver.Resolver.GetClass | core/phpctx/global.go:1692-1787 | the lookup that declares a class at its first mention computes the specified class and state |
| ClassResolver.Resolver.Compile | core/phpobj/zclass.go:97-1275 | the declaration with its two loops, over what the class extends and implements and over its constants, leaves the specified state |
| ConstHints.CoercedMatches | core/compiler/compile-classref.go:989-1119 | a coerced value matches its hint, for every hint with unions, intersections and nullability |
| ConstHints.CoerceIdempotent | core/compiler/compile-classref.go:989-1037 | coercing a coerced value again returns it, so later typed reads give the first value |
| ConstHints.AcceptedIffMatches | core/compiler/compile-classref.go:989-1119 | a value is accepted if and only if it matches the hint or is an int that a float member widens, except null against a nullable plain float |
| ConstHints.LeafMeaning | core/compiler/compile-classref.go:1039-1119 | which values each type name admits, with floats taking ints, true and false only themselves, and class names the objects of the class |
| ConstHints.CompoundMeaning | core/compiler/compile-classref.go:1039-1119 | a union admits what one of its members admits, an intersection what all of them do, and null where nullable |
| ConstHints.UnionWidens | core/compiler/compile-classref.go:989-1037 | an int under a union becomes a float if and only if a member is float and none is int |
| ConstHints.NullableFloatRejectsNull | core/compiler/compile-classref.go:989-1037 | null matches a nullable float hint but its coercion fails |
| ExceptionChain.SpliceJoinsChains | core/compiler/compile-try-catch.go:212-266 | two finite chains without a common object are joined, finally's first, and no other link changes |
| ExceptionChain.SpliceHappensIff | core/compiler/compile-try-catch.go:212-266 | the heap changes if and only if both chains end and share no object |
| ExceptionChain.SpliceKeepsAcyclic | core/compiler/compile-try-catch.go:212-266 | every object whose chain ended before still has a chain that ends |
| ExceptionChain.NestedFinallyChain | core/compiler/compile-try-catch.go:179-191 | n nested finally blocks throwing fresh exceptions leave one chain of all n, newest first |
| ExceptionChain.ChainOfIsTheChain | core/compiler/compile-try-catch.go:212-266 | the specification walk finds a chain exactly when following links from the object ends |
| ExceptionChain.ChainExceptionPrevious | core/compiler/compile-try-catch.go:212-266 | the in-place walk with its seen set terminates on any finite heap, cyclic or not, and performs exactly the specified splice |
| StatementLaws.ForIsGuardedDoWhile | core/compiler/compile-for.go:99-167 | for (; c; ) b and if (c) do b while (c) have the same effects and completion for every body |
| StatementLaws.WhileIsGuardedDoWhile | core/compiler/compile-while.go:19-62 | the same for while (c) b |
| StatementLaws.FinallyRunsOnce | core/compiler/compile-try-catch.go:53-199 | over any run that ends, every entry into a try statement with a finally block is matched by exactly one run of the block or by one unwrapped exit of the body |
| StatementLaws.MoreFuel | core/compiler/compile-for.go:99-167 | a run that ends within a fuel bound is the same under any larger bound, so the bound changes no result |
| StatementLevels.ValidateDecidesFits | core/compiler/validate-break.go:15-176 | the compile-time check accepts exactly the statements whose levels fit the loops and switches around them, counted from the innermost finally block |
| StatementLevels.Misplaced | core/compiler/validate-break.go:15-176 | which of the three errors a misplaced break or continue gives |
| StatementLevels.EscapingLevel | core/compiler/compile-for.go:122-147 | under that condition a break or continue that escapes a statement carries exactly its own level minus the loops and switches of that statement around it, at least one, through any mix of statements |
| StatementLevels.JumpsStayInside | core/compiler/compile-for.go:122-147 | in a checked program whose finally blocks cannot run a node of level above 1 whose jump may be pending behind them, a jump escaping at outer depth d has a level between 1 and d, and a function body never ends in one |
| StatementLevels.Frame | core/compiler/compile-for.go:122-147 | a run changes the level only of break nodes it can touch, directly or through calls |
| StatementLevels.SingleLevelsStayInside | core/compiler/compile-for.go:122-147 | in a checked program written with break and continue of level 1 only, no jump ever leaves a function body, whatever its finally blocks call |
| StatementLevels.OneIsKept | core/phperr/break.go:10-38 | a node written with level 1 everywhere keeps that level across every run |
| StatementLeak.ReentrantFinallyLeaksBreak | core/compiler/compile-try-catch.go:146-199 | a checked program whose finally block calls its own function ends the function body in a break |
| StatementReturns.FinallyDecides | core/compiler/compile-try-catch.go:146-199 | a try with a finally block is the try without it followed by the block, unless the body exits unwrapped: an abnormal end of the block replaces what was pending, otherwise the pending completion is kept, a return being copied or not exactly as the source does |
| StatementReturns.ReturnKeepsItsValue | core/compiler/compile-return.go:162-187 | a pending return delivers the value held at the return statement whatever the finally blocks it passes write, where every variable is copied before them, or is an ordinary one that nothing makes a reference to or changes in place; returned plain values never matter |
| StatementReturns.OrdinaryVariablesKeep | core/phpv/hashtable.go:316-340 | where only ordinary variables are returned every return keeps its value, from loops in catch blocks and in by-reference functions too |
| StatementReturns.UndetachedReturnSeesLastWrite | core/compiler/compile-try-catch.go:100-199 | for every try statement, a return that was not copied delivers the last value the finally block wrote to the place of the returned value, through a reference or in place, or what it was if there is no such write |
| StatementReturns.UndetachedReturnSeesReference | core/compiler/compile-try-catch.go:100-199 | where the block only assigns, that return changes if and only if some variable is a reference to the returned value and its value changed |
| StatementReturns.LoopedReturnInCatchSeesFinally | core/compiler/compile-try-catch.go:100-199 | a return inside a loop inside a catch is not copied, and so delivers the last value the finally block wrote to the place of the variable's value |
| StatementReturns.ByRefReturnSeesFinally | core/compiler/compile-return.go:124-187 | in a by-reference function a return in the body of a try is not copied either, with the same consequence |
| StatementReturns.ExitInLoopRunsFinally | core/compiler/compile-for.go:122-147 | an exit raised inside a loop runs the finally blocks around the loop, which may cancel it |
| StatementReturns.StraightExitIsRaw | core/compiler/compile-try-catch.go:53-199 | an exit without a loop or call in between is never wrapped, so all enclosing finally blocks are skipped |
| StatementReturns.ReturnShape | core/compiler/compile-return.go:124-187 | a returned value still in memory comes from a return statement naming a variable, and its signal is wrapped only if that statement stands in a loop |
| StatementReference.NodesCarryLevels | core/compiler/compile-for.go:122-147 | in a checked program whose finally blocks run no node of level above 1 whose jump may be pending, every statement ends as in the semantics where jumps carry their level and programs stay as they are: with the same completion and level, variables and try blocks entered and left |
| StatementReference.SearchAgrees | core/compiler/compile-switch.go:77-104 | the search of a switch, which remembers defaults as it goes, finds the first case that holds or faults, and else the last default |
| StatementSwitch.StartsAtFirstMatch | core/compiler/compile-switch.go:77-120 | a switch starts at the first case whose test holds in the state that the tests before it left, and evaluates no test behind it |
| StatementSwitch.StartsAtDefault | core/compiler/compile-switch.go:77-120 | where none holds it starts, behind all tests, at the last default, or does nothing |
| StatementSwitch.EndsAtFault | core/compiler/compile-switch.go:77-104 | a test that fails with none holding before it ends the switch |
| StatementSwitch.DefaultBeforeMatch | core/compiler/compile-switch.go:77-104 | a default in front of the case that holds is passed over |
| StatementMemory.ExecRelates | core/compiler/compile-foreach.go:241-368 | whatever relates memories reflexively and transitively and is kept by single actions, tests and calls is kept by every run of every statement |
| StatementMemory.RunGrows | core/phpv/hashtable.go:316-340 | over any run values are only added, and an old one ends as the last value written to its place |
| Variables.ApplyAllKeepsPrivate | core/phpv/hashtable.go:316-340 | assignments and unsets leave a value that only ordinary variables lead to as it is, and leave those variables ordinary |
| Variables.AssignmentsKeepReferences | core/phpv/hashtable.go:316-340 | assignments change old values only through references, and make, move or drop no reference |
| Variables.AssignmentIsSeen | core/phpv/hashtable.go:316-340 | an assignment is seen in its variable, and in others that lead to the same value if and only if its variable is a reference |
| Variables.CallSeesShared | core/compiler/closure.go:1217-1312 | in a call the parameters by reference have the values of the arguments, and there are no other variables of the caller |
| Variables.CallerSeesShared | core/compiler/closure.go:1217-1312 | behind the call such an argument has what the callee left in its parameter, if that still is the reference |
| StatementRunner.Interpreter.Run | core/compiler/compile-foreach.go:241-368 | the interpreter that updates memory, node levels and the trace in place runs every statement as specified |
| StatementRunner.Interpreter.RunLoop | core/compiler/compile-for.go:99-167 | the endless loop with early exits and in-place decrements of the level computes the specified run |
| StatementRunner.Interpreter.RunDo | core/compiler/compile-dowhile.go:17-59 | the same for do-while |
| StatementRunner.Interpreter.RunSwitch | core/compiler/compile-switch.go:72-141 | case search, default, fall-through and level handling compute the specified run |
| StatementRunner.Interpreter.RunTry | core/compiler/compile-try-catch.go:53-199 | the run with pending error, caught flag and finally block computes the specified run |
| ArrowFunctions.CapturePreservesMeaning | core/compiler/closure.go:581-606 | for every body whose reads are collected, parameters, or surely assigned earlier in the body, calling the arrow function gives what evaluating the body in the whole enclosing scope with the parameters bound gives |
| ArrowFunctions.ScopeOfCall | core/compiler/closure.go:1217-1312 | in a call a parameter holds the argument at its place, the last place of that name, and every other name what was captured |
| ArrowFunctions.ParameterIsArgument | core/compiler/closure.go:1217-1312 | calling a closure whose body is its i-th parameter gives the i-th argument |
| ArrowFunctions.ArrowOfArguments | core/compiler/closure.go:581-606 | (fn($a, $b, ...) => $p)(m, n, ...) is the argument at the place of $p |
| ArrowFunctions.CapturedIsSeen | core/compiler/closure.go:581-606 | calling one whose body is any other variable gives the captured value, or null |
| ArrowFunctions.WalkableIsCovered | core/compiler/compile-func.go:1035-1134 | bodies built from the node kinds the collector walks, without compound assignments that skip their left side, always meet that condition, nested arrow functions included |
| ArrowFunctions.AssignedFirstIsCovered | core/compiler/compile-func.go:1045-1057 | a compound assignment to a variable that the body has set before meets the condition though the variable is not collected |
| ArrowFunctions.EvalAgrees | core/compiler/closure.go:1200-1214 | scopes that agree on the variables an expression may read give the same result and stay in agreement on them, closure values included |
| ArrowFunctions.UsesAreCollected | core/compiler/compile-func.go:992-1004 | the compiled use list holds exactly the collected names other than parameters and this |
| ArrowFunctions.WalkCollects | core/compiler/compile-func.go:1035-1134 | the walk adds exactly the collected names to those found before, each once |
| ArrowFunctions.CompoundAssignmentLosesVariable | core/compiler/compile-func.go:1045-1057 | a body $x op= n is computed from null, and so is right if and only if the operator does not tell null from the variable's value |
| ArrowFunctions.InterpolationLosesVariable | core/compiler/compile-func.go:1131-1133 | a body that reads a variable inside a node the walk skips gives null, right if and only if the variable was null |
| ArrowFunctions.Collector.Visit | core/compiler/compile-func.go:1035-1134 | the walk that fills the seen map and appends to the result computes the specified list |
| ArrowFunctions.CompiledUses | core/compiler/compile-func.go:992-1004 | compiling an arrow function builds the specified use list |
| DnfTypes.ReportedIsContained | core/compiler/compile-func.go:2305-2382 | with types read as sets of values, a reported member is contained in the member it is reported against |
| DnfTypes.WitnessIsOwn | core/compiler/compile-func.go:2305-2382 | in an accepted union the witness value of a member is admitted by no other member, blind spot apart |
| DnfTypes.CheckDecidesRedundancy | core/compiler/compile-func.go:2305-2382 | for every union, the check together with its blind spot decides redundancy exactly |
| DnfTypes.ExactWithoutDuplicates | core/compiler/compile-func.go:2305-2382 | with duplicate-free groups the check alone is exact: accepted if and only if no member is contained in another |
| DnfTypes.DuplicatesHideRedundancy | core/compiler/compile-func.go:2358-2382 | (A&A) or (A&B) is accepted though its second group adds no value |
| DnfTypes.VerdictIgnoresOrder | core/compiler/compile-func.go:2274-2382 | reordering members, names within groups, or letter case never changes the verdict |
| SortedNames.SameUpToCase | core/compiler/compile-func.go:2274-2282 | two names are the same in small letters if and only if they differ in the case of letters only |
| DnfTypes.ContainsAll | core/compiler/compile-func.go:2286-2301 | the nested loops decide that every name of the small group occurs in the large one, case apart |
| DnfTypes.ValidateDNFRedundancy | core/compiler/compile-func.go:2305-2382 | the three rules in their order reject exactly the unions with a clashing pair, and the pair they name clashes |
| SortedNames.KeyIsCanonical | core/compiler/compile-func.go:2274-2282 | two groups have the same key if and only if they list the same names, order and case apart |
| SortedNames.SortedIsUnique | core/compiler/compile-func.go:2280 | two sorted lists with the same names are the same list |
| SortedNames.JoinInjective | core/compiler/compile-func.go:2281 | joining separator-free names with & can be undone |
| PrintScan.PrintThenScan | core/zprintf.go:226-603 | for every list of 64-bit integers and directives (d, o, x, X, u, any width, plus, zero or blank padding, left justification with blanks), printing the line and scanning it with the same conversions gives the integers back (u as unsigned), and %n gives the length of the line |
| PrintScan.FieldRoundTrip | core/zscanf.go:842-927 | one printed field among blanks is read back as its value if and only if it is not left-justified with zeros appended to a nonzero number, and the scan stops right behind its digits |
| PrintScan.FieldShape | core/zprintf.go:576-597 | every field is blanks, a sign, digits with padding zeros, blanks: zeros come behind the sign |
| PrintScan.DirectiveIsRead | core/zprintf.go:45-211 | a directive written from flags, width and conversion is parsed as written, whatever follows it |
| PrintScan.ParsedMeaning | core/zscanf.go:915-927 | sign and digits are read as the signed value, or wrapped from the unsigned range, or refused outside it |
| Numerals.FormatUintValue | core/zprintf.go:443-446 | positional notation in any base from 2 to 16 has the value it was made from |
| Printf.PadWidth | core/zprintf.go:38-43 | a padded field is exactly as wide as asked if and only if it needs no padding or the padding character is ASCII, and never narrower |
| PrintRunner.ZFprintf | core/zprintf.go:226-603 | the loop over the format, arguments and byte counter prints the specified text or stops with the specified error, and its count is the length of the output |
| PrintRunner.RunDirective | core/zprintf.go:264-571 | position, flags, width, precision and arguments are resolved in the source's order with its error for each case |
| PrintRunner.ReadFormatOptions | core/zprintf.go:77-103 | the flag loop reads the specified flags, with padding characters and both early ends |
| PrintDirectives.DirectiveIsRead | core/zprintf.go:45-211 | a directive with position, flags, width, precision and any conversion is parsed as written, whatever follows it, and takes the argument at its position, or the next one |
| PrintDirectives.StringField | core/zprintf.go:542-551 | %s prints the first bytes of a string, as many as the precision allows, all without one, in a field of the width, with blanks or zeros on the side that the flags say |
| PrintDirectives.TextField | core/zprintf.go:542-551 | of any other argument it prints the text it is cast to, or ends the output |
| PrintDirectives.CharacterField | core/zprintf.go:437-444 | %c prints the one byte of the number modulo 256 |
| PrintDirectives.UnsignedField | core/zprintf.go:430-571 | %b, %o, %u, %x and %X print the shortest numeral of the number modulo 2^64 in their base, with capitals for %X only |
| PrintDirectives.SignedField | core/zprintf.go:445-452 | %d prints the shortest decimal numeral behind a minus, or a plus where the flags ask for it |
| PrintDirectives.FloatField | core/zprintf.go:453-534 | the float conversions print the text for the precision, behind a plus where the flags ask for it |
| PrintDirectives.StarsAreTaken | core/zprintf.go:300-400 | %*.*s, and so every conversion, takes width and precision from the two arguments before its own |
| PrintDirectives.ArgumentIsMissing | core/zprintf.go:264-400 | a directive without its argument ends the output with the number of arguments it needs |
| PrintDirectives.StringIsPrinted | core/zprintf.go:226-603 | the format a%sb prints the string between a and b |
| ScanFormats.RefCountAgrees | core/zscanf.go:1097-1166 | for accepted formats in which no class behind a length modifier holds a %, the by-reference form counts the fields the array form counts |
| ScanFormats.ModifiedClassMiscounted | core/zscanf.go:1097-1166 | %l[%d] has one field and is counted as two |
| Scanf.ErrorsAgree | core/zscanf.go:349-420 | when scanning complains about a conversion character, on any input, the validator has named the same character; an accepted format never fails this way |
| Scanf.ValuesFitFields | core/zscanf.go:423-839 | without positions the values scanned are at most the fields of the format, in order, each of its field's kind, and no index error occurs |
| Scanf.OneSlotPerField | core/zscanf.go:1045-1081 | for an accepted format without positions an array result has exactly one slot per unsuppressed conversion, null or of that conversion's kind |
| Scanf.CountIsExact | core/zscanf.go:565-570 | at any point of a scan the count that %n stores is the number of input bytes read |
| Scanf.StepValidates | core/zscanf.go:423-839 | one step of a scan keeps the validator's verdict on the rest of the format |
| ScanFields.DirectiveIsRead | core/zscanf.go:423-839 | a directive with position, star, width, length letters and conversion is parsed as written, whatever follows it |
| ScanFields.WordIsRead | core/zscanf.go:603-631 | %s skips blanks and reads the longest word within the width, and fails without one |
| ScanFields.CharactersAreRead | core/zscanf.go:572-602 | %c skips nothing and reads one character, or up to as many as the width says |
| ScanFields.ClassIsRead | core/zscanf.go:750-839 | %[...] reads the longest run out of its class within the width, and gives null where there is none |
| ScanFields.ClassOfItems | core/zscanf.go:750-778 | a class written from characters and ranges holds what one of them holds, and with ^ in front everything else |
| ScanFields.IntegerIsRead | core/zscanf.go:842-927 | an integer conversion reads a sign, which counts in the width, and the longest run of digits of its base, and gives their value |
| ScanFields.PrefixIsSkipped | core/zscanf.go:842-927 | a hexadecimal one skips 0x behind the sign, which counts in the width too |
| ScanFields.LiteralIsMatched | core/zscanf.go:423-839 | text of the format is matched character by character and counted |
| ScanFields.StoredInPlace | core/zscanf.go:423-839 | a value with a position goes to its place, and the places before it that have none are unset |
| ScanFields.AnswerOf | core/zscanf.go:1045-1081 | exactly when the answer is null, and that it is the values scanned followed by nulls otherwise |
| ScanRunner.ValidateScanFormat | core/zscanf.go:349-420 | the index-based validator computes the verdict of the one tokeniser |
| ScanRunner.CountRemainingScanCodes | core/zscanf.go:62-130 | the index-based counter counts the fields of the one tokeniser from any start |
| ScanRunner.BuildClass | core/zscanf.go:750-778 | the class parser with ranges collects exactly the characters the class stands for and stops where the other parsers skip to |
| ScanRunner.Input.ReadIntTracked | core/zscanf.go:842-927 | reading sign, prefix and digits from the buffer under a width gives the specified number and counts each byte read |
| ScanRunner.ZscanRead | core/zscanf.go:423-839 | the loop over format position, buffer, count and results computes the specified outcome for every format and input |
| ScanRunner.ZscanfIntoArray | core/zscanf.go:1045-1081 | the null cases and the null filling compute the specified answer |
| IssetChains.MachineRefinesTree | core/compiler/compile-isset.go:94-292 | for every nested value and non-empty path of scalar keys, folding chain elements and the final test agrees with the tree walk if and only if the path does not go on inside the encoding of a byte above ASCII |
| IssetChains.EmptyIsUnsetOrFalsy | core/compiler/compile-isset.go:298-389 | an element is empty if and only if it is not set or is falsy; with a null key this fails exactly on strings that start with something other than 0 |
| IssetChains.OffsetsOfString | core/compiler/compile-isset.go:94-292 | isset($s[n]) holds if and only if n is less than the length and not less than its negative, and the element is the byte counted from the start or the end |
| IssetChains.KeysOfString | core/compiler/compile-isset.go:94-292 | a boolean, float, string or null key of a string stands for the integer offset it converts to |
| IssetChains.KeysOfArray | core/compiler/compile-isset.go:94-292 | isset($a[k]) holds if and only if the slot of the key is there and not null, and the element is what it holds |
| IssetChains.EmptyOffset | core/compiler/compile-isset.go:298-389 | empty($s[n]) holds if and only if there is no such byte or it is 0 |
| IssetChains.FalsyValues | core/compiler/compile-isset.go:474-496 | the seven falsy values |
| IssetChains.TreeIssetFromFront | core/compiler/compile-isset.go:752-886 | the recursion from the last key, with its container check, is a walk from the first key |
| ForeachIterators.LoopFollowsProtocol | core/compiler/compile-foreach.go:241-368 | whatever object and body do, the calls are a prefix of rewind (valid current key body next)* valid |
| ForeachIterators.NothingAfterRaise | core/compiler/compile-foreach.go:241-368 | in such a sequence only the last call can have raised |
| ForeachIterators.LoopSeesSequence | core/compiler/compile-foreach.go:241-368 | over an object standing for a finite sequence the body sees a prefix of it, each element once in order, and all of it when it never leaves the loop |
| ForeachIterators.EndIsOfLastCall | core/compiler/compile-foreach.go:241-368 | every loop that ends, ends as its last call says: a break or return of the body, a level left over, an error, or no further element |
| ForeachIterators.Foreach | core/compiler/compile-foreach.go:470-503 | the lazy iterator with started, valid, needsValid and err, driven by the loop, makes exactly the calls of the protocol and ends as it does, a raising next included |
| ForeachIterators.ObjectIterator.IsValid | core/compiler/compile-foreach.go:708-730 | valid is asked only when a next made it due, and never after an error |
| RecursiveCounts.CountIsTotal | core/basefunc.go:253-280 | on any finite graph of arrays with sharing and cycles the count is the sum over the distinct arrays reachable from the root of their elements and countable sizes, and those are the arrays visited |
| RecursiveCounts.VisitedIsReachable | core/basefunc.go:253-280 | an array is visited if and only if the root reaches it |
| RecursiveCounts.Counter.RecursiveCount | core/basefunc.go:253-280 | the recursion on the shared visited map terminates and computes the specified count and visited set |
| IndentWriters.PassOfConcat | core/compiler/closure.go:877-923 | through any nest of writers the output does not depend on how the input is cut into writes |
| IndentWriters.StripUndoesIndent | core/compiler/closure.go:877-923 | removing the prefix from non-empty lines recovers the input |
| IndentWriters.NestingConcatenates | core/compiler/closure.go:829 | writers nested at the start of a line write what one writer with all prefixes writes, outermost first |
| IndentWriters.Writers.Write | core/compiler/closure.go:877-923 | writing line by line through the nest produces the specified text and returns the input length |
| StaticVars.InitializersRunOnce | core/compiler/compile-static.go:63-123 | over any run of calls, nested in initializers and bodies in any way: if no initializer begins while one for the same variable and key is under way, each completes at most once and only for an empty slot; and if none fails, only then |
| StaticVars.SelfCallRunsAgain | core/compiler/compile-static.go:63-123 | a function whose initializer calls it with n - 1 completes it n + 1 times for one slot |
| StaticVars.FailureEmptiesSlot | core/compiler/compile-static.go:108-114 | in a plain function an initializer that fails empties the slot that an inner call has filled, and the next call initializes it again |
| StaticVars.FailedInnerIsHarmless | core/compiler/compile-static.go:63-123 | an inner initializer that fails enters the slot and completes nothing, so that re-entry alone repeats nothing |
| StaticVars.StartsWhereLeft | core/compiler/compile-static.go:154-174 | behind a call and others that do not come to the variable, with calls nested in all of them, a later call for the same key starts from the value that it left, if and only if the variable was not first set to an object or the object is still what it holds |
| StaticVars.LeavesLastWrite | core/compiler/compile-static.go:63-174 | what a call that is alone with its variable leaves there is the last value that its body assigned, or else what it was bound to |
| StaticVars.InitializedCell | core/compiler/compile-static.go:63-123 | an initializer leaves a reference, except to an object, which is stored as it is |
| StaticVars.InnerIsOverwritten | core/compiler/compile-static.go:63-123 | what a call made by the initializer of the same variable left survives if and only if the initializer gives the same value |
| StaticVars.StaysWellStored | core/compiler/compile-static.go:154-174 | over any run of nested calls only objects are ever stored without a reference |
| StaticVars.OtherSlotsKept | core/compiler/compile-static.go:63-123 | a call leaves alone every slot that neither it nor a call inside of it declares, so those of all other keys |
| StaticVars.Statics.Bind | core/compiler/compile-static.go:63-123 | binding through the three stores, with the calls of initializers run in between, finds, makes or replaces the specified cells, no two slots share one, and filled slots stay where they were |
| StaticVars.Statics.Execute | core/compiler/compile-static.go:63-123 | a call, with the assignments of its body through the bound cells and the calls inside of it, leaves the specified stores |
| ProtectedMethods.StringCheckIsMayCall | core/callable.go:143-167 | the check on strings accepts the same callers as the check on arrays: relatives of the declaring class and heirs of its root |
| ProtectedMethods.ArrayCheckIsMayCall | core/callable.go:470-491 | the check on arrays accepts exactly these callers |
| ProtectedMethods.RootIsAncestor | core/callable.go:155-162 | the climb ends at an ancestor above which the method is not protected |
| ProtectedMethods.RootIsTopmost | core/callable.go:155-162 | every ancestor below the root climbs |
| ProtectedMethods.MethodIsNearest | core/phpobj/zclass.go:3430-3440 | a class offers the method of the nearest of its ancestors that declares it |
| ProtectedMethods.NoMethodIff | core/phpobj/zclass.go:3430-3440 | it offers none if and only if none of its ancestors declares it |
| ProtectedMethods.AccessibleByString | core/callable.go:143-167 | the check as the source runs it, climb loop included, decides who may call |
| ProtectedMethods.VisibleByArray | core/callable.go:470-491 | the same for the check on arrays |
| Escapes.ConstantRoundTrip | core/compiler/compile-quote.go:14-51 | an escaped string, cut at any length, reads back as a constant if and only if no kept character is a control character and nothing but an ellipsis was cut |
| Escapes.UnescapeRoundTrip | core/compiler/compile-quote.go:233-344 | it reads back as an interpolated string if and only if no kept character is a single quote and nothing but an ellipsis was cut |
| Escapes.SimpleEscape | core/compiler/compile-quote.go:233-344 | what each character behind a backslash stands for, and that any other one stays with its backslash |
| Escapes.HexByteIsRead | core/compiler/compile-quote.go:233-344 | a byte written in base 16 behind a backslash and x is read as that byte |
| Escapes.OctalByteIsRead | core/compiler/compile-quote.go:233-344 | so is a byte written in base 8 behind a backslash |
| Escapes.HexEscape | core/compiler/compile-quote.go:233-344 | one or two hexadecimal digits are taken, as many as there are, and give their value |
| Escapes.OctalEscape | core/compiler/compile-quote.go:233-344 | one to three octal digits are taken, as many as there are, and give their value modulo 256 |
| Escapes.CodePointEscape | core/compiler/compile-quote.go:233-344 | a code point in braces is taken up to the first closing brace, or stands for itself if it is none |
| Escapes.EscapeMatchString | core/compiler/compile-match.go:191-228 | the loop with its counter and cut writes the specified escaped text |
| Escapes.CompileQuoteConstant | core/compiler/compile-quote.go:14-51 | the reader of constants computes the specified text or refuses missing quotes |
| Escapes.UnescapePhpQuotedString | core/compiler/compile-quote.go:233-344 | the loop that shrinks its input computes the specified text |
| Escapes.ReadOctal | core/compiler/compile-quote.go:267-279 | the loop over octal digits takes what the specification takes and computes its byte |

## Left out

- ClassReads.ResolutionIsTransparent: holds where sharers' and heirs' references of an entry lead to the same entries, no class is declared on behalf of one it extends or implements, and every class extended or implemented is known; each of the first two fails in a program of its own, and a missing parent makes the declaration fail. Autoload, traits, enum cases, visibility checks and deprecations are not modelled.
- ClassRuns.EveryValueIsRight: one direction where a class is running; the failing program breaks the condition on the order of mentions, but a pass that breaks it may still be right, when the names it reads agree in both classes.
- ClassSharers.SharersFollowFirst: for two reads after all classes have been declared.
- StatementReturns.ReturnKeepsItsValue: one direction, over all worlds with ordinary variables; what any uncopied return delivers is stated exactly beside it. Values are integers; array elements, properties and the global and static statements do not occur.
- StatementLevels.JumpsStayInside: holds where no finally block can run a node above level 1 whose jump may be pending; the failing case is a concrete program.
- StatementReference.NodesCarryLevels: under the condition of StatementLevels.JumpsStayInside, which fails in the program of StatementLeak.
- Variables.Apply: an undefined variable reads as 0 without its warning, and writes that make references inside arrays or objects are not modelled.
- StatementLaws.MoreFuel: loops and calls run under a fuel bound, so runs that never end are not described.
- ArrowFunctions.CapturePreservesMeaning: the condition is on the syntax of the body, with variables that are surely assigned earlier taken into account; a body outside it may still be right by chance. Objects shared by handle, property access, generators and by-reference captures are not modelled.
- ScanFormats.RefCountAgrees: one direction only; where a class behind a length modifier holds a % the by-reference form reads the class text as format, and the counts agree or not depending on that text.
- Scanf.ValuesFitFields: formats with argument positions above 0 may produce more slots than fields.
- Scanf.CountIsExact: the reads of %i and of floats are parameters assumed to count what they read, because the source unreads several bytes of a buffered reader there.
- Scanf.OneSlotPerField: a class range that ends at byte 255 never ends in the source; the model reports this as an outcome of its own.
- Printf.PadWidth: texts of floats are parameters, with their rounding and locale; conversions of arguments to other types are parameters too.
- PrintRunner.ZFprintf: a format that ends in a lone % crashes in the source; the model reports this as an error.
- ForeachIterators.Foreach: by-reference iteration, generators, built-in iterator classes that cache their values, ticks, and the separate Iterate function are not modelled; the loop runs under a fuel bound.
- IssetChains.MachineRefinesTree: array and object keys, and objects as containers, are not modelled; how strings become offsets is a parameter.
- RecursiveCounts.CountIsTotal: the warning on recursion is taken not to raise.
- IndentWriters.Writers.Write: the underlying output never fails; writers are levels of one nest instead of objects that point to each other.
- StaticVars.InitializersRunOnce: declarations come before the rest of a body, not between its statements; generators, whose calls need not end inside of each other, are not modelled.
- ProtectedMethods.StringCheckIsMayCall: classes form a single-inheritance forest; interfaces as callers are not modelled, nor the private and __call cases.
- Escapes.CodePointEscape: which numerals are code points, and how these are encoded, is a parameter.
- ScanRunner.ZscanRead: errors of the underlying reader, and the assignment of scanned values to by-reference arguments, are not modelled.
- The bytecode machine, tokenizer, reflection, dumps other than the indenting writer, property hooks, includes and destructors would add no harder property.
