# Verification of the transformations in vfm

This project models the parts of the repository that translate programs and formulas into
transition systems and rewrite them, and proves what the rewriting promises.  `dafny verify
dfyconfig.toml` checks everything.

**Fanning out callbacks** (`include/fsm.h`).  A machine (`Machines.Fsm`) is an object with one list
of transition objects, the same objects indexed by source and by destination, callbacks, clusters of
implicit callback states and the caches of the compiler.  Its ghost field `model` is its value
(`Graphs.Graph`).  A step executes the callbacks of a state and takes the first enabled transition in
insertion order, or remains; seen from outside (`Graphs.Step`) it goes on until it has left the
callback clusters.  A callback (`Programs.Cmd`) is built from assignments, sequences, `if` and
`ifelse`.  `FanOut` compiles one callback into states and proves that they implement it
(`Fragments.Implements`); `Splitting` completes a machine and splits states with several callbacks;
`Splice` and `FanOutAll` replace all structured callbacks, sharing the states of equal callbacks and
finding the way back to the caller through the variable `last`; `Bottlenecks` and `Cleanup` remove
callback states that do nothing.  A step that ends is always kept by that; a step that never ends,
because it is stuck in such states, may end afterwards (`Cleanup.PassCanEndSteps`), and
`Bottlenecks.EscapesIsExact` says for which transitions this cannot happen.  The main result is the
contract of `FanOutAll.FanOutAllNonAtomicCallbacks`, extended to whole runs by
`Refinement.RunsRefine`.

**Other operations on machines** (`include/fsm.h`).  `DoubleEdges` covers machines that merge double
transitions, and complements; `Pruning` covers reachability and the removal of what cannot happen.

**Guarded commands and program-counter tables** (`include/fsm.h`).  `Flattening` turns a structured
callback into a list of guarded commands by a worklist; `PcTables` emits the `case` tables and runs
them.  The documentation of the accepted callbacks (`include/fsm.h:940-958`) does not ask that a
branch leaves its own condition alone, but the translation needs it, because every guarded command
tests the conditions anew.  `Flattening.KeepsConditions` asks that no assignment flips a condition
above it while something is still to be set under that condition: the last assignment of a
then-branch may flip it (`Flattening.LastMayFlip`), and so may that of an else-branch whose
then-branch sets nothing.  `FlatteningLimits.SideConditionIsExact` shows that this is exactly what is
needed: it holds of a callback iff flattening is right for every callback of the same shape, with the
same assignments in the same places under the same conditions, whatever is assigned and whichever of
the conditions are replaced by a constant.

**Compiling rewrite rules** (`src/code_block.cpp`).  `Patterns` says what matching means;
`MatcherCode` is the generated code with an interpreter in which reading a missing operand, an
unassigned or unknown variable, and declaring a variable twice are errors; `Matchers` generates early
exits, `NestedMatchers` nested ifs with placeholders, and `RuleCompiler` whole rules.  That the code
is well-defined rests on a precondition: an operator that is not overloaded has one number of operands
(`Patterns.Fits`).  A finding: in the nested style a rule whose pattern is a single meta gets no place
for its final test, so such a rule never applies (`RuleCompiler.StylesAgree`).

**The thread pool** (`include/static_helper.h`).  `ThreadPools` is a state machine whose steps are the
stretches of code between points where another thread can interfere, including spurious wakeups, jobs
that enqueue jobs, and the destructor.  Clients must have left `enqueue` when the destructor starts;
running jobs may still call it.

**Smaller parts.**  `Counters` (mixed-radix counter), `StructPaths` (qualified names of struct members)
and `Sections` (positions on road sections and the bisection used for connectors).

Where code and documentation differ, the model follows the code:

- the comment on the counter puts the extra unit at the last digit (`include/static_helper.h:139-143`), its users put it at the first, which enumerates the box (`Counters.Enumerate`); the former does iff all digits but the last have a single value (`Counters.DescribedStartInBox`);
- the program counter is initialised to 1 (`src/cpp_parser.cpp:750`) but reset to 0; `PcTables.TablesRefineCallbacks` covers both;
- a member whose qualified name starts with `global.`, or whose first part contains a dollar sign, is listed but cannot be looked up (`StructPaths.RoundTrip`);
- the distance between lanes is a constant that divides the clamp range evenly for lanes of width 4 only, or if there is a single technical lane (`Sections.LaneWidthMatters`); the lanes stay on the road from a somewhat smaller width on (`Sections.LanesOnRoad`);
- the destructor of a thread pool finishes all jobs in every run iff the pool has a worker, or nobody who enqueues (`ThreadPools.DestructorFinishesAll`);
- a structured callback that is the first part of a sequence compiled earlier is taken from the cache, and whoever is connected with it runs the rest of the sequence as well (`Fragments.CutRunsOn`).

Preconditions of the fan-out, as `FanOutAll.Compilable` and the contract state them: conditions and
callbacks do not use the variable `last`; no callback is a bare number; no structured callback of a
state is a proper part of another state's callback; every state has an entry among the outgoing
transitions; nothing was fanned out before.  The machine a constructor returns does not meet the
fourth: its initial state gets an entry only with its first outgoing transition, and the lookup in
`addCompletingTransition` needs one.

## Model

| member | source | states |
|---|---|---|
| Terms.AlwaysSound | src/math_struct.cpp:3137-3145 | the constant checks only claim truth or falsity that holds in every data state |
| Terms.AlwaysComplete | src/math_struct.cpp:3126-3145 | and they miss nothing: a formula without variables and without operators outside the built-in list is found to be what it is |
| Terms.ConjoinHolds | include/fsm.h:2401-2404 | composing two guards by dropping a constantly true one is conjunction |
| Terms.EvalIgnores | include/fsm.h:940-958 | conditions are pure: a variable a condition does not mention cannot influence it |
| Programs.ExecIgnores | include/fsm.h:2497-2520 | a callback that does not use a variable neither reads nor writes it; this is why `last` can be added |
| Graphs.InsertAllFirst | include/fsm.h:1495-1510 | suppressing structurally equal transitions never changes which transition is taken from any state |
| Graphs.FirstIsHit | src/fsm_resolver_remain_on_no_transition_and_obey_insertion_order.cpp:24-42 | what the resolver picks is an enabled transition, and it picks none only if none is enabled |
| Graphs.MacroFuel | include/fsm.h:1893-1920 | the recursive step through callback states has one result, however long one is willing to wait for it |
| Graphs.StepsAppend | include/fsm.h:1893-1920 | runs of external steps compose |
| Machines.MergeAt | include/fsm.h:1483-1494 | the merged condition stands at the first transition between the two states, as a disjunction unless it was equal |
| Machines.Fsm.FindTransition | include/fsm.h:1483-1510 | finds the transition that makes an addition superfluous, and only misses it if there is none |
| Machines.Fsm.AddTransition | include/fsm.h:1479-1538 | the machine's value gains exactly the transition, its disjunction, or nothing; all three transition indexes stay filters of one list |
| Machines.Fsm.RemoveTransition | include/fsm.h:1541-1550 | exactly that transition object disappears, from all three indexes, order kept |
| Machines.Fsm.RemoveTransitions | include/fsm.h:2528-2530 | a list of transition objects disappears, order kept |
| Machines.Fsm.RemoveState | include/fsm.h:1553-1576 | the state goes with its callbacks, its cluster membership and every transition that touches it |
| Machines.Fsm.constructor | include/fsm.h:1073-1099 | the initial machine has one unconditional transition out of the invalid state, and no outgoing entry for the initial state |
| Machines.Fsm.SmallestFreeStateId | include/fsm.h:374-379 | the least unused state id from the initial state upwards |
| Machines.Fsm.AddUnconnectedState | include/fsm.h:1171-1196 | a known name gives its state; a new name gives a fresh state without transitions |
| Machines.Fsm.AddAction | include/fsm.h:2044-2053 | one more callback at the end of the state's list |
| Machines.Fsm.SetActions | include/fsm.h:2163-2166 | the state's callbacks are replaced and nothing else changes |
| Machines.ListsAre | include/fsm.h:1514-1516 | three-index agreement: outgoing and incoming lists are the order-preserving filters of the transition list, with the same objects |
| Machines.RemovingOut | include/fsm.h:1541-1550 | removing transition objects keeps the order of the others |
| DoubleEdges.MergeEnables | include/fsm.h:1483-1494 | merging a transition enables a pair exactly when it was enabled or the new condition holds |
| DoubleEdges.OneEdgePerPair | include/fsm.h:1483-1494 | with double edges prohibited from the start there is one transition per joined pair, enabled iff some condition added for the pair holds |
| DoubleEdges.ChangesKeepTidy | include/fsm.h:1479-1576 | over every run of adding and removing transitions and states no transition is there twice, and with double edges prohibited no two transitions join the same states |
| DoubleEdges.UnnecessaryLoop | include/fsm.h:1512-1517 | a transition from a state to itself that is not asked for in any case is not added, and no step can tell the difference |
| DoubleEdges.PerformAll | include/fsm.h:1479-1576 | such a run on the machine object, in either mode, has that value, so the object keeps both promises |
| DoubleEdges.AddingIsMerging | include/fsm.h:1479-1538 | what addTransition does with double edges prohibited is merging |
| DoubleEdges.PairsNotJoined | include/fsm.h:1199-1214 | the collected pairs are exactly those considered and not joined by any transition |
| DoubleEdges.CreateComplementOfTransitions | include/fsm.h:1199-1223 | afterwards there is exactly one unconditional transition for every pair that was not joined, loops included, among all states or all but the invalid one; states, callbacks and clusters stay |
| DoubleEdges.ComplementTwice | include/fsm.h:1199-1223 | complementing twice joins again the considered pairs that were joined |
| Fragments.RunThrough | include/fsm.h:1893-1920 | a run through one fragment continues into what its exits lead to |
| Fragments.MacroThrough | include/fsm.h:1917-1919 | a run through callback states is part of one external step |
| Fragments.SingleImplements | include/fsm.h:2302-2308 | one state with the command as its callback implements the command |
| Fragments.SeqImplements | include/fsm.h:2309-2328 | exits of the first part, a linking state and entries of the second implement the sequence: one enabled entry, one way at every inner state, the data of the program at the exit |
| Fragments.BranchImplements | include/fsm.h:2329-2363 | guarded entries of both parts side by side implement the conditional |
| Fragments.ImplementsSame | include/fsm.h:2281-2381 | a fragment keeps implementing its callback while nothing inside it changes |
| Fragments.CutRunsOn | include/fsm.h:2294-2300 | what the reuse of a part costs: entered through the interface of the first part of a compiled sequence, the machine runs both parts, whatever transitions were added at the exits of the first |
| FanOut.ConnectEntries | include/fsm.h:2321-2324 | guarded transitions to all entries are added, nothing else |
| FanOut.FanOutAtomic | include/fsm.h:2302-2308 | a callback that is not structured becomes one new state that implements it |
| FanOut.FanOutSequence | include/fsm.h:2309-2328 | the new states implement the sequence and touch nothing that was there |
| FanOut.FanOutBranch | include/fsm.h:2329-2363 | the new states implement the if or ifelse and touch nothing that was there |
| FanOut.FanOutSingle | include/fsm.h:2281-2381 | single-callback compiler correctness for every program: exactly one entry open in every data state, exactly one enabled way from every inner state, open-ended exits, the program's data after boundedly many steps; or the remembered interface, unchanged |
| Bottlenecks.ProductsFire | include/fsm.h:2398-2408 | the transitions around a bottleneck fire as entering it and leaving it would |
| Bottlenecks.PassStep | include/fsm.h:2384-2411 | bypassing one more state of a pass keeps the pass invariant, although earlier bottlenecks are still there |
| Bottlenecks.ChainIsLeft | include/fsm.h:1917-1919 | a step that enters a chain of bottlenecks leaves it at the chain's end with the data unchanged |
| Bottlenecks.PassPreservesSteps | include/fsm.h:2384-2418 | removing all bypassed states of a pass together leaves every external step that ends as it was |
| Bottlenecks.PassKeepsSteps | include/fsm.h:2384-2418 | if whoever enters the removed states always gets out again, every external step is what it was, those that never end included |
| Bottlenecks.StuckStepEnds | include/fsm.h:2384-2418 | otherwise a step from a state outside the clusters that gets stuck in them never ended before the pass, and ends where it started after it |
| Bottlenecks.EscapesIsExact | include/fsm.h:2384-2418 | the condition holds of the transitions iff no pass that removes these states can be told apart, whatever callbacks and clusters the other states have |
| Bottlenecks.OpenIsLeft | include/fsm.h:2395-2396 | idle states of which each can always be left, and that form no circle, are always left |
| Cleanup.BypassState | include/fsm.h:2398-2408 | every incoming transition is composed with every outgoing one, in order |
| Cleanup.BypassBottlenecks | include/fsm.h:2389-2411 | every bottleneck met in one iteration over a cluster, in any order, is bypassed and no other state; some is found exactly if there is one at the start |
| Cleanup.CleanupPass | include/fsm.h:2389-2417 | one pass bypasses and removes exactly what one iteration finds; it keeps every external step that ends, and every step if idle states are always left, and loses only callback states; it removes something, and shrinks the cluster, exactly if there is a bottleneck when it starts |
| Cleanup.CleanCluster | include/fsm.h:2386-2417 | passes over one cluster are repeated until it has no bottleneck |
| Cleanup.AllCleanedSeparated | include/fsm.h:2384-2418 | once all clusters have been cleaned, one after the other, none has a bottleneck, if no state is in two clusters and no transition joins two |
| Cleanup.NoBottlenecks | include/fsm.h:2389-2396 | that is to say, the idle states left in the clusters are entered by three transitions and left by three at least, or not at all |
| Cleanup.CleanupBottlenecks | include/fsm.h:2384-2418 | bottleneck elimination terminates and cleans every cluster, each until it has no bottleneck; clusters that do not touch have none in the end; every external step of a remaining state that ends is kept, and every step if idle states are always left; states are removed exactly if some cluster has a bottleneck and nothing changes otherwise |
| Cleanup.PassCanEndSteps | include/fsm.h:2384-2418 | a machine with one idle state, left only while x is set: with x unset the step of its user state never ends before the pass and ends after it |
| Splitting.AddCompletingTransition | include/fsm.h:1627-1660 | a transition to the destination is enabled exactly where none was, in addition to those there were, and is taken there; otherwise nothing changes |
| Splitting.CompleteAllStatesToSelf | include/fsm.h:360-365 | afterwards some transition is always enabled, and every next state is what it was under the resolver that remains |
| Splitting.AppendCallbackStates | include/fsm.h:2241-2257 | further callbacks become a chain of new states with one callback each |
| Splitting.MoveTransitions | include/fsm.h:2261-2267 | the original transitions are copied to the end of the chain in order |
| Splitting.SplitState | include/fsm.h:2234-2270 | a state with several callbacks becomes a chain that runs them one after the other and decides at its end |
| Splitting.SplitStutters | include/fsm.h:2228-2272 | the n-th step of the split machine has the data and the state of one original step |
| Splitting.FanOutMultiple | include/fsm.h:2228-2272 | stuttering refinement for every state and data: a state with n callbacks takes n steps to do what it did in one; every callback is executed by exactly one state, the i-th of a state by the i-th of its chain, and there are no other states |
| Splitting.SplitDistributes | include/fsm.h:2228-2272 | the states of the split machine are the chains, disjoint, with one callback each |
| Splice.ExitsFire | include/fsm.h:2489-2507 | the way back repeated for every exit leads where the first copy leads, and only if the caller's tag holds |
| Splice.TagsExclude | include/fsm.h:2497-2499 | with `last` set by one caller the tags of all other callers are false |
| Splice.ConnectStep | include/fsm.h:2489-2520 | connecting one more caller keeps all earlier callers of all callbacks correct |
| Splice.NewSite | include/fsm.h:2473-2487 | a freshly compiled callback and its common exit are ready to be connected |
| FanOutAll.FindSingles | include/fsm.h:2438-2457 | a callback is treated as single exactly if no other state's first callback has its name |
| FanOutAll.ConnectBack | include/fsm.h:2489-2507 | exits lead to the common exit, and from there copies of the caller's transitions, tagged, in the caller's order |
| FanOutAll.SpliceState | include/fsm.h:2470-2520 | one state's callback is replaced by its site; the transitions of all other states stay |
| FanOutAll.SpliceAll | include/fsm.h:2459-2526 | all structured callbacks are replaced, whatever order the states come in |
| Refinement.StepRefines | include/fsm.h:2459-2530 | before clean-up one external step of a spliced machine is one step of the original with `last` set by shared callers, also when callbacks are shared |
| Refinement.SettledIsAtomic | include/fsm.h:2459-2526 | in a spliced machine every state has no callback or one assignment |
| Refinement.SettledIsRemovable | include/fsm.h:2384-2396 | spliced machines satisfy the guard condition that bottleneck elimination needs, and no idle states form a circle |
| Refinement.SplicedStepsAlike | include/fsm.h:2431-2530 | splicing and clean-up together: every step ends, in the original's successor, with the original's data except for `last` |
| Refinement.RunsAlike | include/fsm.h:1893-1920 | whole runs of spliced machines follow the original step by step |
| Refinement.RunsRefine | include/fsm.h:2431-2530 | wherever k steps of the original lead, some n >= k steps of the fanned-out machine lead |
| FanOutAll.FanOutAllNonAtomicCallbacks | include/fsm.h:2431-2530 | compiler correctness: for every original state and all data the fanned-out machine reaches the original successor with the original data, except for `last`, in as many external steps as the state had callbacks; every state is left with at most one callback, an assignment, and an original state with its first callback, nothing, or the remembering of itself, the latter exactly if a callback of the same name occurs elsewhere; no cluster has a bottleneck |
| FanOutAll.SettledSeparated | include/fsm.h:2474-2482 | clusters of different callbacks share no states and no transitions, so cleaning up one leaves the others alone |
| FanOutAll.OnceIffSingle | include/fsm.h:2436-2458 | a callback's name is found once among the split states exactly if it occurs once among the callbacks of the original machine |
| Pruning.ReachableStatesFrom | include/fsm.h:1237-1271 | the recursion ends with exactly the states that some path of transitions reaches |
| Pruning.SatisfiableFirst | include/fsm.h:2648-2656 | dropping transitions that are never enabled does not change the one taken |
| Pruning.RemoveUnsatisfiableTransitionsAndUnreachableStates | include/fsm.h:2644-2666 | what is left are the satisfiable transitions between reachable states, in order, and the reachable states with their callbacks; a remaining condition built from numbers alone is true |
| Pruning.PruningKeepsRuns | include/fsm.h:2644-2666 | every run from a reachable state visits the same states with the same data, seen from inside and from outside |
| Pruning.StartIsLive | include/fsm.h:1260-1263 | the invalid start state is such a state |
| Flattening.AssociatedMeans | src/static_helper.cpp:1063-1088 | rotating until nothing changes keeps the meaning and the side condition of flattening |
| Flattening.MakeAssociative | src/static_helper.cpp:1063-1088 | the rewriting terminates in a left-associated callback of the same meaning with the same commands in the same order |
| Flattening.GuardMeaning | include/fsm.h:2616-2641 | the collected condition holds iff every if on the way to the root would take the branch |
| Flattening.CollectIfConditions | include/fsm.h:2616-2641 | climbing to the root computes that condition |
| Flattening.ExtractTopLevelCommands | include/fsm.h:2541-2549 | the commands of a sequence, in order, with their positions |
| Flattening.Visit | include/fsm.h:2565-2575 | everything found below an if is inserted at one place, later finds first |
| Flattening.ExpandStep | include/fsm.h:2559-2577 | one round of the worklist keeps the flat list it is heading for and consumes an if |
| Flattening.ExtractTopLevelCommandsRecursively | include/fsm.h:2552-2582 | the worklist terminates with the flat list of the callback, else-branches before then-branches, no if left |
| Flattening.FlatLists | include/fsm.h:2552-2582 | every assignment of the callback is listed exactly once, in order, nothing is listed that does not stand at its place in the callback, and what sets nothing only as an operand of a sequence or alone |
| Flattening.FlatRuns | include/fsm.h:2552-2582 | running the flat list of a command at any position does what the command does if its position is reached, and nothing otherwise |
| Flattening.FlatteningPreserves | include/fsm.h:2552-2641 | flattening preserves meaning for every callback in which no assignment flips a condition above it while something is still to be set under that condition |
| Flattening.NotMentionedIsKept | include/fsm.h:940-958 | assigning a variable the condition does not mention never flips it |
| Flattening.NeverFlipsKeeps | include/fsm.h:2616-2641 | the simple rule that no branch flips its own condition is enough |
| Flattening.LastMayFlip | include/fsm.h:2616-2641 | it is not needed: `if x { x := 0 }` breaks it and meets the side condition |
| FlatteningLimits.SideConditionIsExact | include/fsm.h:2552-2641 | the side condition holds of a callback iff flattening is right for all callbacks of its shape, with any right-hand sides and any conditions replaced by constants |
| FlatteningLimits.ThenIsExact | include/fsm.h:2552-2641 | for any then-branch: its assignments before the last keep the condition true iff flattening is right for all callbacks of the shape |
| FlatteningLimits.ElseIsExact | include/fsm.h:2552-2641 | for any two branches: the else-branch keeps the condition false, up to its last assignment if the then-branch sets nothing, iff flattening is right for all callbacks of the shape |
| FlatteningLimits.ThenBreaks | include/fsm.h:2552-2641 | any then-branch that can flip its condition before its last assignment has a variant that flattening cuts short, at every position |
| FlatteningLimits.BothBreak | include/fsm.h:2552-2641 | any else-branch that can flip the condition has a variant after which the then-branch wrongly runs as well, at every position |
| FlatteningLimits.BrokenVariant | include/fsm.h:2552-2641 | from a violation anywhere in a callback to a variant of the whole callback that goes wrong |
| PcTables.AddSetter | include/fsm.h:2585-2613 | one more command takes the next program counter, and an assignment gets its row, the only one for this command |
| PcTables.AddCallbacks | include/fsm.h:2680-2699 | the commands of all callbacks of a state are numbered from 1 without gaps |
| PcTables.SerializeCallbacks | include/fsm.h:2669-2745 | the tables hold exactly one row for every assignment of every state, under the number of its command |
| PcTables.StepFires | include/fsm.h:2701-2729 | one step executes the command the program counter points at and assigns at most one variable |
| PcTables.ProgramCounterCounts | include/fsm.h:2731-2742 | while the state is held the program counter counts up and the commands before it have run, once and in order |
| PcTables.TablesRefineCallbacks | include/fsm.h:2669-2745 | held in a state from pc = 0 the tables are back at pc = 0 after max + 1 steps with the data of the structured callbacks; from pc = 1 after max steps |
| PcTables.InvalidStateIsIdle | include/fsm.h:2680-2682 | callbacks of the invalid state are not emitted |
| Patterns.MatchIsUnique | src/code_block.cpp:1488-1532 | two bindings that match agree on all metas of the pattern |
| Patterns.InstanceOfMatch | src/code_block.cpp:1602-1604 | putting what the metas stand for back into the pattern gives the matched formula, with absent operators written out |
| Patterns.MatchesIffInstance | src/code_block.cpp:1602-1604 | matching and instantiating are inverse: without optional operands a formula matches iff it is the pattern's instance |
| Patterns.AbsentOperand | src/code_block.cpp:1282-1486 | without the optional operator a formula matches iff it matches the other operand and the meta is the default |
| Patterns.QuoteIsItself | src/code_block.cpp:1602-1604 | a formula without metas, as a right-hand side, stands for itself, and as a pattern matches only itself |
| Matchers.FindTrails | src/code_block.cpp:1488-1519 | the variables of all occurrences of a meta, left to right, optional ones under their operand |
| Matchers.MatchesIff | src/code_block.cpp:1148-1280 | a pattern matches under a binding iff the shape fits and every occurrence holds the binding's formula |
| Matchers.CreateExits | src/code_block.cpp:1148-1280 | the early-exit generator produces the specified block |
| Matchers.ExitsRun | src/code_block.cpp:1148-1280 | early-exit code returns false iff the shape does not fit, never reads what is not there, and otherwise defines exactly the variables of the match |
| MatcherCode.StripRuns | src/code_block.cpp:102-106 | placeholders left over in the code have no effect |
| MatcherCode.FillTwice | src/code_block.cpp:84-100 | replacing the first placeholder by a block that has one, and then filling again, fills the innermost |
| MatcherCode.FillBefore | src/code_block.cpp:84-100 | replace loses the lines after the placeholder; it is harmless when only placeholders follow |
| NestedMatchers.CreateNested | src/code_block.cpp:1282-1486 | through the deepest flag and placeholders, whatever is filled in lands inside all operator checks, surplus placeholders notwithstanding |
| NestedMatchers.NestRuns | src/code_block.cpp:1282-1486 | nested code runs what it encloses iff the shape fits, with exactly the variables of the match defined |
| RuleCompiler.EqualityConditions | src/code_block.cpp:1521-1532 | every pair of occurrences is compared |
| RuleCompiler.FinalTest | src/code_block.cpp:1584-1600 | all metas below the limit, all conditions and the global condition are in the test |
| RuleCompiler.FilledComputes | src/code_block.cpp:1545-1551 | every variable in a condition or in the replacement has a value, and evaluates to the instantiated right-hand side |
| RuleCompiler.FinalDecides | src/code_block.cpp:1602-1617 | once the shape fits, the test accepts iff the rule applies, and the body rewrites as the rule says |
| RuleCompiler.CorrectIsUnique | src/code_block.cpp:1534-1637 | a rule leaves no choice: two correct outcomes are equal |
| RuleCompiler.AcceptedMeans | src/code_block.cpp:1584-1617 | what is accepted is an instance of the pattern and passes every condition and the global one, and the result is the right-hand side under the same binding |
| RuleCompiler.LiteralResult | src/code_block.cpp:1602-1617 | a rule whose right-hand side has no metas rewrites to exactly that formula |
| RuleCompiler.CreateCodeFromMetaRule | src/code_block.cpp:1534-1637 | soundness, completeness and well-definedness of the generated matcher in both styles, for every formula and every meaning of the conditions; a rule that repeats its pattern rewrites what it accepts to itself; in the nested style a rule whose pattern is one meta never applies |
| RuleCompiler.StylesAgree | src/code_block.cpp:1559-1635 | the two styles agree on all formulas iff the pattern is not a single meta |
| ThreadPools.InitInv | include/static_helper.h:211-214 | a new pool with at least one worker satisfies the invariant |
| ThreadPools.StepInv | include/static_helper.h:209-260 | every step of every thread keeps mutual exclusion, exactly-once bookkeeping, no lost wakeup, and the shutdown order |
| ThreadPools.RunInv | include/static_helper.h:209-260 | so does every interleaving |
| ThreadPools.FirstInFirstOut | include/static_helper.h:222-223 | over every run what was queued and pushed is what was started, in that order, followed by what is queued |
| ThreadPools.FinishOnce | include/static_helper.h:225-226 | a job that finishes had not finished before |
| ThreadPools.ExitedIsDrained | include/static_helper.h:219-221 | when all workers have exited the queue is empty and every job ever pushed has finished |
| ThreadPools.DestructionDrains | include/static_helper.h:232-242 | when the destructor returns, all jobs pushed before or during shutdown were started in order and have finished |
| ThreadPools.SomebodyMoves | include/static_helper.h:209-260 | no deadlock: unless everything is done some thread can take a step that is neither new work nor a spurious wakeup |
| ThreadPools.RunsAreBounded | include/static_helper.h:209-260 | the length of a run is bounded by its calls of enqueue and its spurious wakeups |
| ThreadPools.NobodyIsRefused | include/static_helper.h:244-252 | in every state a pool can get into, a client of a pool in use and a running job can start to enqueue any job at once, and can bring it into the queue |
| ThreadPools.QueueIsUnbounded | include/static_helper.h:244-252 | any list of jobs can be queued, in order, before a worker starts the first |
| ThreadPools.CanBeDestroyed | include/static_helper.h:232-242 | from every state of a pool with a worker the destructor can be started and can return |
| ThreadPools.NoWorkersLoseJobs | include/static_helper.h:211-214 | with no workers and any number of clients but none, a client can enqueue a job that is never run before the destructor returns |
| ThreadPools.NoWorkersKeepJobs | include/static_helper.h:211-214 | with no workers nothing is ever started or finished, and the queue is all that was pushed, over every run and for every number of clients |
| ThreadPools.DestructorFinishesAll | include/static_helper.h:209-260 | every run in which the destructor has returned has finished all its jobs iff there is a worker or no client |
| Counters.ValueInjective | include/static_helper.h:139-148 | different tuples of the box have different mixed-radix values |
| Counters.DecrementedValue | include/static_helper.h:149-159 | a decrement lowers the value by one and stays in the box |
| Counters.Decrement | include/static_helper.h:149-159 | the array holds the next tuple |
| Counters.IsAllZero | include/static_helper.h:161-169 | true iff all digits are zero |
| Counters.Enumerate | src/mc_workflow.cpp:488-497 | started with the first digit one higher, the loop uses every tuple of the box exactly once and no other |
| Counters.DescribedStartInBox | include/static_helper.h:139-159 | started as the comment says, with the last digit one higher, the first tuple lies in the box iff all digits but the last have a single value, and is then the largest tuple |
| Counters.DescribedStartLeavesBox | include/static_helper.h:139-143 | two digits of two values each are a box that the first tuple from the described start leaves |
| StructPaths.AllAtomicMemberNames | src/cpp_type_struct.cpp:118-135 | the joined paths of the atomic members, in order |
| StructPaths.SplitAtDots | src/static_helper.cpp:1549-1588 | the parts between the dots |
| StructPaths.SplitJoin | src/static_helper.cpp:1549-1588 | splitting undoes joining |
| StructPaths.ListedLeads | src/cpp_type_struct.cpp:118-135 | a path is listed iff it leads to an atomic member |
| StructPaths.FollowGives | src/cpp_type_struct.cpp:32-111 | following a path gives the type and the attributes of the member that stands at its end |
| StructPaths.FollowFinds | src/cpp_type_struct.cpp:32-111 | and something only if there is such a member |
| StructPaths.ListedOnce | src/cpp_type_struct.cpp:118-135 | every atomic member is listed, and no name twice |
| StructPaths.DeriveSubTypeFor | src/cpp_type_struct.cpp:32-111 | follows the parts of the name from member to member, or fails where there is none |
| StructPaths.RoundTrip | src/cpp_type_struct.cpp:32-135 | looking up a listed name gives back its member iff the name does not start with the global prefix and its first part has no dollar sign |
| StructPaths.LookupGives | src/cpp_type_struct.cpp:32-135 | a listed name gives back the type and the attributes of its member iff it is not misread |
| Sections.LateralRoundTrip | morty/validate_section_dots.py:125-133 | at every angle the check recovers exactly the lateral position that was placed |
| Sections.LongRoundTrip | morty/validate_section_dots.py:125-133 | the place along the section can be recovered as well, so the transform loses nothing |
| Sections.StraightAhead | morty/validate_section_dots.py:125-133 | at angle zero it adds the two positions to the source of the section |
| Sections.BandIs | morty/validate_section_dots.py:381-382 | the band is as wide as the lanes together and starts half a lane beside the middle of the first |
| Sections.LanesFillClampRange | morty/morty.py:461-466 | with lane width 4 the lanes divide the clamp range into equal steps, from end to end |
| Sections.LanesOnRoad | morty/validate_section_dots.py:136-137 | the normalized lanes all lie in the road band iff the lane width times 2 T - 1 is at least 8 (T - 1) for T technical lanes, so for all widths from 4 on |
| Sections.LaneWidthMatters | morty/validate_section_dots.py:136-137 | the last lane meets the end of the clamp range iff the lane width is 4 or there is one technical lane |
| Sections.CheckOnRoad | morty/validate_section_dots.py:378-409 | counts exactly the dots outside their band |
| Sections.PlacedDotsPass | morty/validate_section_dots.py:378-409 | the dots placed on the lanes of a section all pass iff the last lane leaves the band by no more than the tolerance |
| Sections.FindT | morty/validate_section_dots.py:188-196 | the bisection ends within the tolerance around the place where the length is reached |

## Left out

- FanOut.FanOutSingle: when the callback is already in the cache nothing is said about the states behind the returned interface; `FanOutAll` only uses the cache for the callback of an earlier state, where its invariant knows them.
- FanOutAll.FanOutAllNonAtomicCallbacks: callbacks that are cut out of the cached states of another one (`include/fsm.h:2292-2299`) are excluded by `FanOutAll.Compilable`; `Fragments.CutRunsOn` shows what goes wrong with them.
- The step counter, the time of the last visit, the state variables (`.CurrentState` and one per state) and the error and deadlock reports of `transitionToNextState`.
- Orders of stepping other than callbacks first, transition second.
- Resolvers other than the one that remains and obeys insertion order; `getRedundantState` is that resolver's.
- Names: generated names are a datatype of their own, so they never collide with names of the user; the serialisation that names callbacks is an arbitrary function.
- The operators `complete_<state>` that `addCompletingTransition` defines: the disjunction stands in their place.
- Action ids: a state maps to its list of callbacks directly; external callbacks are not part of this model.
- The iteration order of sets and maps of the original: the model takes the elements in any order; states and clusters added during an iteration are not visited by it, as they need no treatment.
- `flattenFormula` and compound nodes: formulas are flat.
- Floating point: numbers are integers, in `Sections` reals; angles are given by their cosine and sine.
- Side effects inside conditions and right-hand sides; operators outside the built-in list are arbitrary functions.
- `copyToPtr`, `reset`, parsing of FSM programs, JIT, mutation, serialisation and drawing of machines.
- The printed text of the program-counter tables, and the translation mode without a program counter.
- PcTables.TablesRefineCallbacks: assumes that the state is held; when the emitted program moves to the next state is decided by code that is not generated at present (`src/cpp_parser.cpp:754-762`).
- Flattening.FlatteningPreserves: a single callback may violate the condition and be flattened correctly all the same, because of what it assigns or because one of its conditions never holds; the condition looks at neither, and `FlatteningLimits.SideConditionIsExact` is about callbacks of the same shape.
- Bottlenecks.PassKeepsSteps: for steps that get stuck in removed states from within a cluster nothing is said about what they do after the pass.
- Cleanup.CleanupBottlenecks: when clusters touch, cleaning one may leave a bottleneck in another that has been cleaned before, and the original does not visit that one again; what is stated then is that every cluster had none when it had been visited.
- Patterns with `~`, the merged "very fast" functions, the dispatcher, and code that drops the root check.
- `CodeBlock` as a linked structure: blocks are sequences of lines, so its pointers, `checkIntegrity`, `appendAtTheEnd` on shared tails and else-ifs are not captured; that `replace` loses the lines behind a placeholder is.
- The text of the generated code, among it the missing `&&` between the equality tests of two repeated metas; the test is modelled as a list of comparisons.
- Rules with modifying conditions, whose replacement is commented out, and right-hand sides without a building function.
- ThreadPools.RunsAreBounded: liveness is stated as boundedness together with `SomebodyMoves`, without a scheduler.
- Exceptions thrown by jobs, and the return values of jobs.
- Local names in `deriveSubTypeFor` (`is_local_var_name`), lookups that skip the first part, and the suggestions in its error messages.
- Angle overrides and printing in the road check, and the Bezier geometry that the bisection is used for.
- Inverse patterns (`include/term_arith.h`) and the decoding of delta traces (`morty/plot_prediction_accuracy.py`): short loops without a property beyond their own steps.
- `createTraceFromSimulation`: a loop around `step`.
