# Verified models of the test framework

Dafny models of the parts of the CPU test framework where a mistake would be hardest to see: the
lock-free registry of child processes, the division of CPUs among child processes and the shared
records they write, the loops that wait for children and retry tests, the CPU sets, the log records,
and a few small algorithms. Every model follows its source function branch by branch and is proved
for all inputs or for all runs.

`dafny verify dfyconfig.toml` checks the whole project. No proof relies on automatic induction, so
`--manual-lemma-induction` may be added.

## What is modelled

**Child registry** (`ForkfdRegistry`, `ForkfdBounds`, `ForkfdMatching`, `ForkfdDelivery`,
`ForkfdTheorems`, `ForkfdLimits`, `ForkfdProgress`). A step system: any number of forking threads,
SIGCHLD handlers and array sections; one step is one atomic access or one system call, and a run is
any interleaving. The invariants count busy entries, give every entry one owner, follow every child
from fork to report, and tie every death pipe to its child. Atomics are sequentially consistent,
process ids and descriptors are not reused, nobody else waits for the forked children, and
`waitid_works` is true. Two things the source leaves open are parameters of the model. `spurious` is
the weak compare-exchange that the GCC header asks for (the C11 header asks for the strong one);
`earlyDeath` is a child killed while it still waits for its parent. Safety (counting, ownership,
matching) holds for all four settings. With the strong compare-exchange, once signals and handlers
have settled, every child that died after its release has been reported. That a death can be passed
by, so that it stays unreported until a later SIGCHLD starts another handler, holds if and only if
one of the two is on, and a null array can be followed if and only if `spurious` is on; both are
proved with concrete runs. Besides safety it is proved that an undisturbed fork takes an entry
wherever there is room and adds an array only where there is none, so that any number of children
can be registered, and that an undisturbed handler comes to its end.

**Topology and slices** (`CpuOrder`, `Topology`, `Ranges`, `SlicePlans`, `SliceLimits`,
`SharedRecords`). From the packed comparison of CPU records, through the packages, NUMA nodes and
cores of a sorted array, to the two slice plans and the shared-memory records that the children of a
test use. "Every slice has at most the wanted number of cores" is false for two reasons, each with
an example: a module is never cut, and a small package restarts the detailed plan from the plan by
sockets and so drops the slices made for earlier packages. The exact conditions are proved, both for
the claim as it stands and with the exception for modules: in every slice all cores beyond the limit
continue one module if and only if that holds of every whole package that comes before a small one.

**Test runs** (`TestResults`, `WaitForChildren`, `RunOutcomes`, `TestRunning`, `TestRun`). The
outcomes of poll, of the clock and of the children are inputs: lists of what each poll gives before
each of the three deadlines, and the exit statuses and thread records each attempt leaves. After a
first SIGINT the next poll that reports a child ends the program, as in the source. The result of
every child is tied to the polls, and the exit code of the program to the attempts of the tests it
was given; these determine the whole run. A failed thread counts against the run if and only if the
attempt's most serious exit status is not an error that is being ignored.

**CPU sets** (`Bits`, `ProcessorSet`, `CpuSetParam`, `CpuSetTopology`). The word-array bitset
refines a set of numbers, and the set parameter equals a filter. Words are natural numbers with
explicit bit functions. The source compares the start of the whole parameter with "odd" and "even",
so a parameter that starts with such a word applies it to every later token that is not a number;
the model does the same. CPU numbers are those of the operating system, so each occurs once.

**Logs and masks** (`LogRecords`, `YamlEscape`, `FailureMask`) and **small algorithms**
(`FrequencyLevels`, `QueueSchedule`, `RandomBits`). `FiniteSets` holds facts on the sizes of sets
that several of them use.

## Model

| member | source | states |
|---|---|---|
| ForkfdTheorems.RunKeepsInv | framework/forkfd/forkfd.c:165-457 | all registry invariants hold in every state of every run, for any number of threads, handlers and sections |
| ForkfdTheorems.BusyCountExact | framework/forkfd/forkfd.c:165-219 | a section's busyCount is its non-free entries plus the operations between counter and entry, so it is never negative |
| ForkfdTheorems.OneOwner | framework/forkfd/forkfd.c:172-178 | an entry reads -1 if and only if some party is working on it, and never two are |
| ForkfdTheorems.AccessesExist | framework/forkfd/forkfd.c:186-219 | whatever a thread or handler writes, closes or waits for exists when it does so |
| ForkfdTheorems.ReapingSucceeds | framework/forkfd/forkfd.c:257-293 | a handler that swapped an entry finds a dead, unreaped child there, so the entry is never left at -1 |
| ForkfdTheorems.PipeGetsOwnStatusOnce | framework/forkfd/forkfd.c:304-313 | each death pipe gets at most one payload, is closed at most once and only after it, and the payload is the status of the child whose fork returned the pipe |
| ForkfdTheorems.WaitReportsOwnChild | framework/forkfd/forkfd.c:905-915 | forkfd_wait4 reports its own child's status and no other, and end of file only after it |
| ForkfdTheorems.PipesAreDistinct | framework/forkfd/forkfd.c:599-700 | two children never share a pipe |
| ForkfdTheorems.FateIsSettled | framework/forkfd/forkfd.c:599-700 | over any stretch of a run a child keeps its pipe and, once dead, its status |
| ForkfdTheorems.DeathsAreReported | framework/forkfd/forkfd.c:345-457 | with strong compare-exchange and held children, when no signal is pending and no handler runs, every dead child was reported |
| ForkfdTheorems.ReleasedDeathsAreReported | framework/forkfd/forkfd.c:345-457 | with strong compare-exchange alone, in such a state every child that died after its release was reported, even if others were killed before theirs |
| ForkfdProgress.GivesUpIffFull | framework/forkfd/forkfd.c:165-183 | in every state of a run, tryAllocateInSection gives a section up at once if and only if the entries taken and the operations counted ahead are as many as the section has |
| ForkfdProgress.RoomIsFound | framework/forkfd/forkfd.c:165-183 | in every state of a run with fewer, an undisturbed fork takes the first free entry of the section, whatever else is left open |
| ForkfdProgress.ForkSucceeds | framework/forkfd/forkfd.c:186-219 | from every reachable state an undisturbed fork that gets a pipe, a process and, where needed, memory adds its child to the registry and leaves the other children as they were |
| ForkfdProgress.HoldsAnyNumber | framework/forkfd/forkfd.c:186-219 | for every number there is a reachable state with that many children in the registry |
| ForkfdProgress.SearchFinds | framework/forkfd/forkfd.c:345-457 | an undisturbed handler that is told of a child in the registry finds its entry, in whichever section |
| ForkfdProgress.HandlerEnds | framework/forkfd/forkfd.c:345-457 | in every state of a run an undisturbed handler comes to its end, whatever is left open |
| ForkfdProgress.HandlerReports | framework/forkfd/forkfd.c:345-457 | when the only handler has come to its end undisturbed, every child that died after its release has been reported |
| ForkfdLimits.NullArrayIffSpurious | framework/forkfd/forkfd.c:195-215 | allocateInfo can go on with a null array if and only if the compare-exchange may fail spuriously |
| ForkfdLimits.SpuriousLosesReport | framework/forkfd/forkfd.c:345-457 | a run in which a weak compare-exchange passes by a death, which then stays unreported in every continuation until another handler starts |
| ForkfdLimits.EarlyDeathLosesReport | framework/forkfd/forkfd.c:599-700 | a run in which a child killed before its release is passed by, with the same effect |
| ForkfdLimits.ReportsLostIff | framework/forkfd/forkfd.c:345-457 | some run settles with a death that stays unreported until another handler starts, if and only if one of the two is possible |
| ForkfdLimits.UnreportedOn | framework/forkfd/forkfd.c:345-457 | without a handler, an unreported death stays unreported over any steps |
| ForkfdBounds.MemoryKept | framework/forkfd/forkfd.c:165-219 | every step keeps all program counters inside the arrays |
| ForkfdBounds.OwnKept | framework/forkfd/forkfd.c:172-178 | every step keeps owners apart and owned entries at -1 |
| ForkfdBounds.MoveBalances | framework/forkfd/forkfd.c:295-302 | every move changes counter, taken entries and operations in flight by amounts that balance |
| ForkfdBounds.CountKept | framework/forkfd/forkfd.c:165-302 | every step keeps the counting invariant in every section |
| ForkfdMatching.MatchKept | framework/forkfd/forkfd.c:304-457 | every step keeps the matching of entries, children, handlers and pipes |
| ForkfdDelivery.PlacesKept | framework/forkfd/forkfd.c:295-457 | every step keeps each forked child published, carried by one party, or reported |
| ForkfdDelivery.ForkersKept | framework/forkfd/forkfd.c:599-700 | every step keeps each child with at most one forker, and unreleased while it has one |
| ForkfdDelivery.CoverKept | framework/forkfd/forkfd.c:345-457 | every dead published child is still ahead of some handler or announced by a pending signal |
| CpuOrder.CompareIsTupleOrder | framework/topology.cpp:162-177 | the two packed words order as the unsigned tuple (package, numa, tile, module, core, thread, cpu_number) |
| CpuOrder.LessTotal | framework/topology.cpp:162-177 | CPUs not ordered either way are equal in all ids and number |
| Topology.PopulateCoreGroup | framework/topology.cpp:1262-1281 | the cores of a stretch are its maximal runs of one core id, in order |
| Topology.ScanNodes | framework/topology.cpp:1300-1318 | NUMA nodes close at each change of id up to the next package, and an unknown core or thread id is found if there is one |
| Topology.BuildTopology | framework/topology.cpp:1283-1333 | empty if and only if some id is unknown; otherwise packages, their NUMA nodes and their cores each cut up the whole array in order |
| Topology.RunsUnique | framework/topology.cpp:1262-1333 | there is only one such cut |
| Topology.PackageHoldsItsId | framework/topology.cpp:1281-1333 | on a sorted array a package holds every CPU of its id |
| SlicePlans.SliceSizeIsEven | framework/sandstone.cpp:1202-1211 | there are as few slices as the limit allows, and the slice size is the largest that all of them can have |
| SlicePlans.EvenIsUnique | framework/sandstone.cpp:1202-1211 | only one number of slices and one size are so |
| SlicePlans.SliceSizeBounds | framework/sandstone.cpp:1208-1211 | the slice size is at least one and at most the limit |
| SlicePlans.SplitNode | framework/sandstone.cpp:1202-1224 | the loop over a node's cores produces the slices given by its cuts |
| SlicePlans.NodeCutEvenly | framework/sandstone.cpp:1202-1224 | the slices of a node, told without the slice size: every one but the last has that even number of cores, exactly so where a module ends there, and otherwise goes on to the end of the module |
| SlicePlans.EvenCutIsUnique | framework/sandstone.cpp:1202-1224 | there is only one such list of slices |
| SlicePlans.CutsAreOk | framework/sandstone.cpp:1213-1223 | no cut falls inside a module, every slice but the last has the size, and a slice exceeds it only by the tail of one module |
| SlicePlans.ModuleStaysTogether | framework/sandstone.cpp:1215-1221 | adjacent cores of one module are in one slice |
| SlicePlans.SliceLimit | framework/sandstone.cpp:1208-1223 | the cores of a slice beyond the limit all continue one module |
| SlicePlans.TopologyPlansOk | framework/sandstone.cpp:1190-1225 | after any number of packages both plans partition their CPUs and the detailed one refines the other |
| SlicePlans.PlanByTopology | framework/sandstone.cpp:1190-1226 | the loops over packages and nodes build these two plans |
| SlicePlans.PlanByCount | framework/sandstone.cpp:1231-1243 | without a topology there are ranges of equal size for as few of them as the limit allows, the last with what is left; hence a partition into ranges of at most the limit |
| SlicePlans.EvenPlanIsUnique | framework/sandstone.cpp:1231-1243 | there is only one such plan |
| SlicePlans.SlicePlanInit | framework/sandstone.cpp:1129-1244 | for every mode, limit and topology both plans partition all CPUs, each detailed range lies in one socket range, and which branch decides them |
| SliceLimits.TopologyPlansMean | framework/sandstone.cpp:1190-1226 | the plan by sockets is the extents of the packages; the detailed plan is made of one slice for each package that is small or comes before a small one, and of the even slices of the nodes of the others |
| SliceLimits.BranchMeans | framework/sandstone.cpp:1129-1244 | for every mode, limit and topology, which of these plans the two are |
| SliceLimits.HeuristicIsParts | framework/sandstone.cpp:1190-1226 | the detailed plan, package by package: a package has its own slices if neither it nor a later one is small, and otherwise one slice |
| SliceLimits.PackageLimited | framework/sandstone.cpp:1202-1224 | in the slices a package is cut into, the cores beyond the limit all continue one module |
| SliceLimits.HeuristicLimitedIff | framework/sandstone.cpp:1190-1226 | the same holds of every slice of the detailed plan if and only if it holds of every whole package that comes before a small one |
| SliceLimits.HeuristicAtMostIff | framework/sandstone.cpp:1190-1226 | every slice of the detailed plan has at most the wanted number of cores if and only if each package is small, or no later one is and a module ends in time wherever one of its slices should end |
| SliceLimits.CutIff | framework/sandstone.cpp:1202-1224 | a package gets several slices if and only if it is too large and has several NUMA nodes or a module boundary after the first slice's worth of cores |
| SliceLimits.HeuristicIsIdealIff | framework/sandstone.cpp:1190-1226 | every package keeps its own slices if and only if no package that gets several comes before a small one |
| SliceLimits.ModuleMakesLargerSlice | framework/sandstone.cpp:1215-1221 | one package whose only slice is larger than the limit, since a module is not cut |
| SliceLimits.SmallSocketUndoesCut | framework/sandstone.cpp:1190-1200 | three CPUs for which a small socket undoes the cut of the socket before it, so that a slice is larger than the limit without a module to explain it |
| Ranges.RefinementNoShorter | framework/sandstone.cpp:1887-1913 | a refinement of a partition has at least as many ranges |
| SharedRecords.SharedMemory.Commit | framework/sandstone.cpp:1066-1098 | the file has room for a record per slice of the detailed plan and per CPU, each area on whole pages |
| SharedRecords.Application.SlicesForTest | framework/sandstone.cpp:1887-1913 | all writes are to existing records, which then hold the plan that the schedule asks for, a partition of the CPUs |
| SharedRecords.SocketPerChild | framework/sandstone.cpp:1887-1913 | a test that wants its sockets isolated has one child for each package, with all CPUs of one package id and no others |
| SharedRecords.PrepareTest | framework/sandstone.cpp:1887-1913 | from start-up to the ranges of a test: the whole system, the packages, or the even slices, as the schedule says; one child without forking |
| SharedRecords.Application.StartChild | framework/sandstone.cpp:1629-1637 | a forked and an executed child end with the same pointers, and the range assertion holds |
| SharedRecords.Startup | framework/sandstone.cpp:2847-2850 | for every topology and limit the parent starts with plans that fit its file and mean what slice_plan_init intends |
| SharedRecords.HeuristicIsLongest | framework/sandstone.cpp:1887-1913 | no plan a test may ask for has more slices than there are main-thread records |
| SharedRecords.ChildInFile | framework/sandstone_p.h:499-524 | every record a child reaches is inside the mapping and is the one its parent finds under that slice or CPU |
| SharedRecords.ChildrenApart | framework/sandstone_p.h:499-524 | two children of a test never reach a common byte |
| SharedRecords.EveryCpuHasChild | framework/sandstone.cpp:1887-1913 | every CPU's record belongs to a child |
| TestResults.ExitCodeRoundTrip | framework/sandstone.cpp:212-268 | a result survives its exit code, and only that exit code gives it |
| TestResults.DeathMeans | framework/sandstone.cpp:232-268 | for every notification of a death, when it gives each result: by SIGKILL, by SIGQUIT, by another signal with or without a core dump, or by the exit code; and the extra value |
| WaitForChildren.ChildrenList.KillChildren | framework/sandstone.cpp:1409-1416 | a signal goes to each child not yet reaped, and to no other |
| WaitForChildren.ChildrenList.ReapReady | framework/sandstone.cpp:1454-1478 | the children poll reported dead for the first time are reaped, each with the status reported; it fails if and only if waiting fails for a child not yet reaped |
| WaitForChildren.ChildrenList.SingleWait | framework/sandstone.cpp:1417-1480 | whether the poll ends the program, and otherwise that the reaped children are those whose death was reported so far, each with its first report |
| WaitForChildren.ChildrenList.WaitForAllChildren | framework/sandstone.cpp:1572-1600 | how waiting ends, as a function of the polls; if it returns, the reaped children are those whose death the polls reported; an interruption marks every result |
| WaitForChildren.ChildrenList.WaitForChildren | framework/sandstone.cpp:1397-1626 | how the run ends, as a function of the polls; if it returns, each child has the result of the first death the polls report for it, and is timed out without a signal if and only if there is none; signals escalate in order |
| WaitForChildren.NothingAfterReap | framework/sandstone.cpp:1409-1478 | nothing is done to a child after it was reaped |
| WaitForChildren.ResultStoredOnce | framework/sandstone.cpp:1397-1626 | each child's result is stored exactly once |
| WaitForChildren.GivenUpWasKilled | framework/sandstone.cpp:1607-1626 | a child is given up only after SIGQUIT and then SIGKILL went to it |
| WaitForChildren.ResultOf | framework/sandstone.cpp:1607-1626 | no reported death gives the result of a child that is given up; timed out, out of memory, killed and dumped each mean what they say of the death |
| TestRun.MostSeriousIsFirstMax | framework/logging.cpp:1638-1644 | the first of the most serious results is found |
| TestRun.Classify | framework/logging.cpp:1646-1701 | the result, told by the exits and the records: the most serious exit decides; otherwise a failed record makes a failure; passed needs a slice that passed and a CPU that did not skip; the rest is skipped |
| TestRun.ResultMeans | framework/logging.cpp:1638-1701 | for each result, the exact condition on exits and records under which an attempt has it |
| TestRun.BadMeans | framework/sandstone.cpp:1971-1999 | exactly when an attempt counts against the run |
| TestRun.CrashCounts | framework/sandstone.cpp:1971-1999 | if a child died of a signal other than SIGKILL and SIGQUIT and no death ends the program, the attempt counts, whatever is ignored |
| TestRun.FailureCountsIff | framework/sandstone.cpp:1971-1999 | a failed thread counts against the run if and only if its attempt does not end in an ignored error |
| TestRun.IgnoredTimeoutHidesFailure | framework/sandstone.cpp:1979-1991 | an attempt in which an ignored timeout hides a failed thread |
| RunOutcomes.SuccessIff | framework/sandstone.cpp:2962-3013 | the program ends with success if and only if no attempt of the run counts and no skip is fatal |
| RunOutcomes.InvalidIff | framework/sandstone.cpp:1979-1991 | the program is ended with EXIT_INVALID if and only if some attempt of the run ends it |
| RunOutcomes.TestMeans | framework/sandstone.cpp:2115-2265 | a test passes, fails, is skipped or ends the program; it ends it if and only if one of its attempts does, and otherwise fails if and only if one counts |
| RunOutcomes.TestIsUnique | framework/sandstone.cpp:2115-2265 | what the attempts of a test give determines its result, its normal runs and its retries |
| RunOutcomes.RunIsUnique | framework/sandstone.cpp:2962-3013 | what the attempts give determines the run: which tests are reached, how often each is run and retried, and so the counters and the exit code |
| TestRun.FailureIsNeverMasked | framework/sandstone.cpp:2962-3013 | if the program ends with success, every attempt of the run with a failed thread ended in an error that is being ignored |
| RunOutcomes.TallyAddsUp | framework/sandstone.cpp:2972-3000 | successes, failures and skips add up to the tests that gave a result |
| RunOutcomes.PassesIff | framework/sandstone.cpp:2176-2218 | a test is a success if and only if all its normal runs pass, and skipped if and only if the first that does not pass is skipped |
| TestRun.CountersTell | framework/sandstone.cpp:2972-3000 | the counters are the numbers of such tests, told by exits and records |
| RunOutcomes.StopsWhere | framework/sandstone.cpp:2968-3000 | the run stops early if and only if the program was ended, a failure or a skip was fatal, enough tests were run, or the pause was interrupted |
| RunOutcomes.OptionsStop | framework/sandstone.cpp:2983-3000 | a fatal failure or skip is the last test, and no more tests are run than wanted, though always one |
| TestRun.RunOneTestOnce | framework/sandstone.cpp:1950-2000 | the program is ended if and only if some slice timed out, ran out of memory or had a system error and that is not ignored; otherwise the result is the one the exits and records mean, or a skip for an ignored error |
| TestRunning.TestRunner.RunFractures | framework/sandstone.cpp:2176-2218 | normal runs go on until one is not passed or time is up |
| TestRunning.TestRunner.Retry | framework/sandstone.cpp:2220-2255 | retries go on to the exact number, or to the first one that ends the program if that comes earlier; the budget drops by their number and stays non-negative |
| TestRunning.TestRunner.RunOneTest | framework/sandstone.cpp:2115-2265 | retries are made only after a normal run that failed, and then the test has failed or the program was ended; otherwise the last normal run decides |
| TestRunning.TestRunner.RunAll | framework/sandstone.cpp:2962-3013 | the attempts made are exactly the runs and retries of the tests reached, in order, each test within its rules and its share of the budget; the run stops early only where the source does; counters and exit code are those of these tests |
| TestRun.EndIff | framework/sandstone.cpp:1979-1991 | EXIT_INVALID if and only if some attempt made has a most serious result that ends the program and is not ignored |
| TestRun.RunProgram | framework/sandstone.cpp:2844-3013 | with the budget in force, all of this for a whole run: success means that only ignored errors hid failures, and EXIT_INVALID that an attempt ended the program |
| RunOutcomes.NeededExists | framework/sandstone.cpp:2228-2236 | the number of retries called for lies between the retest count and its double |
| RunOutcomes.LoopIsExact | framework/sandstone.cpp:2228-2251 | the number of retries the loop makes is the exact one, and no other is |
| RunOutcomes.RetryCountExact | framework/sandstone.cpp:2228-2251 | the loop's rule gives the double count without failures, else the first failure's index or the count, limited by the budget |
| ProcessorSet.LogicalProcessorSet.Set | framework/topology.h:136-137 | adds one number and nothing else, for any array size |
| ProcessorSet.LogicalProcessorSet.Unset | framework/topology.h:138-139 | removes one number and nothing else |
| ProcessorSet.LogicalProcessorSet.IsSet | framework/topology.h:140-141 | membership, also beyond the array |
| ProcessorSet.LogicalProcessorSet.EnsureSize | framework/topology.h:182-189 | growing changes no member |
| ProcessorSet.LogicalProcessorSet.Count | framework/topology.h:143-149 | the number of members |
| ProcessorSet.LogicalProcessorSet.Empty | framework/topology.h:151-157 | true if and only if there is no member |
| ProcessorSet.LogicalProcessorSet.LimitTo | framework/topology.h:159-179 | leaves exactly the k smallest members, or all if there are fewer |
| ProcessorSet.ClearTop | framework/topology.h:168-175 | clearing by bit_floor removes the highest bits of a word, in number as asked |
| CpuSetParam.Selection.ApplyToSet | framework/topology.cpp:1091-1108 | one more CPU: insertion at the lower bound, or erasure, equals filtering again |
| CpuSetParam.LowerBound | framework/topology.cpp:1097-1098 | the binary search finds the place that keeps the order |
| CpuSetParam.MemberAdded | framework/topology.cpp:1096-1098 | the filtered list for one more number is the old one with its CPU inserted |
| CpuSetParam.OtherRemoved | framework/topology.cpp:1099-1105 | the complement for one more number is the old one without its CPU |
| CpuSetParam.Selection.ApplyToken | framework/topology.cpp:1110-1183 | a token is refused exactly when it is wrong, and otherwise adds the CPUs it selects |
| CpuSetParam.ApplyCpuset | framework/topology.cpp:1045-1203 | accepted exactly when the tokens are right and something is selected and left; then the old array filtered by the union, or its complement, still sorted; the closing assertions hold |
| CpuSetParam.UpdateTopology | framework/topology.cpp:1358-1383 | the array starts with the new CPUs of the wanted packages, the excess is zeroed, the rest is untouched |
| CpuSetParam.RestrictCpus | framework/topology.cpp:1045-1203 | the array ends as the old one filtered, zeroed up to the old count and untouched behind it, or is unchanged if the parameter is refused |
| CpuSetTopology.PackageIsLeft | framework/topology.cpp:1145-1183 | on a sorted array p followed by an id leaves exactly the extent of that package |
| CpuSetTopology.CoreIsLeft | framework/topology.cpp:1145-1183 | p and c with ids leave exactly the CPUs of the cores with that id in that package |
| CpuSetTopology.OddAndEven | framework/topology.cpp:1128-1136 | odd and even split the CPUs by their numbers |
| CpuSetTopology.NumberIsLeft | framework/topology.cpp:1110-1127 | a number leaves the CPU with that number |
| CpuSetTopology.TokensAdd | framework/topology.cpp:1072-1183 | several tokens leave what each of them leaves |
| CpuSetTopology.NegatedIsRest | framework/topology.cpp:1062-1068 | a negated parameter leaves what the parameter removes |
| LogRecords.CodeRoundTrip | framework/logging.cpp:238-254 | a code is never zero and gives back the type always, the level if and only if it has four bits |
| LogRecords.LogFile.Log | framework/logging.cpp:485-492 | writing a record extends the stream by that record |
| LogRecords.NextRecord | framework/logging.cpp:1562-1570 | the next NUL ends the next record, or no record is wholly there |
| LogRecords.ReadRecords | framework/logging.cpp:1556-1605 | reading any prefix of a stream gives exactly the records whose NUL was written, intact and in order |
| LogRecords.AllWhole | framework/logging.cpp:1556-1605 | with all bytes there, all records are read |
| LogRecords.GetSkipMessage | framework/logging.cpp:1528-1545 | the body of the first skip message in the part that was written, or nothing |
| LogRecords.PrintThreadMessages | framework/logging.cpp:1556-1605 | the records shown and the lowest level handled, for the plain and the YAML logger |
| LogRecords.PrintedMeans | framework/logging.cpp:1556-1605 | exactly which records are printed |
| YamlEscape.EscapeForSingleLine | framework/logging.cpp:1181-1204 | terminates with every quote doubled and nothing else changed |
| YamlEscape.EscapeRoundTrip | framework/logging.cpp:1181-1204 | a single-quoted scalar (section 7.3.2 of YAML 1.2.2) gives the message back and ends where it should |
| FailureMask.MaskBit | framework/topology.cpp:1436-1446 | bit i of a core's mask is set if and only if the thread with id i failed |
| FailureMask.CoreRoundTrip | framework/topology.cpp:1404-1463 | a core's character tells for each of its threads whether it failed |
| FailureMask.SplitJoin | framework/topology.cpp:1470-1478 | splitting at colons inverts the joining |
| FailureMask.MaskRoundTrip | framework/topology.cpp:1410-1479 | the mask and the topology determine the failed threads |
| FailureMask.BuildFailureMask | framework/topology.cpp:1410-1479 | empty if and only if nothing failed, otherwise the masks of all packages, padded and joined |
| FailureMask.MaskTellsCpus | framework/topology.cpp:1410-1479 | for the packages of a CPU array, reading the mask tells of each CPU whether it failed |
| FailureMask.SystemMask | framework/topology.cpp:1410-1479 | empty if and only if there is no topology or no CPU failed, and otherwise it tells exactly the CPUs that failed |
| FrequencyLevels.RefinedStep | framework/frequency_manager.hpp:93-99 | one round keeps the even spacing and doubles the intervals |
| FrequencyLevels.Populate | framework/frequency_manager.hpp:85-105 | after k rounds 2^k + 1 entries between min and max, evenly spaced once sorted, at least as many as asked and no round too many, whichever bound is larger |
| FrequencyLevels.GapsAreQuotients | framework/frequency_manager.hpp:85-105 | every gap is the floor or the ceiling of the span divided by 2^k |
| FrequencyLevels.FrequencyManager.ChangeCoreFrequency | framework/frequency_manager.hpp:240-251 | the index wraps within the levels made |
| FrequencyLevels.FrequencyManager.OneTest | framework/sandstone.cpp:2176-2260 | every test goes through the same levels, from the first on |
| FrequencyLevels.Setup | framework/frequency_manager.hpp:153-177 | for any two frequencies: one level for each whole 100 MHz between them, at most 16, never more than were made; no manager if and only if the maximum is 100 MHz or more below the minimum |
| QueueSchedule.QueueDeviceSchedule.ShuffleQueue | framework/sandstone_opts.cpp:421-432 | whatever the random numbers, the queue is a permutation of the CPUs |
| QueueSchedule.EveryOrder | framework/sandstone_opts.cpp:421-432 | every order of the queue comes out of the shuffle for some random numbers |
| QueueSchedule.QueueDeviceSchedule.Reschedule | framework/sandstone_opts.cpp:399-412 | a call hands out one CPU and keeps the schedule fair |
| QueueSchedule.CountsClose | framework/sandstone_opts.cpp:396-432 | at every moment the choice counts differ by at most one |
| QueueSchedule.ExactlyEven | framework/sandstone_opts.cpp:396-432 | after m times n calls each of n CPUs was chosen exactly m times |
| RandomBits.DrawKeepsUnset | framework/random.cpp:667-686 | a draw keeps the live positions exactly the unset ones |
| RandomBits.DrawnCounts | framework/random.cpp:667-686 | any draws add as many bits as there are draws, all in range |
| RandomBits.DrawBits | framework/random.cpp:665-687 | the loop on the array draws these bits |
| RandomBits.SetRandomBits | framework/random.cpp:652-688 | exactly min(num_bits, bitwidth) ones, all in the low bitwidth bits, for every random stream |
| RandomBits.EveryValuePossible | framework/random.cpp:652-688 | every value with the right number of ones can be drawn |

## Left out

- The registry's non-waitid branch, spawnfd, cleanup, SIGPIPE handling, a reader closing its end early, and the system's own forkfd: kernel-specific.
- Weak memory orders, reuse of process ids and descriptors, and foreign code waiting for the forked children.
- Thread safety of code outside the registry: other code is modelled as one process at a time.
- Overflow of 32-bit counters and of the sums of two frequencies in kHz.
- FrequencyLevels.Setup: a negative level count, which the source compares as an unsigned number so that its loop asks for ever more memory, gives no manager.
- FrequencyLevels.FrequencyManager.ChangeCoreFrequency: needs at least one level (a span of 100 MHz), since the source divides by the level count.
- CpuSetParam.ApplyCpuset: works on tokens already parsed; strtok and strtol are not modelled. With two CPUs of the same number only the first would be taken.
- TestRunning.TestRunner.RunAll: the order in which tests come up and the clock are inputs; the fracture loop counts do not affect results.
- WaitForChildren.ChildrenList.WaitForChildren: the Windows branch, log messages and debugger hooks are not modelled, and the clock is the list of polls before each deadline.
- LogRecords.PrintThreadMessages: says which records are printed, not how they are formatted.
- BarrierDeviceSchedule: after a member finishes, later calls use indices that have shifted, so no whole-run invariant holds.
- The per-CPU failure bitmap and analyze_test_failures: only log text depends on them.
- background_scan_wait, uncore frequency cycling, the detection code for CPUs and NUMA nodes, and the Windows branches: foreign calls and I/O.
- Half-precision conversions, option parsing, usage text, log formatting, OpenSSL tables, generated vectors, context dumps and headers for KVM and AMX: data, plumbing or easy members.
