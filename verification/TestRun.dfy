/** From thread records and exit statuses to the result of an attempt and the exit code of the run. */
module TestRun {
  import opened TestResults
  import opened RunOutcomes
  import W = WaitForChildren
  import opened TestRunning

  // ---------------------------------------------------------------------------------------------
  // One attempt
  // ---------------------------------------------------------------------------------------------

  datatype ThreadRecord = ThreadRecord(failed: bool, skipped: bool)

  /** What one attempt leaves behind: the exit status of each slice's child, the main-thread
      records and the test-thread records. */
  datatype Attempt = Attempt(exits: seq<ChildExitStatus>, mains: seq<ThreadRecord>, tests: seq<ThreadRecord>)

  /** There is a slice, every slice has a CPU and every CPU has a record; and an interrupted run does
      not get here. */
  predicate AttemptOk(a: Attempt) {
    && 0 < |a.exits| <= |a.tests|
    && forall i :: 0 <= i < |a.exits| ==> !a.exits[i].result.Interrupted?
  }

  /** std::max_element: where the first of the most serious results is. */
  function MostSerious(exits: seq<ChildExitStatus>): (k: nat)
    requires exits != []
    ensures k < |exits|
  {
    if |exits| == 1 then 0
    else
      var last := |exits| - 1;
      var k := MostSerious(exits[..last]);
      if Rank(exits[k].result) < Rank(exits[last].result) then last else k
  }

  lemma {:induction false} MostSeriousIsFirstMax(exits: seq<ChildExitStatus>)
    requires exits != []
    ensures var k := MostSerious(exits);
            && (forall i :: 0 <= i < |exits| ==> Rank(exits[i].result) <= Rank(exits[k].result))
            && (forall i :: 0 <= i < k ==> Rank(exits[i].result) < Rank(exits[k].result))
  {
    if |exits| > 1 {
      var before := exits[..|exits| - 1];
      MostSeriousIsFirstMax(before);
      assert forall i :: 0 <= i < |before| ==> exits[i] == before[i];
    }
  }

  function Worst(a: Attempt): TestResult
    requires AttemptOk(a)
  {
    a.exits[MostSerious(a.exits)].result
  }

  /** The main-thread records in use: one for each slice of this attempt. */
  function MainsInUse(a: Attempt): seq<ThreadRecord> {
    if |a.exits| < |a.mains| then a.mains[..|a.exits|] else a.mains
  }

  predicate AnyFailed(records: seq<ThreadRecord>) {
    exists i :: 0 <= i < |records| && records[i].failed
  }

  /** A thread of some slice was marked as failed. */
  predicate ThreadFailed(a: Attempt) {
    AnyFailed(MainsInUse(a)) || AnyFailed(a.tests)
  }

  predicate AllSkipped(records: seq<ThreadRecord>) {
    forall i :: 0 <= i < |records| ==> records[i].skipped
  }

  /** Some slice ended with this result. */
  ghost predicate Has(a: Attempt, r: TestResult) {
    exists i :: 0 <= i < |a.exits| && a.exits[i].result == r
  }

  /** A thread record of the attempt, of a slice's main thread or of a CPU, is marked as failed. */
  ghost predicate RecordFailed(a: Attempt) {
    || (exists i :: 0 <= i < |a.mains| && i < |a.exits| && a.mains[i].failed)
    || (exists i :: 0 <= i < |a.tests| && a.tests[i].failed)
  }

  /** Some slice had a problem that ends the program unless it is ignored. */
  ghost predicate Ending(a: Attempt) {
    Has(a, TimedOut) || Has(a, OutOfMemory) || Has(a, OperatingSystemError)
  }

  ghost predicate Crashed(a: Attempt) {
    Has(a, CoreDumped) || Has(a, Killed)
  }

  /** No slice has a serious result and no thread failed. */
  ghost predicate Clean(a: Attempt) {
    !Ending(a) && !Crashed(a) && !Has(a, Failed) && !RecordFailed(a)
  }

  /** When an attempt has a result, told by the exits of its slices and its records. */
  ghost predicate Means(a: Attempt, r: TestResult) {
    match r
    case TimedOut => Has(a, TimedOut)
    case OutOfMemory => Has(a, OutOfMemory) && !Has(a, TimedOut)
    case OperatingSystemError => Has(a, OperatingSystemError) && !Has(a, OutOfMemory) && !Has(a, TimedOut)
    case CoreDumped => Has(a, CoreDumped) && !Ending(a)
    case Killed => Has(a, Killed) && !Has(a, CoreDumped) && !Ending(a)
    case Failed => !Ending(a) && !Crashed(a) && (Has(a, Failed) || RecordFailed(a))
    case Passed => Clean(a) && Has(a, Passed) && exists i :: 0 <= i < |a.tests| && !a.tests[i].skipped
    case Skipped => Clean(a) && (!Has(a, Passed) || forall i :: 0 <= i < |a.tests| ==> a.tests[i].skipped)
    case Interrupted => false
  }

  /** What the result of an attempt should be. */
  function ResultOf(a: Attempt): TestResult
    requires AttemptOk(a)
  {
    if Rank(Worst(a)) > Rank(Passed) then Worst(a)
    else if ThreadFailed(a) then Failed
    else if Worst(a).Skipped? || AllSkipped(a.tests) then Skipped
    else Passed
  }

  lemma RecordFailedIff(a: Attempt)
    ensures ThreadFailed(a) <==> RecordFailed(a)
  {
    var mains := MainsInUse(a);
    if RecordFailed(a) && !AnyFailed(a.tests) {
      var i :| 0 <= i < |a.mains| && i < |a.exits| && a.mains[i].failed;
      assert mains[i].failed;
    }
  }

  lemma WorstIs(a: Attempt)
    requires AttemptOk(a)
    ensures Has(a, Worst(a)) && forall r :: Has(a, r) ==> Rank(r) <= Rank(Worst(a))
    ensures !Has(a, Interrupted)
  {
    MostSeriousIsFirstMax(a.exits);
  }

  /** The result of an attempt. */
  lemma ResultMeans(a: Attempt)
    requires AttemptOk(a)
    ensures forall r :: ResultOf(a) == r <==> Means(a, r)
  {
    WorstIs(a);
    RecordFailedIff(a);
    OnlyOneMeant(a);
    assert Means(a, ResultOf(a));
  }

  lemma OnlyOneMeant(a: Attempt)
    ensures forall r, r' :: Means(a, r) && Means(a, r') ==> r == r'
  {
  }

  /** The AbstractLogger constructor. */
  method Classify(a: Attempt) returns (result: TestResult)
    requires AttemptOk(a)
    ensures result == ResultOf(a) && Means(a, result)
  {
    ResultMeans(a);
    result := Worst(a);
    if !result.Skipped? && !result.Passed? {
      return;
    }
    ghost var worst := result;
    var pc, sc := 0, 0;
    var mains := MainsInUse(a);
    for i := 0 to |mains|
      invariant result == if AnyFailed(mains[..i]) then Failed else worst
    {
      TestsStep(mains, i);
      if mains[i].failed {
        result := Failed;
      }
    }
    assert mains[..|mains|] == mains;
    for i := 0 to |a.tests|
      invariant result == if AnyFailed(mains) || AnyFailed(a.tests[..i]) then Failed else worst
      invariant sc <= pc && (!AnyFailed(a.tests[..i]) ==> (pc == sc <==> AllSkipped(a.tests[..i])))
    {
      TestsStep(a.tests, i);
      if a.tests[i].failed {
        result := Failed;
      } else {
        pc := pc + 1;
        if a.tests[i].skipped {
          sc := sc + 1;
        }
      }
    }
    assert a.tests[..|a.tests|] == a.tests;
    if result.Passed? && pc == sc {
      result := Skipped;
    }
  }

  lemma TestsStep(tests: seq<ThreadRecord>, i: nat)
    requires i < |tests|
    ensures AnyFailed(tests[..i + 1]) <==> AnyFailed(tests[..i]) || tests[i].failed
    ensures AllSkipped(tests[..i + 1]) <==> AllSkipped(tests[..i]) && tests[i].skipped
  {
    assert tests[..i + 1] == tests[..i] + [tests[i]];
  }

  predicate EndsRun(r: TestResult) {
    r.OperatingSystemError? || r.TimedOut? || r.OutOfMemory?
  }

  function OnceOf(a: Attempt, ignoreOsErrors: bool): Once
    requires AttemptOk(a)
  {
    var r := ResultOf(a);
    if !EndsRun(r) then Result(r) else if ignoreOsErrors then Result(Skipped) else Invalid
  }

  /** The attempt counts against the run. */
  ghost predicate Bad(a: Attempt, ignoreOsErrors: bool)
    requires AttemptOk(a)
  {
    Counts(OnceOf(a, ignoreOsErrors))
  }

  /** What an attempt gives to the run. */
  lemma OnceMeans(a: Attempt, ignore: bool)
    requires AttemptOk(a)
    ensures OnceOf(a, ignore) == Invalid <==> Ending(a) && !ignore
    ensures OnceOf(a, ignore) == Result(Skipped) <==> Means(a, Skipped) || (Ending(a) && ignore)
    ensures forall r :: r != Skipped ==> (OnceOf(a, ignore) == Result(r) <==> Means(a, r) && !Ending(a))
  {
    ResultMeans(a);
    EndingIff(a);
  }

  lemma EndingIff(a: Attempt)
    requires AttemptOk(a)
    ensures Ending(a) <==> EndsRun(ResultOf(a))
  {
    ResultMeans(a);
    if Has(a, TimedOut) { assert Means(a, TimedOut); }
    else if Has(a, OutOfMemory) { assert Means(a, OutOfMemory); }
    else if Has(a, OperatingSystemError) { assert Means(a, OperatingSystemError); }
  }

  /** When an attempt counts against the run. */
  lemma BadMeans(a: Attempt, ignore: bool)
    requires AttemptOk(a)
    ensures Bad(a, ignore) <==> if Ending(a) then !ignore else Crashed(a) || Has(a, Failed) || RecordFailed(a)
  {
    OnceMeans(a, ignore);
    ResultMeans(a);
    EndingIff(a);
    assert Means(a, ResultOf(a));
  }

  /** The death of a child, or that none was reported, ends the program. */
  predicate EndingDeath(death: W.Option<ExitInfo>) {
    match death
    case None => true
    case Some(info) => DiedOf(info, SIGKILL) || DiedOf(info, SIGQUIT) || (info.death.Exited? && info.status % 256 !in {0, 1, 255})
  }

  /** A child that died of a signal makes the attempt count, whatever is ignored, if no other child's
      death ends the program. The exits are what waiting for the children gave. */
  lemma CrashCounts(a: Attempt, polls: seq<W.Poll>, i: nat, info: ExitInfo, ignore: bool)
    requires AttemptOk(a) && forall j :: 0 <= j < |a.exits| ==> a.exits[j] == W.ResultOf(W.FirstDeath(polls, j))
    requires i < |a.exits| && W.FirstDeath(polls, i) == W.Some(info) && DiedOfOther(info)
    requires forall j :: 0 <= j < |a.exits| ==> !EndingDeath(W.FirstDeath(polls, j))
    ensures Bad(a, ignore)
  {
    DeathMeans(info);
    forall j | 0 <= j < |a.exits| ensures a.exits[j].result !in {TimedOut, OutOfMemory, OperatingSystemError} {
      DeathMeans(W.FirstDeath(polls, j).value);
    }
    assert a.exits[i].result == if info.death.KilledBy? then Killed else CoreDumped;
    BadMeans(a, ignore);
  }

  /** A failed thread counts against the run unless the attempt's most serious exit status is an
      error that is ignored. */
  lemma FailureCountsIff(a: Attempt, ignoreOsErrors: bool)
    requires AttemptOk(a) && ThreadFailed(a)
    ensures Bad(a, ignoreOsErrors) <==> !(ignoreOsErrors && EndsRun(Worst(a)))
  {
  }

  /** Two slices of one CPU each: a thread of the first failed, the second hung. */
  const HUNG := Attempt([ChildExitStatus(Failed, 0), ChildExitStatus(TimedOut, 0)],
                        [ThreadRecord(false, false), ThreadRecord(false, false)],
                        [ThreadRecord(true, false), ThreadRecord(false, false)])

  /** With errors ignored, a hung child hides the failure of another child's thread. */
  lemma IgnoredTimeoutHidesFailure()
    ensures AttemptOk(HUNG) && ThreadFailed(HUNG) && !Bad(HUNG, true) && Bad(HUNG, false)
  {
    assert HUNG.tests[0].failed && HUNG.exits[1].result == TimedOut;
    MostSeriousIsFirstMax(HUNG.exits);
  }

  /** run_one_test_once: the result of an attempt, unless it ends the program. */
  method RunOneTestOnce(a: Attempt, ignoreOsErrors: bool) returns (once: Once)
    requires AttemptOk(a)
    ensures once == OnceOf(a, ignoreOsErrors)
    ensures once == Invalid <==> Ending(a) && !ignoreOsErrors
    ensures once.Result? ==> Means(a, once.result) || (once == Result(Skipped) && Ending(a))
  {
    OnceMeans(a, ignoreOsErrors);
    var result := Classify(a);
    if result.OperatingSystemError? || result.TimedOut? || result.OutOfMemory? {
      if !ignoreOsErrors {
        return Invalid;
      }
      result := Skipped;
    }
    return Result(result);
  }

  // ---------------------------------------------------------------------------------------------
  // The run
  // ---------------------------------------------------------------------------------------------

  lemma HungIsOk()
    ensures AttemptOk(HUNG)
  {
  }

  /** An attempt that was made. */
  type Made = a: Attempt | AttemptOk(a) witness (HungIsOk(); HUNG)

  /** Every attempt with a failed thread ended in an error that is ignored. */
  ghost predicate OnlyIgnored(attempts: seq<Made>, ignore: bool) {
    forall i :: 0 <= i < |attempts| && ThreadFailed(attempts[i]) ==> ignore && EndsRun(Worst(attempts[i]))
  }

  /** Some attempt ends the program. */
  ghost predicate AnyEnds(attempts: seq<Made>, ignore: bool) {
    exists i :: 0 <= i < |attempts| && OnceOf(attempts[i], ignore) == Invalid
  }

  function Giving(ignore: bool): Made -> Once {
    (a: Made) => OnceOf(a, ignore)
  }

  lemma IgnoredIfNoHit(attempts: seq<Made>, ignore: bool)
    requires !AnyHit(Outcomes(attempts, Giving(ignore)), false)
    ensures OnlyIgnored(attempts, ignore)
  {
    var outs := Outcomes(attempts, Giving(ignore));
    forall i | 0 <= i < |attempts| && ThreadFailed(attempts[i]) ensures ignore && EndsRun(Worst(attempts[i])) {
      assert outs[i] == OnceOf(attempts[i], ignore) && !Hits(outs[i], false);
      FailureCountsIff(attempts[i], ignore);
    }
  }

  lemma EndsAreHits(attempts: seq<Made>, ignore: bool)
    ensures AnyEnds(attempts, ignore) <==> AnyHit(Outcomes(attempts, Giving(ignore)), true)
  {
    var outs := Outcomes(attempts, Giving(ignore));
    assert forall i :: 0 <= i < |attempts| ==> outs[i] == OnceOf(attempts[i], ignore);
    if AnyEnds(attempts, ignore) {
      var i :| 0 <= i < |attempts| && OnceOf(attempts[i], ignore) == Invalid;
      assert Hits(outs[i], true);
    }
  }

  /** No failure is masked: when the program ends with success, every attempt of the run with a
      failed thread ended in an error that is ignored. */
  lemma FailureIsNeverMasked(tests: seq<TestCase<Made>>, opts: Options, ignore: bool, retest: nat, total: int, steps: seq<Step>)
    requires RunOk(Cases(tests, Giving(ignore)), opts, retest, total, steps) && ExitCode(steps, opts) == EXIT_SUCCESS
    ensures OnlyIgnored(AttemptsOf(tests, steps), ignore)
  {
    SuccessIff(Cases(tests, Giving(ignore)), opts, retest, total, steps);
    OutcomesOfRun(tests, steps, Giving(ignore));
    IgnoredIfNoHit(AttemptsOf(tests, steps), ignore);
  }

  /** The program is ended by an attempt if and only if some attempt of the run ends it. */
  lemma EndIff(tests: seq<TestCase<Made>>, opts: Options, ignore: bool, retest: nat, total: int, steps: seq<Step>)
    requires RunOk(Cases(tests, Giving(ignore)), opts, retest, total, steps)
    ensures ExitCode(steps, opts) == EXIT_INVALID <==> AnyEnds(AttemptsOf(tests, steps), ignore)
  {
    InvalidIff(Cases(tests, Giving(ignore)), opts, retest, total, steps);
    OutcomesOfRun(tests, steps, Giving(ignore));
    EndsAreHits(AttemptsOf(tests, steps), ignore);
  }

  /** The attempt passes. */
  ghost predicate Passes(a: Attempt) {
    Means(a, Passed)
  }

  /** The attempt is skipped, or ends in an error that is ignored. */
  ghost predicate IsSkipped(a: Attempt, ignore: bool) {
    Means(a, Skipped) || (Ending(a) && ignore)
  }

  /** All normal runs of the test pass. */
  ghost predicate TestPasses(c: TestCase<Made>) {
    forall i :: 0 <= i < |c.fractures| ==> Passes(c.fractures[i])
  }

  /** The first normal run that does not pass is skipped. */
  ghost predicate TestSkips(c: TestCase<Made>, ignore: bool) {
    exists k :: 0 <= k < |c.fractures| && SkipsAt(c, ignore, k)
  }

  ghost predicate SkipsAt(c: TestCase<Made>, ignore: bool, k: nat)
    requires k < |c.fractures|
  {
    IsSkipped(c.fractures[k], ignore) && forall i :: 0 <= i < k ==> Passes(c.fractures[i])
  }

  /** Outcome `i` tells whether normal run `i` passed or was skipped. */
  ghost predicate Tells(c: TestCase<Made>, outs: seq<Once>, ignore: bool, i: nat)
    requires i < |c.fractures| == |outs|
  {
    && (outs[i] == Result(Passed) <==> Passes(c.fractures[i]))
    && (outs[i] == Result(Skipped) <==> IsSkipped(c.fractures[i], ignore))
  }

  lemma AttemptGives(a: Attempt, ignore: bool)
    requires AttemptOk(a)
    ensures OnceOf(a, ignore) == Result(Passed) <==> Passes(a)
    ensures OnceOf(a, ignore) == Result(Skipped) <==> IsSkipped(a, ignore)
  {
    OnceMeans(a, ignore);
  }

  lemma TestPassesIff(c: TestCase<Made>, ignore: bool)
    ensures AllPass(CaseOf(c, Giving(ignore))) <==> TestPasses(c)
    ensures FirstIs(CaseOf(c, Giving(ignore)), Result(Skipped)) <==> TestSkips(c, ignore)
  {
    var runs := CaseOf(c, Giving(ignore));
    forall i | 0 <= i < |c.fractures| ensures Tells(c, runs.fractures, ignore, i) { AttemptGives(c.fractures[i], ignore); }
    AllPassIff(c, runs, ignore);
    SkipsIff(c, runs, ignore);
  }

  lemma AllPassIff(c: TestCase<Made>, k: Case, ignore: bool)
    requires |c.fractures| == |k.fractures| && forall i :: 0 <= i < |c.fractures| ==> Tells(c, k.fractures, ignore, i)
    ensures AllPass(k) <==> TestPasses(c)
  {
    if AllPass(k) {
      forall i | 0 <= i < |c.fractures| ensures Passes(c.fractures[i]) { assert Tells(c, k.fractures, ignore, i); }
    }
    if TestPasses(c) {
      forall i | 0 <= i < |c.fractures| ensures k.fractures[i] == Result(Passed) { assert Tells(c, k.fractures, ignore, i); }
    }
  }

  lemma SkipsIff(c: TestCase<Made>, k: Case, ignore: bool)
    requires |c.fractures| == |k.fractures| && forall i :: 0 <= i < |c.fractures| ==> Tells(c, k.fractures, ignore, i)
    ensures FirstIs(k, Result(Skipped)) <==> TestSkips(c, ignore)
  {
    forall n | 0 <= n < |c.fractures|
      ensures k.fractures[n] == Result(Skipped) && PassBefore(k, n) <==> SkipsAt(c, ignore, n)
    {
      assert Tells(c, k.fractures, ignore, n);
      PassBeforeIff(c, k, ignore, n);
    }
  }

  lemma PassBeforeIff(c: TestCase<Made>, k: Case, ignore: bool, n: nat)
    requires |c.fractures| == |k.fractures| && forall i :: 0 <= i < |c.fractures| ==> Tells(c, k.fractures, ignore, i)
    requires n <= |c.fractures|
    ensures PassBefore(k, n) <==> forall i :: 0 <= i < n ==> Passes(c.fractures[i])
  {
    forall i | 0 <= i < n ensures k.fractures[i] == Result(Passed) <==> Passes(c.fractures[i]) { assert Tells(c, k.fractures, ignore, i); }
  }

  /** Those of the first `n` tests that pass. */
  ghost function Successes(tests: seq<TestCase<Made>>, n: nat): set<nat>
    requires n <= |tests|
  {
    set j: nat | j < n && TestPasses(tests[j])
  }

  ghost function Skips(tests: seq<TestCase<Made>>, ignore: bool, n: nat): set<nat>
    requires n <= |tests|
  {
    set j: nat | j < n && TestSkips(tests[j], ignore)
  }

  /** A test counts as a success just if all its normal runs pass, and as skipped just if the first that
      does not pass is skipped. */
  lemma CountersTell(tests: seq<TestCase<Made>>, opts: Options, ignore: bool, retest: nat, total: int, steps: seq<Step>)
    requires RunOk(Cases(tests, Giving(ignore)), opts, retest, total, steps)
    ensures |steps| <= |tests|
    ensures Tally(steps).successes == |Successes(tests, |steps|)| && Tally(steps).skips == |Skips(tests, ignore, |steps|)|
  {
    CountersMean(Cases(tests, Giving(ignore)), opts, retest, total, steps);
    SameSuccesses(tests, ignore, |steps|);
    SameSkips(tests, ignore, |steps|);
  }

  lemma SameSuccesses(tests: seq<TestCase<Made>>, ignore: bool, n: nat)
    requires n <= |tests|
    ensures Passing(Cases(tests, Giving(ignore)), n) == Successes(tests, n)
  {
    var cases := Cases(tests, Giving(ignore));
    forall j: nat | j < n ensures j in Passing(cases, n) <==> j in Successes(tests, n) { TestPassesIff(tests[j], ignore); }
  }

  lemma SameSkips(tests: seq<TestCase<Made>>, ignore: bool, n: nat)
    requires n <= |tests|
    ensures Skipping(Cases(tests, Giving(ignore)), n) == Skips(tests, ignore, n)
  {
    var cases := Cases(tests, Giving(ignore));
    forall j: nat | j < n ensures j in Skipping(cases, n) <==> j in Skips(tests, ignore, n) { TestPassesIff(tests[j], ignore); }
  }

  /** The budget in force. */
  ghost function Budget(retestCount: nat, totalRetestCount: int): int {
    if totalRetestCount < -1 || retestCount == 0 then 10 * retestCount else totalRetestCount
  }

  /** A whole run of the program: its exit code, its counters and the attempts it makes. */
  method RunProgram(tests: seq<TestCase<Made>>, opts: Options, retestCount: nat, totalRetestCount: int, ignoreOsErrors: bool)
    returns (exit: int, sum: Totals, history: seq<Made>, ghost steps: seq<Step>)
    requires CasesOk(tests, retestCount)
    ensures Complete(Cases(tests, Giving(ignoreOsErrors)), opts, retestCount, Budget(retestCount, totalRetestCount), steps)
    ensures history == AttemptsOf(tests, steps) && sum == Tally(steps) && exit == ExitCode(steps, opts)
    ensures exit == EXIT_SUCCESS ==> OnlyIgnored(history, ignoreOsErrors)
    ensures exit == EXIT_INVALID <==> AnyEnds(history, ignoreOsErrors)
    ensures |steps| <= |tests| && sum.successes == |Successes(tests, |steps|)| && sum.skips == |Skips(tests, ignoreOsErrors, |steps|)|
  {
    var runner := new TestRunner(retestCount, totalRetestCount, Giving(ignoreOsErrors));
    exit, sum, steps := runner.RunAll(tests, opts);
    history := runner.history;
    ghost var total := Budget(retestCount, totalRetestCount);
    EndIff(tests, opts, ignoreOsErrors, retestCount, total, steps);
    CountersTell(tests, opts, ignoreOsErrors, retestCount, total, steps);
    if exit == EXIT_SUCCESS { FailureIsNeverMasked(tests, opts, ignoreOsErrors, retestCount, total, steps); }
  }
}
