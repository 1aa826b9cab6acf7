/** A run in terms of what its attempts give: how often each test is run and retried, and what that
    means for the counters and the exit code of the program. */
module RunOutcomes {
  import opened TestResults

  /** The result of an attempt for the run: some results end the program instead. */
  datatype Once = Result(result: TestResult) | Invalid

  /** The outcome ends the program, or (unless only that is asked for) is worse than a pass. */
  predicate Hits(once: Once, ends: bool) {
    once.Invalid? || (!ends && Rank(once.result) > Rank(Passed))
  }

  /** The outcome counts against the run. */
  predicate Counts(once: Once) {
    Hits(once, false)
  }

  // ---------------------------------------------------------------------------------------------
  // How many retries
  // ---------------------------------------------------------------------------------------------

  /** Some of the first `n` outcomes counts as a failure. */
  ghost predicate FailsWithin(outs: seq<Once>, n: nat) {
    exists k :: 0 <= k < n && k < |outs| && Counts(outs[k])
  }

  /** The first failure is the `f`-th outcome. */
  ghost predicate FirstFail(outs: seq<Once>, f: nat) {
    1 <= f <= |outs| && Counts(outs[f - 1]) && !FailsWithin(outs, f - 1)
  }

  /** How many retries a first failure calls for, when retries would have these outcomes. */
  ghost predicate RetriesNeeded(outs: seq<Once>, retest: nat, n: nat) {
    if !FailsWithin(outs, 2 * retest) then n == 2 * retest
    else exists f: nat :: FirstFail(outs, f) && n == if f > retest then f else retest
  }

  function Min(budget: int, needed: nat): nat {
    if 0 <= budget < needed then budget else needed
  }

  /** As many retries as the failure calls for, or as the budget allows if that is less. */
  ghost predicate RetriesExact(outs: seq<Once>, retest: nat, budget: int, made: nat) {
    exists needed: nat :: RetriesNeeded(outs, retest, needed) && made == Min(budget, needed)
  }

  lemma {:induction false} HasFirstFail(outs: seq<Once>, n: nat) returns (f: nat)
    requires FailsWithin(outs, n)
    ensures FirstFail(outs, f) && f <= n
    decreases n
  {
    if FailsWithin(outs, n - 1) {
      f := HasFirstFail(outs, n - 1);
    } else {
      f := n;
    }
  }

  lemma NeededExists(outs: seq<Once>, retest: nat) returns (n: nat)
    ensures RetriesNeeded(outs, retest, n) && retest <= n <= 2 * retest
  {
    n := 2 * retest;
    if FailsWithin(outs, 2 * retest) {
      var f := HasFirstFail(outs, 2 * retest);
      n := if f > retest then f else retest;
    }
  }

  /** Only one number is exact. */
  lemma ExactIsUnique(outs: seq<Once>, retest: nat, budget: int, made: nat, made': nat)
    requires RetriesExact(outs, retest, budget, made) && RetriesExact(outs, retest, budget, made')
    ensures made == made'
  {
    var n: nat :| RetriesNeeded(outs, retest, n) && made == Min(budget, n);
    var n': nat :| RetriesNeeded(outs, retest, n') && made' == Min(budget, n');
    if FailsWithin(outs, 2 * retest) {
      var f: nat :| FirstFail(outs, f) && n == if f > retest then f else retest;
      var f': nat :| FirstFail(outs, f') && n' == if f' > retest then f' else retest;
      assert f == f';
    }
  }

  /** Double the regular count if only the original run has failed. */
  function RetryLimit(retest: nat, failCount: nat): nat {
    if failCount == 1 then 2 * retest else retest
  }

  /** The number of retries, by the loop's own rule. */
  ghost function RetryCount(outs: seq<Once>, retest: nat, budget: int, iterations: nat, failCount: nat): int
    requires iterations >= 1
    decreases 2 * retest + 1 - iterations
  {
    if budget != 0 && iterations <= RetryLimit(retest, failCount) then
      RetryCount(outs, retest, if budget > 0 then budget - 1 else budget, iterations + 1,
                 if iterations <= |outs| && Counts(outs[iterations - 1]) then failCount + 1 else failCount)
    else iterations - 1
  }

  lemma {:induction false} RetryCountGrows(outs: seq<Once>, retest: nat, budget: int, iterations: nat, failCount: nat)
    requires iterations >= 1
    ensures RetryCount(outs, retest, budget, iterations, failCount) >= iterations - 1
    decreases 2 * retest + 1 - iterations
  {
    if budget != 0 && iterations <= RetryLimit(retest, failCount) {
      RetryCountGrows(outs, retest, if budget > 0 then budget - 1 else budget, iterations + 1,
                      if iterations <= |outs| && Counts(outs[iterations - 1]) then failCount + 1 else failCount);
    }
  }

  /** A retry that the loop makes is one of those counted. */
  lemma RetryCountStep(outs: seq<Once>, retest: nat, budget: int, iterations: nat, failCount: nat)
    requires iterations >= 1 && budget != 0 && iterations <= RetryLimit(retest, failCount)
    ensures var fails := if iterations <= |outs| && Counts(outs[iterations - 1]) then failCount + 1 else failCount;
            RetryCount(outs, retest, budget, iterations, failCount)
            == RetryCount(outs, retest, if budget > 0 then budget - 1 else budget, iterations + 1, fails) >= iterations
  {
    var fails := if iterations <= |outs| && Counts(outs[iterations - 1]) then failCount + 1 else failCount;
    RetryCountGrows(outs, retest, if budget > 0 then budget - 1 else budget, iterations + 1, fails);
  }

  lemma {:induction false} RetryCountExact(outs: seq<Once>, retest: nat, total: int, budget: int,
                                           iterations: nat, failCount: nat, needed: nat)
    requires RetriesNeeded(outs, retest, needed) && 1 <= iterations <= needed + 1 && failCount >= 1
    requires failCount == 1 <==> !FailsWithin(outs, iterations - 1)
    requires if total >= 0 then budget == total - (iterations - 1) >= 0 else budget == total
    ensures var made := RetryCount(outs, retest, budget, iterations, failCount);
            made >= 0 && RetriesExact(outs, retest, total, made)
    decreases 2 * retest + 1 - iterations
  {
    if budget != 0 && iterations <= RetryLimit(retest, failCount) {
      FailsStep(outs, iterations - 1);
      NeedsMore(outs, retest, needed, iterations - 1);
      RetryCountExact(outs, retest, total, if budget > 0 then budget - 1 else budget, iterations + 1,
                      if iterations <= |outs| && Counts(outs[iterations - 1]) then failCount + 1 else failCount, needed);
    } else {
      EnoughMade(outs, retest, total, needed, iterations - 1);
    }
  }

  /** The whole loop makes the exact number of retries, and no other number is exact. */
  lemma LoopIsExact(outs: seq<Once>, retest: nat, budget: int)
    ensures forall made: nat :: RetriesExact(outs, retest, budget, made) <==> made == RetryCount(outs, retest, budget, 1, 1)
  {
    var needed := NeededExists(outs, retest);
    RetryCountExact(outs, retest, budget, budget, 1, 1, needed);
    var made: nat := RetryCount(outs, retest, budget, 1, 1);
    forall other: nat | RetriesExact(outs, retest, budget, other) ensures other == made {
      ExactIsUnique(outs, retest, budget, made, other);
    }
  }

  lemma FailsStep(outs: seq<Once>, n: nat)
    ensures FailsWithin(outs, n + 1) <==> FailsWithin(outs, n) || (n < |outs| && Counts(outs[n]))
  {
  }

  /** While the loop goes on, more retries are needed. */
  lemma NeedsMore(outs: seq<Once>, retest: nat, needed: nat, made: nat)
    requires RetriesNeeded(outs, retest, needed)
    requires made + 1 <= if !FailsWithin(outs, made) then 2 * retest else retest
    ensures made + 1 <= needed
  {
  }

  /** When the loop stops, the budget is used up or enough retries were made. */
  lemma EnoughMade(outs: seq<Once>, retest: nat, budget: int, needed: nat, made: nat)
    requires RetriesNeeded(outs, retest, needed) && made <= needed && (budget >= 0 ==> made <= budget)
    requires budget == made || made + 1 > if !FailsWithin(outs, made) then 2 * retest else retest
    ensures RetriesExact(outs, retest, budget, made)
  {
    assert made == Min(budget, needed);
  }

  // ---------------------------------------------------------------------------------------------
  // One test
  // ---------------------------------------------------------------------------------------------

  /** What the attempts of one test give: its normal runs, up to the one after which its time is up,
      and its retries, as many as can be made; and whether the pause before it is interrupted. */
  datatype Case = Case(fractures: seq<Once>, retries: seq<Once>, interrupted: bool)

  /** What was done about one test: its outcome, its normal runs and its retries. */
  datatype Step = Step(once: Once, n: nat, made: nat)

  /** The normal runs end with run `n`: the first that did not pass, or the last. */
  ghost predicate Ran(outs: seq<Once>, n: nat) {
    && 0 < n <= |outs|
    && (forall i :: 0 <= i < n - 1 ==> outs[i] == Result(Passed))
    && (outs[n - 1] == Result(Passed) ==> n == |outs|)
  }

  /** The retries go on to the exact number, or to the first one that ends the program if that comes
      earlier. */
  ghost predicate Retried(outs: seq<Once>, retest: nat, budget: int, invalid: bool, made: nat) {
    && made <= |outs|
    && (invalid <==> made > 0 && outs[made - 1].Invalid?)
    && (forall k :: 0 <= k < made - 1 ==> !outs[k].Invalid?)
    && exists exact: nat :: RetriesExact(outs, retest, budget, exact) && made <= exact && (invalid || made == exact)
  }

  lemma AllRetried(outs: seq<Once>, retest: nat, budget: int, made: nat)
    requires made == RetryCount(outs, retest, budget, 1, 1) && made <= |outs|
    requires forall k :: 0 <= k < made ==> !outs[k].Invalid?
    ensures Retried(outs, retest, budget, false, made)
  {
    LoopIsExact(outs, retest, budget);
    assert RetriesExact(outs, retest, budget, made);
  }

  lemma RetriesEnded(outs: seq<Once>, retest: nat, budget: int, made: nat)
    requires 0 < made <= RetryCount(outs, retest, budget, 1, 1) && made <= |outs| && outs[made - 1].Invalid?
    requires forall k :: 0 <= k < made - 1 ==> !outs[k].Invalid?
    ensures Retried(outs, retest, budget, true, made)
  {
    var exact: nat := RetryCount(outs, retest, budget, 1, 1);
    LoopIsExact(outs, retest, budget);
    assert RetriesExact(outs, retest, budget, exact);
  }

  /** Retries come only after a normal run that failed; then the test has failed or the program was
      ended. Otherwise the last normal run decides. */
  ghost predicate TestOk(c: Case, retest: nat, budget: int, s: Step) {
    && Ran(c.fractures, s.n)
    && var first := c.fractures[s.n - 1];
       if first.Result? && Counts(first) then
         (s.once == Invalid || s.once == Result(Failed)) && Retried(c.retries, retest, budget, s.once == Invalid, s.made)
       else s.once == first && s.made == 0
  }

  ghost predicate AnyHit(outs: seq<Once>, ends: bool) {
    exists i :: 0 <= i < |outs| && Hits(outs[i], ends)
  }

  lemma AnyHitConcat(a: seq<Once>, b: seq<Once>, ends: bool)
    ensures AnyHit(a + b, ends) <==> AnyHit(a, ends) || AnyHit(b, ends)
  {
    if AnyHit(a, ends) {
      var i :| 0 <= i < |a| && Hits(a[i], ends);
      assert (a + b)[i] == a[i];
    }
    if AnyHit(b, ends) {
      var i :| 0 <= i < |b| && Hits(b[i], ends);
      assert (a + b)[|a| + i] == b[i];
    }
  }

  /** The outcomes of the attempts made for one test. */
  ghost function OutcomesIn(c: Case, s: Step): seq<Once> {
    if s.n <= |c.fractures| && s.made <= |c.retries| then c.fractures[..s.n] + c.retries[..s.made] else []
  }

  /** Normal runs before the last one passed, so the last one decides. */
  lemma LastDecides(outs: seq<Once>, n: nat, ends: bool)
    requires Ran(outs, n)
    ensures AnyHit(outs[..n], ends) <==> Hits(outs[n - 1], ends)
  {
    assert Hits(outs[n - 1], ends) ==> Hits(outs[..n][n - 1], ends);
  }

  lemma RetriesEnd(outs: seq<Once>, retest: nat, budget: int, invalid: bool, made: nat)
    requires Retried(outs, retest, budget, invalid, made)
    ensures AnyHit(outs[..made], true) <==> invalid
  {
    if invalid { assert Hits(outs[..made][made - 1], true); }
  }

  /** What one test gives, in terms of its attempts: only three results; the program ended if an
      attempt ends it, and otherwise a failure if an attempt counts. */
  lemma TestMeans(c: Case, retest: nat, budget: int, s: Step)
    requires TestOk(c, retest, budget, s)
    ensures s.once.Result? ==> OwnResult(s.once.result)
    ensures s.once == Invalid <==> AnyHit(OutcomesIn(c, s), true)
    ensures s.once == Invalid || s.once == Result(Failed) <==> AnyHit(OutcomesIn(c, s), false)
  {
    LastDecides(c.fractures, s.n, true);
    LastDecides(c.fractures, s.n, false);
    var first := c.fractures[s.n - 1];
    if first.Result? && Counts(first) {
      RetriesEnd(c.retries, retest, budget, s.once == Invalid, s.made);
      AnyHitConcat(c.fractures[..s.n], c.retries[..s.made], true);
      AnyHitConcat(c.fractures[..s.n], c.retries[..s.made], false);
    } else {
      assert OutcomesIn(c, s) == c.fractures[..s.n];
    }
  }

  lemma RetriedUnique(outs: seq<Once>, retest: nat, budget: int, invalid: bool, made: nat, invalid': bool, made': nat)
    requires Retried(outs, retest, budget, invalid, made) && Retried(outs, retest, budget, invalid', made')
    ensures made == made' && invalid == invalid'
  {
    var exact: nat :| RetriesExact(outs, retest, budget, exact) && made <= exact && (invalid || made == exact);
    var exact': nat :| RetriesExact(outs, retest, budget, exact') && made' <= exact' && (invalid' || made' == exact');
    ExactIsUnique(outs, retest, budget, exact, exact');
  }

  /** What a test gives, and how often it is run and retried, follows from its attempts. */
  lemma TestIsUnique(c: Case, retest: nat, budget: int, s: Step, s': Step)
    requires TestOk(c, retest, budget, s) && TestOk(c, retest, budget, s')
    ensures s == s'
  {
    assert s.n == s'.n;
    var first := c.fractures[s.n - 1];
    if first.Result? && Counts(first) {
      RetriedUnique(c.retries, retest, budget, s.once == Invalid, s.made, s'.once == Invalid, s'.made);
    }
  }

  // ---------------------------------------------------------------------------------------------
  // The whole run
  // ---------------------------------------------------------------------------------------------

  const EXIT_SUCCESS := 0
  const EXIT_FAILURE := 1
  const EXIT_INVALID := 2

  datatype Options = Options(fatalErrors: bool, fatalSkips: bool, maxTestCount: int)

  datatype Totals = Totals(run: nat, failures: nat, successes: nat, skips: nat)

  ghost predicate NoneInvalid(steps: seq<Step>) {
    forall j :: 0 <= j < |steps| ==> steps[j].once.Result? && OwnResult(steps[j].once.result)
  }

  function Count(sum: Totals, result: TestResult): Totals
    requires OwnResult(result)
  {
    var sum := sum.(run := sum.run + 1);
    match result
    case Failed => sum.(failures := sum.failures + 1)
    case Passed => sum.(successes := sum.successes + 1)
    case Skipped => sum.(skips := sum.skips + 1)
  }

  /** The tests counted; one that ends the program is not. */
  ghost function Tally(steps: seq<Step>): Totals {
    if steps == [] then Totals(0, 0, 0, 0)
    else
      var once := steps[|steps| - 1].once;
      var before := Tally(steps[..|steps| - 1]);
      if once.Result? && OwnResult(once.result) then Count(before, once.result) else before
  }

  /** What is left of the budget. */
  ghost function BudgetAfter(total: int, steps: seq<Step>): int {
    if steps == [] || total < 0 then total else BudgetAfter(total, steps[..|steps| - 1]) - steps[|steps| - 1].made
  }

  /** The outcomes of all attempts of the run, test by test. */
  ghost function OutcomesOf(cases: seq<Case>, steps: seq<Step>): seq<Once>
    decreases |steps|
  {
    if steps == [] || |steps| > |cases| then []
    else OutcomesOf(cases, steps[..|steps| - 1]) + OutcomesIn(cases[|steps| - 1], steps[|steps| - 1])
  }

  /** An option stops the run after the `k`-th test. */
  ghost predicate Stops(opts: Options, result: TestResult, k: nat) {
    (result.Failed? && opts.fatalErrors) || (result.Skipped? && opts.fatalSkips) || k >= opts.maxTestCount
  }

  /** After these tests the program was ended or an option stops the run. */
  ghost predicate Breaks(opts: Options, steps: seq<Step>) {
    steps != [] && (Ended(steps) || Stops(opts, steps[|steps| - 1].once.result, |steps|))
  }

  /** After these tests the run goes on: no option stops it, nothing ended the program, and the pause
      before the next test, which there is after a test that was not skipped, is not interrupted. */
  ghost predicate GoesOn(cases: seq<Case>, opts: Options, steps: seq<Step>) {
    && !Breaks(opts, steps)
    && !(steps != [] && steps[|steps| - 1].once != Result(Skipped) && |steps| < |cases| && cases[|steps|].interrupted)
  }

  /** The result of the last test; before the first one, as if it was skipped. */
  ghost predicate LastWas(steps: seq<Step>, last: TestResult) {
    if steps == [] then last.Skipped? else steps[|steps| - 1].once == Result(last)
  }

  lemma MayGoOn(cases: seq<Case>, opts: Options, steps: seq<Step>, last: TestResult)
    requires |steps| < |cases| && !Breaks(opts, steps) && LastWas(steps, last)
    requires last.Skipped? || !cases[|steps|].interrupted
    ensures GoesOn(cases, opts, steps)
  {
  }

  /** The first tests, one after another as long as the run goes on, each run and retried as it should
      be with the budget left to it. */
  ghost predicate RunOk(cases: seq<Case>, opts: Options, retest: nat, total: int, steps: seq<Step>)
    decreases |steps|
  {
    steps != [] ==>
      var m := |steps| - 1;
      && m < |cases| && RunOk(cases, opts, retest, total, steps[..m]) && GoesOn(cases, opts, steps[..m])
      && TestOk(cases[m], retest, BudgetAfter(total, steps[..m]), steps[m])
  }

  /** The run went on as long as it could. */
  ghost predicate Complete(cases: seq<Case>, opts: Options, retest: nat, total: int, steps: seq<Step>) {
    RunOk(cases, opts, retest, total, steps) && (GoesOn(cases, opts, steps) ==> |steps| == |cases|)
  }

  /** The last test ended the program. */
  ghost predicate Ended(steps: seq<Step>) {
    steps != [] && steps[|steps| - 1].once == Invalid
  }

  ghost function ExitCode(steps: seq<Step>, opts: Options): int {
    if Ended(steps) then EXIT_INVALID
    else if Tally(steps).failures > 0 || (Tally(steps).skips > 0 && opts.fatalSkips) then EXIT_FAILURE
    else EXIT_SUCCESS
  }

  // ---------------------------------------------------------------------------------------------
  // Where a run stops
  // ---------------------------------------------------------------------------------------------

  /** Why a run stops after these tests although there are more. */
  ghost predicate Stopped(cases: seq<Case>, opts: Options, steps: seq<Step>)
    requires 0 < |steps| < |cases|
  {
    var last := steps[|steps| - 1].once;
    || last == Invalid
    || (opts.fatalErrors && last == Result(Failed))
    || (opts.fatalSkips && last == Result(Skipped))
    || |steps| >= opts.maxTestCount
    || (last != Result(Skipped) && cases[|steps|].interrupted)
  }

  lemma StoppedIff(cases: seq<Case>, opts: Options, steps: seq<Step>)
    requires 0 < |steps| < |cases|
    ensures GoesOn(cases, opts, steps) <==> !Stopped(cases, opts, steps)
  {
  }

  /** In a complete run no test before the last gives a reason to stop, and after the last there are no
      more tests or there is one. */
  lemma StopsWhere(cases: seq<Case>, opts: Options, retest: nat, total: int, steps: seq<Step>)
    requires Complete(cases, opts, retest, total, steps)
    ensures |steps| <= |cases| && (cases != [] ==> steps != [])
    ensures forall k :: 0 < k < |steps| ==> !Stopped(cases, opts, steps[..k])
    ensures 0 < |steps| < |cases| ==> Stopped(cases, opts, steps)
  {
    RunFits(cases, opts, retest, total, steps);
    forall k | 0 < k < |steps| ensures !Stopped(cases, opts, steps[..k]) {
      WentOn(cases, opts, retest, total, steps, k);
      StoppedIff(cases, opts, steps[..k]);
    }
    if 0 < |steps| < |cases| { StoppedIff(cases, opts, steps); }
  }

  lemma RunFits(cases: seq<Case>, opts: Options, retest: nat, total: int, steps: seq<Step>)
    requires RunOk(cases, opts, retest, total, steps)
    ensures |steps| <= |cases|
  {
  }

  /** What each option does: a failure or a skip that is fatal is the last test, and no more tests are
      run than wanted, though always one. */
  lemma OptionsStop(cases: seq<Case>, opts: Options, retest: nat, total: int, steps: seq<Step>, k: nat)
    requires Complete(cases, opts, retest, total, steps) && k + 1 < |steps|
    ensures steps[k].once != Invalid
    ensures opts.fatalErrors ==> steps[k].once != Result(Failed)
    ensures opts.fatalSkips ==> steps[k].once != Result(Skipped)
    ensures |steps| <= opts.maxTestCount
  {
    StopsWhere(cases, opts, retest, total, steps);
    assert steps[..k + 1][k] == steps[k] && !Stopped(cases, opts, steps[..k + 1]);
    assert !Stopped(cases, opts, steps[..|steps| - 1]);
  }

  // ---------------------------------------------------------------------------------------------
  // What the counters and the exit code mean
  // ---------------------------------------------------------------------------------------------

  lemma StepPushed(cases: seq<Case>, opts: Options, retest: nat, total: int, steps: seq<Step>, s: Step)
    requires RunOk(cases, opts, retest, total, steps) && GoesOn(cases, opts, steps) && |steps| < |cases|
    requires TestOk(cases[|steps|], retest, BudgetAfter(total, steps), s)
    ensures RunOk(cases, opts, retest, total, steps + [s])
    ensures BudgetAfter(total, steps + [s]) == if total < 0 then total else BudgetAfter(total, steps) - s.made
  {
    var more := steps + [s];
    assert more[..|steps|] == steps && more[|steps|] == s;
  }

  lemma TallyPush(steps: seq<Step>, s: Step)
    requires s.once.Result? ==> OwnResult(s.once.result)
    ensures Tally(steps + [s]) == if s.once.Result? then Count(Tally(steps), s.once.result) else Tally(steps)
  {
    assert (steps + [s])[..|steps|] == steps;
  }

  /** The counters add up to the tests run. */
  lemma {:induction false} TallyAddsUp(steps: seq<Step>)
    ensures var t := Tally(steps); t.failures + t.successes + t.skips == t.run
    ensures NoneInvalid(steps) ==> Tally(steps).run == |steps|
  {
    if steps != [] { TallyAddsUp(steps[..|steps| - 1]); }
  }

  /** The tests with this outcome. */
  ghost function Where(steps: seq<Step>, once: Once): set<nat> {
    set j: nat | j < |steps| && steps[j].once == once
  }

  lemma WherePush(steps: seq<Step>, once: Once)
    requires steps != []
    ensures |Where(steps, once)| == |Where(steps[..|steps| - 1], once)| + if steps[|steps| - 1].once == once then 1 else 0
  {
    var m: nat := |steps| - 1;
    var before := Where(steps[..m], once);
    assert Where(steps, once) == if steps[m].once == once then before + {m} else before;
  }

  /** Each counter is the number of tests with that result. */
  lemma {:induction false} TallyIs(steps: seq<Step>)
    ensures Tally(steps).successes == |Where(steps, Result(Passed))|
    ensures Tally(steps).failures == |Where(steps, Result(Failed))|
    ensures Tally(steps).skips == |Where(steps, Result(Skipped))|
    decreases |steps|
  {
    if steps == [] {
      assert Where(steps, Result(Passed)) == {} && Where(steps, Result(Failed)) == {} && Where(steps, Result(Skipped)) == {};
    } else {
      TallyIs(steps[..|steps| - 1]);
      WherePush(steps, Result(Passed));
      WherePush(steps, Result(Failed));
      WherePush(steps, Result(Skipped));
    }
  }

  /** All normal runs pass. */
  ghost predicate AllPass(c: Case) {
    forall i :: 0 <= i < |c.fractures| ==> c.fractures[i] == Result(Passed)
  }

  /** A normal run, with only passes before it, gives this outcome and not a pass. */
  ghost predicate FirstIs(c: Case, once: Once) {
    once != Result(Passed) && exists k :: 0 <= k < |c.fractures| && c.fractures[k] == once && PassBefore(c, k)
  }

  ghost predicate PassBefore(c: Case, k: nat)
    requires k <= |c.fractures|
  {
    forall i :: 0 <= i < k ==> c.fractures[i] == Result(Passed)
  }

  /** A test is a success just if all its normal runs pass, and skipped just if the first that does not
      pass is skipped. */
  lemma PassesIff(c: Case, retest: nat, budget: int, s: Step)
    requires TestOk(c, retest, budget, s)
    ensures s.once == Result(Passed) <==> AllPass(c)
    ensures s.once == Result(Skipped) <==> FirstIs(c, Result(Skipped))
  {
    var k := s.n - 1;
    assert PassBefore(c, k);
    if AllPass(c) { assert c.fractures[k] == Result(Passed); }
    if FirstIs(c, Result(Skipped)) {
      var i :| 0 <= i < |c.fractures| && c.fractures[i] == Result(Skipped) && PassBefore(c, i);
      assert i == k;
    }
  }

  lemma {:induction false} StepOkAt(cases: seq<Case>, opts: Options, retest: nat, total: int, steps: seq<Step>, k: nat)
    requires RunOk(cases, opts, retest, total, steps) && k < |steps|
    ensures k < |cases| && TestOk(cases[k], retest, BudgetAfter(total, steps[..k]), steps[k])
    decreases |steps|
  {
    var m := |steps| - 1;
    if k < m {
      StepOkAt(cases, opts, retest, total, steps[..m], k);
      assert steps[..m][..k] == steps[..k];
    }
  }

  /** Those of the first `n` tests whose normal runs all pass. */
  ghost function Passing(cases: seq<Case>, n: nat): set<nat>
    requires n <= |cases|
  {
    set j: nat | j < n && AllPass(cases[j])
  }

  ghost function Skipping(cases: seq<Case>, n: nat): set<nat>
    requires n <= |cases|
  {
    set j: nat | j < n && FirstIs(cases[j], Result(Skipped))
  }

  /** The counters of a run, told by what the normal runs of its tests give. */
  lemma CountersMean(cases: seq<Case>, opts: Options, retest: nat, total: int, steps: seq<Step>)
    requires RunOk(cases, opts, retest, total, steps)
    ensures |steps| <= |cases|
    ensures Tally(steps).successes == |Passing(cases, |steps|)| && Tally(steps).skips == |Skipping(cases, |steps|)|
  {
    TallyIs(steps);
    forall j: nat | j < |steps|
      ensures j < |cases|
      ensures (steps[j].once == Result(Passed) <==> AllPass(cases[j])) && (steps[j].once == Result(Skipped) <==> FirstIs(cases[j], Result(Skipped)))
    {
      StepOkAt(cases, opts, retest, total, steps, j);
      PassesIff(cases[j], retest, BudgetAfter(total, steps[..j]), steps[j]);
    }
    RunFits(cases, opts, retest, total, steps);
    assert Where(steps, Result(Passed)) == Passing(cases, |steps|);
    assert Where(steps, Result(Skipped)) == Skipping(cases, |steps|);
  }

  ghost predicate AnyStep(steps: seq<Step>, once: Once) {
    exists j :: 0 <= j < |steps| && steps[j].once == once
  }

  lemma {:induction false} TallyCounts(steps: seq<Step>)
    requires forall j :: 0 <= j < |steps| && steps[j].once.Result? ==> OwnResult(steps[j].once.result)
    ensures Tally(steps).failures > 0 <==> AnyStep(steps, Result(Failed))
    ensures Tally(steps).skips > 0 <==> AnyStep(steps, Result(Skipped))
    decreases |steps|
  {
    if steps != [] {
      var before := steps[..|steps| - 1];
      TallyCounts(before);
      AnyStepPush(before, steps[|steps| - 1], Result(Failed));
      AnyStepPush(before, steps[|steps| - 1], Result(Skipped));
      assert before + [steps[|steps| - 1]] == steps;
    }
  }

  lemma AnyStepPush(steps: seq<Step>, s: Step, once: Once)
    ensures AnyStep(steps + [s], once) <==> AnyStep(steps, once) || s.once == once
  {
    var more := steps + [s];
    if AnyStep(steps, once) {
      var j :| 0 <= j < |steps| && steps[j].once == once;
      assert more[j] == steps[j];
    }
    if s.once == once { assert more[|steps|] == s; }
  }

  lemma AnyStepLast(steps: seq<Step>, once: Once)
    requires steps != []
    ensures AnyStep(steps, once) <==> AnyStep(steps[..|steps| - 1], once) || steps[|steps| - 1].once == once
  {
    AnyStepPush(steps[..|steps| - 1], steps[|steps| - 1], once);
    assert steps[..|steps| - 1] + [steps[|steps| - 1]] == steps;
  }

  /** One more test adds a hit just if it has one. */
  lemma AnyHitNext(c: Case, retest: nat, budget: int, s: Step, outs: seq<Once>, ends: bool)
    requires TestOk(c, retest, budget, s)
    ensures AnyHit(outs + OutcomesIn(c, s), ends)
            <==> AnyHit(outs, ends) || s.once == Invalid || (!ends && s.once == Result(Failed))
  {
    TestMeans(c, retest, budget, s);
    AnyHitConcat(outs, OutcomesIn(c, s), ends);
  }

  /** Some attempt counts, or ends the program, just if some test did. */
  lemma {:induction false} AnyHitInSteps(cases: seq<Case>, opts: Options, retest: nat, total: int, steps: seq<Step>, ends: bool)
    requires RunOk(cases, opts, retest, total, steps)
    ensures AnyHit(OutcomesOf(cases, steps), ends) <==> AnyStep(steps, Invalid) || (!ends && AnyStep(steps, Result(Failed)))
    decreases |steps|
  {
    if steps != [] {
      var m := |steps| - 1;
      AnyHitInSteps(cases, opts, retest, total, steps[..m], ends);
      AnyHitNext(cases[m], retest, BudgetAfter(total, steps[..m]), steps[m], OutcomesOf(cases, steps[..m]), ends);
      AnyStepLast(steps, Result(Failed));
      AnyStepLast(steps, Invalid);
    }
  }

  /** Only the last test of a run can have ended the program. */
  lemma {:induction false} InvalidIsLast(cases: seq<Case>, opts: Options, retest: nat, total: int, steps: seq<Step>)
    requires RunOk(cases, opts, retest, total, steps)
    ensures AnyStep(steps, Invalid) <==> Ended(steps)
    decreases |steps|
  {
    if steps != [] {
      var m := |steps| - 1;
      InvalidIsLast(cases, opts, retest, total, steps[..m]);
      AnyStepLast(steps, Invalid);
    }
  }

  lemma {:induction false} OwnResults(cases: seq<Case>, opts: Options, retest: nat, total: int, steps: seq<Step>)
    requires RunOk(cases, opts, retest, total, steps)
    ensures forall j :: 0 <= j < |steps| && steps[j].once.Result? ==> OwnResult(steps[j].once.result)
    decreases |steps|
  {
    if steps != [] {
      var m := |steps| - 1;
      OwnResults(cases, opts, retest, total, steps[..m]);
      TestMeans(cases[m], retest, BudgetAfter(total, steps[..m]), steps[m]);
      forall j | 0 <= j < |steps| && steps[j].once.Result? ensures OwnResult(steps[j].once.result) {
        assert j < m ==> steps[..m][j] == steps[j];
      }
    }
  }

  /** The program ends with success if and only if no attempt it made counts against it, and no test
      was skipped where that is fatal. */
  lemma SuccessIff(cases: seq<Case>, opts: Options, retest: nat, total: int, steps: seq<Step>)
    requires RunOk(cases, opts, retest, total, steps)
    ensures ExitCode(steps, opts) == EXIT_SUCCESS <==>
              !AnyHit(OutcomesOf(cases, steps), false) && !(opts.fatalSkips && AnyStep(steps, Result(Skipped)))
  {
    OwnResults(cases, opts, retest, total, steps);
    TallyCounts(steps);
    AnyHitInSteps(cases, opts, retest, total, steps, false);
    InvalidIsLast(cases, opts, retest, total, steps);
  }

  /** The program is ended by an attempt if and only if some attempt of the run ends it. */
  lemma InvalidIff(cases: seq<Case>, opts: Options, retest: nat, total: int, steps: seq<Step>)
    requires RunOk(cases, opts, retest, total, steps)
    ensures ExitCode(steps, opts) == EXIT_INVALID <==> AnyHit(OutcomesOf(cases, steps), true)
  {
    AnyHitInSteps(cases, opts, retest, total, steps, true);
    InvalidIsLast(cases, opts, retest, total, steps);
  }

  // ---------------------------------------------------------------------------------------------
  // Only one run
  // ---------------------------------------------------------------------------------------------

  /** Of two runs of the same tests one is the beginning of the other. */
  lemma {:induction false} RunsAgree(cases: seq<Case>, opts: Options, retest: nat, total: int, a: seq<Step>, b: seq<Step>)
    requires RunOk(cases, opts, retest, total, a) && RunOk(cases, opts, retest, total, b) && |a| <= |b|
    ensures a == b[..|a|]
    decreases |b|
  {
    var m := |b| - 1;
    if |a| < |b| {
      RunsAgree(cases, opts, retest, total, a, b[..m]);
    } else if b != [] {
      RunsAgree(cases, opts, retest, total, a[..m], b[..m]);
      SameStep(cases, opts, retest, total, a, b);
    }
  }

  lemma SameStep(cases: seq<Case>, opts: Options, retest: nat, total: int, a: seq<Step>, b: seq<Step>)
    requires RunOk(cases, opts, retest, total, a) && RunOk(cases, opts, retest, total, b)
    requires |a| == |b| > 0 && a[..|a| - 1] == b[..|a| - 1]
    ensures a == b
  {
    var m := |a| - 1;
    TestIsUnique(cases[m], retest, BudgetAfter(total, a[..m]), a[m], b[m]);
    assert a == a[..m] + [a[m]] && b == b[..m] + [b[m]];
  }

  lemma {:induction false} WentOn(cases: seq<Case>, opts: Options, retest: nat, total: int, steps: seq<Step>, k: nat)
    requires RunOk(cases, opts, retest, total, steps) && k < |steps|
    ensures k < |cases| && GoesOn(cases, opts, steps[..k])
    decreases |steps|
  {
    var m := |steps| - 1;
    if k < m {
      WentOn(cases, opts, retest, total, steps[..m], k);
      assert steps[..m][..k] == steps[..k];
    }
  }

  lemma CannotGoOn(cases: seq<Case>, opts: Options, retest: nat, total: int, a: seq<Step>, b: seq<Step>)
    requires Complete(cases, opts, retest, total, a) && RunOk(cases, opts, retest, total, b)
    ensures |b| <= |a|
  {
    if |a| < |b| {
      RunsAgree(cases, opts, retest, total, a, b);
      WentOn(cases, opts, retest, total, b, |a|);
    }
  }

  /** The outcomes determine the run: which tests are reached, how often each is run and retried, and
      hence the counters and the exit code. */
  lemma RunIsUnique(cases: seq<Case>, opts: Options, retest: nat, total: int, a: seq<Step>, b: seq<Step>)
    requires Complete(cases, opts, retest, total, a) && Complete(cases, opts, retest, total, b)
    ensures a == b
  {
    CannotGoOn(cases, opts, retest, total, a, b);
    CannotGoOn(cases, opts, retest, total, b, a);
    RunsAgree(cases, opts, retest, total, a, b);
  }
}
