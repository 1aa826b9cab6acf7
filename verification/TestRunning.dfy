/** The loops over tests, normal runs and retries. What an attempt leaves behind is of any type `A`;
    the loops only see what it gives. For the attempts of a program that is what
    TestRun.RunOneTestOnce computes from its records. */
module TestRunning {
  import opened TestResults
  import opened RunOutcomes

  /** What happens to one test: its normal runs, up to the one after which its time is up; its
      retries, as many as can be made; and whether the pause before it is interrupted. */
  datatype TestCase<A> = TestCase(fractures: seq<A>, retries: seq<A>, interrupted: bool)

  ghost predicate CaseOk<A>(c: TestCase<A>, retest: nat) {
    c.fractures != [] && |c.retries| == 2 * retest
  }

  ghost predicate CasesOk<A>(tests: seq<TestCase<A>>, retest: nat) {
    forall i :: 0 <= i < |tests| ==> CaseOk(tests[i], retest)
  }

  /** What the attempts give. */
  ghost function Outcomes<A>(attempts: seq<A>, gives: A -> Once): seq<Once> {
    seq(|attempts|, i requires 0 <= i < |attempts| => gives(attempts[i]))
  }

  ghost function CaseOf<A>(c: TestCase<A>, gives: A -> Once): Case {
    Case(Outcomes(c.fractures, gives), Outcomes(c.retries, gives), c.interrupted)
  }

  ghost function Cases<A>(tests: seq<TestCase<A>>, gives: A -> Once): seq<Case> {
    seq(|tests|, i requires 0 <= i < |tests| => CaseOf(tests[i], gives))
  }

  /** The attempts made for one test. */
  ghost function AttemptsIn<A>(c: TestCase<A>, s: Step): seq<A> {
    if s.n <= |c.fractures| && s.made <= |c.retries| then c.fractures[..s.n] + c.retries[..s.made] else []
  }

  /** All attempts of the run, test by test. */
  ghost function AttemptsOf<A>(tests: seq<TestCase<A>>, steps: seq<Step>): seq<A>
    decreases |steps|
  {
    if steps == [] || |steps| > |tests| then []
    else AttemptsOf(tests, steps[..|steps| - 1]) + AttemptsIn(tests[|steps| - 1], steps[|steps| - 1])
  }

  lemma OutcomesOfTest<A>(c: TestCase<A>, s: Step, gives: A -> Once)
    ensures Outcomes(AttemptsIn(c, s), gives) == OutcomesIn(CaseOf(c, gives), s)
  {
  }

  lemma OutcomesConcat<A>(a: seq<A>, b: seq<A>, gives: A -> Once)
    ensures Outcomes(a + b, gives) == Outcomes(a, gives) + Outcomes(b, gives)
  {
  }

  /** The attempts of a run give the outcomes of the run. */
  lemma {:induction false} OutcomesOfRun<A>(tests: seq<TestCase<A>>, steps: seq<Step>, gives: A -> Once)
    ensures Outcomes(AttemptsOf(tests, steps), gives) == OutcomesOf(Cases(tests, gives), steps)
    decreases |steps|
  {
    if steps != [] && |steps| <= |tests| {
      var m := |steps| - 1;
      OutcomesOfRun(tests, steps[..m], gives);
      OutcomesOfTest(tests[m], steps[m], gives);
      OutcomesConcat(AttemptsOf(tests, steps[..m]), AttemptsIn(tests[m], steps[m]), gives);
    }
  }

  class TestRunner<A> {
    const retestCount: nat
    const gives: A -> Once
    var totalRetestCount: int   // -1: no limit
    var history: seq<A>

    constructor (retestCount: nat, totalRetestCount: int, gives: A -> Once)
      ensures this.retestCount == retestCount && this.gives == gives && history == []
      ensures this.totalRetestCount >= -1
      ensures this.totalRetestCount == if totalRetestCount < -1 || retestCount == 0 then 10 * retestCount else totalRetestCount
    {
      this.retestCount := retestCount;
      this.gives := gives;
      this.totalRetestCount := totalRetestCount;
      this.history := [];
      if totalRetestCount < -1 || retestCount == 0 {
        this.totalRetestCount := 10 * retestCount;
      }
    }

    /** One attempt. */
    method MakeAttempt(a: A) returns (once: Once)
      modifies `history
      ensures history == old(history) + [a] && once == gives(a)
    {
      history := history + [a];
      once := gives(a);
    }

    /** The normal runs: until one is skipped, one fails, or time is up. */
    method RunFractures(fractures: seq<A>) returns (once: Once, ghost n: nat)
      requires fractures != []
      modifies `history
      ensures Ran(Outcomes(fractures, gives), n) && once == Outcomes(fractures, gives)[n - 1]
      ensures history == old(history) + fractures[..n]
    {
      ghost var outs := Outcomes(fractures, gives);
      var i := 0;
      n := 0;
      while true
        invariant 0 <= i < |fractures| && n == i && history == old(history) + fractures[..i]
        invariant forall j :: 0 <= j < i ==> outs[j] == Result(Passed)
        decreases |fractures| - i
      {
        once := MakeAttempt(fractures[i]);
        n := i + 1;
        assert fractures[..n] == fractures[..i] + [fractures[i]];
        if once.Invalid? || !once.result.Passed? || i == |fractures| - 1 {
          return;
        }
        i := i + 1;
      }
    }

    /** Retry `k`, for which one unit of the budget is spent. */
    method RunRetry(retries: seq<A>, k: nat, ghost before: seq<A>) returns (once: Once)
      requires 1 <= k <= |retries|
      requires totalRetestCount >= -1 && totalRetestCount != 0 && history == before + retries[..k - 1]
      modifies this
      ensures totalRetestCount == if old(totalRetestCount) > 0 then old(totalRetestCount) - 1 else -1
      ensures history == before + retries[..k]
      ensures once == Outcomes(retries, gives)[k - 1]
    {
      if totalRetestCount > 0 {
        totalRetestCount := totalRetestCount - 1;
      }
      once := MakeAttempt(retries[k - 1]);
      assert retries[..k] == retries[..k - 1] + [retries[k - 1]];
    }

    /** The retries after a first failure. */
    method Retry(retries: seq<A>) returns (invalid: bool, ghost made: nat)
      requires |retries| == 2 * retestCount && totalRetestCount >= -1
      modifies this
      ensures made <= |retries| && history == old(history) + retries[..made]
      ensures if old(totalRetestCount) >= 0 then totalRetestCount == old(totalRetestCount) - made >= 0 else totalRetestCount == -1
      ensures Retried(Outcomes(retries, gives), retestCount, old(totalRetestCount), invalid, made)
    {
      ghost var outs := Outcomes(retries, gives);
      ghost var exact := RetryCount(outs, retestCount, totalRetestCount, 1, 1);
      var failCount := 1;
      var iterations := 1;
      made := 0;
      while totalRetestCount != 0 && iterations <= RetryLimit(retestCount, failCount)
        invariant made == iterations - 1 <= |retries|
        invariant RetryCount(outs, retestCount, totalRetestCount, iterations, failCount) == exact
        invariant history == old(history) + retries[..made]
        invariant if old(totalRetestCount) >= 0 then totalRetestCount == old(totalRetestCount) - made >= 0 else totalRetestCount == -1
        invariant forall k :: 0 <= k < made ==> !outs[k].Invalid?
        decreases 2 * retestCount - iterations
      {
        RetryCountStep(outs, retestCount, totalRetestCount, iterations, failCount);
        var once := RunRetry(retries, iterations, old(history));
        made := made + 1;
        if once.Invalid? {
          RetriesEnded(outs, retestCount, old(totalRetestCount), made);
          return true, made;
        }
        if Rank(once.result) > Rank(Passed) {
          failCount := failCount + 1;
        }
        iterations := iterations + 1;
      }
      AllRetried(outs, retestCount, old(totalRetestCount), made);
      return false, made;
    }

    /** run_one_test: `s` tells its outcome, its normal runs and its retries. */
    method RunOneTest(c: TestCase<A>) returns (once: Once, ghost s: Step)
      requires CaseOk(c, retestCount) && totalRetestCount >= -1
      modifies this
      ensures s.once == once && TestOk(CaseOf(c, gives), retestCount, old(totalRetestCount), s)
      ensures history == old(history) + AttemptsIn(c, s)
      ensures if old(totalRetestCount) >= 0 then totalRetestCount == old(totalRetestCount) - s.made >= 0 else totalRetestCount == -1
    {
      ghost var n, made;
      once, n := RunFractures(c.fractures);
      if once.Invalid? || Rank(once.result) <= Rank(Passed) {
        s := Step(once, n, 0);
        assert c.fractures[..n] + c.retries[..0] == c.fractures[..n];
        return;
      }
      var invalid;
      invalid, made := Retry(c.retries);
      once := if invalid then Invalid else Result(Failed);
      s := Step(once, n, made);
      Regroup(old(history), c.fractures[..n], c.retries[..made]);
    }

    /** What the run has come to after `steps`. */
    ghost predicate Reached(tests: seq<TestCase<A>>, opts: Options, total: int, start: seq<A>, steps: seq<Step>)
      reads this
    {
      && RunOk(Cases(tests, gives), opts, retestCount, total, steps)
      && history == start + AttemptsOf(tests, steps)
      && totalRetestCount == BudgetAfter(total, steps)
      && if total >= 0 then totalRetestCount >= 0 else totalRetestCount == -1
    }

    /** The next test of the run, with which `steps` becomes `more`. */
    method RunNext(tests: seq<TestCase<A>>, k: nat, sum: Totals, ghost opts: Options, ghost total: int, ghost start: seq<A>, ghost steps: seq<Step>)
      returns (once: Once, sum': Totals, ghost more: seq<Step>)
      requires k == |steps| < |tests| && CaseOk(tests[k], retestCount) && sum == Tally(steps)
      requires Reached(tests, opts, total, start, steps) && GoesOn(Cases(tests, gives), opts, steps)
      modifies this
      ensures Reached(tests, opts, total, start, more) && |more| == k + 1 && more[k].once == once
      ensures sum' == Tally(more)
    {
      ghost var s;
      ghost var cases := Cases(tests, gives);
      once, s := RunOneTest(tests[k]);
      assert cases[k] == CaseOf(tests[k], gives);
      TestMeans(cases[k], retestCount, BudgetAfter(total, steps), s);
      StepPushed(cases, opts, retestCount, total, steps, s);
      AttemptsPushed(tests, steps, s);
      Regroup(start, AttemptsOf(tests, steps), AttemptsIn(tests[k], s));
      TallyPush(steps, s);
      more := steps + [s];
      sum' := if once.Result? then Count(sum, once.result) else sum;
    }

    /** The run cannot go on, or all tests are done. */
    ghost predicate Finished(tests: seq<TestCase<A>>, opts: Options, steps: seq<Step>) {
      GoesOn(Cases(tests, gives), opts, steps) ==> |steps| == |tests|
    }

    /** The main loop. The tests are those that come up, in order, while the run goes on; `steps` says
        how often each of those reached was run and retried. */
    method RunTests(tests: seq<TestCase<A>>, opts: Options) returns (invalid: bool, sum: Totals, ghost steps: seq<Step>)
      requires totalRetestCount >= -1 && CasesOk(tests, retestCount)
      modifies this
      ensures Reached(tests, opts, old(totalRetestCount), old(history), steps) && Finished(tests, opts, steps)
      ensures sum == Tally(steps) && (invalid <==> Ended(steps))
    {
      sum, steps := Totals(0, 0, 0, 0), [];
      var last := Skipped;
      var k := 0;
      assert history == old(history) + AttemptsOf(tests, steps);
      while k < |tests|
        invariant k == |steps| <= |tests| && Reached(tests, opts, old(totalRetestCount), old(history), steps)
        invariant sum == Tally(steps) && LastWas(steps, last) && !Breaks(opts, steps)
      {
        PauseOf(tests, gives, k);
        if !last.Skipped? && tests[k].interrupted {
          break;
        }
        MayGoOn(Cases(tests, gives), opts, steps, last);
        var once;
        once, sum, steps := RunNext(tests, k, sum, opts, old(totalRetestCount), old(history), steps);
        k := k + 1;
        if once.Invalid? {
          return true, sum, steps;
        }
        last := once.result;
        if last.Failed? && opts.fatalErrors {
          break;
        }
        if last.Skipped? && opts.fatalSkips {
          break;
        }
        if k >= opts.maxTestCount {
          break;
        }
      }
      invalid := false;
    }

    /** The run and its exit code. */
    method RunAll(tests: seq<TestCase<A>>, opts: Options) returns (exit: int, sum: Totals, ghost steps: seq<Step>)
      requires totalRetestCount >= -1 && CasesOk(tests, retestCount)
      modifies this
      ensures Complete(Cases(tests, gives), opts, retestCount, old(totalRetestCount), steps)
      ensures history == old(history) + AttemptsOf(tests, steps) && totalRetestCount == BudgetAfter(old(totalRetestCount), steps)
      ensures sum == Tally(steps) && exit == ExitCode(steps, opts)
      ensures exit == EXIT_INVALID <==> AnyHit(Outcomes(AttemptsOf(tests, steps), gives), true)
      ensures exit == EXIT_SUCCESS ==> !AnyHit(Outcomes(AttemptsOf(tests, steps), gives), false)
    {
      var invalid;
      invalid, sum, steps := RunTests(tests, opts);
      exit := if invalid then EXIT_INVALID
              else if sum.failures > 0 || (sum.skips > 0 && opts.fatalSkips) then EXIT_FAILURE
              else EXIT_SUCCESS;
      OutcomesOfRun(tests, steps, gives);
      InvalidIff(Cases(tests, gives), opts, retestCount, old(totalRetestCount), steps);
      SuccessIff(Cases(tests, gives), opts, retestCount, old(totalRetestCount), steps);
    }
  }

  lemma PauseOf<A>(tests: seq<TestCase<A>>, gives: A -> Once, k: nat)
    requires k < |tests|
    ensures |Cases(tests, gives)| == |tests| && Cases(tests, gives)[k].interrupted == tests[k].interrupted
  {
  }

  lemma Regroup<A>(a: seq<A>, b: seq<A>, c: seq<A>)
    ensures a + (b + c) == (a + b) + c
  {
  }

  lemma AttemptsPushed<A>(tests: seq<TestCase<A>>, steps: seq<Step>, s: Step)
    requires |steps| < |tests|
    ensures AttemptsOf(tests, steps + [s]) == AttemptsOf(tests, steps) + AttemptsIn(tests[|steps|], s)
  {
    assert (steps + [s])[..|steps|] == steps;
  }
}
