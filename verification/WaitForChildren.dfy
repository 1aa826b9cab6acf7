/** Results of tests and the exit codes that carry them from a child process to its parent. */
module TestResults {

  /** In order of seriousness. */
  datatype TestResult = Skipped | Passed | Failed | Killed | CoreDumped | OperatingSystemError | OutOfMemory | TimedOut | Interrupted

  function Rank(r: TestResult): int {
    match r
    case Skipped => -1
    case Passed => 0
    case Failed => 1
    case Killed => 2
    case CoreDumped => 3
    case OperatingSystemError => 4
    case OutOfMemory => 5
    case TimedOut => 6
    case Interrupted => 7
  }

  const SIGINT := 2
  const SIGQUIT := 3
  const SIGKILL := 9

  datatype Death = Exited | KilledBy | DumpedBy

  /** What the death notification of a child says: an exit code or a signal number. */
  datatype ExitInfo = ExitInfo(death: Death, status: int)

  datatype ChildExitStatus = ChildExitStatus(result: TestResult, extra: int)

  /** The low eight bits as a signed number. */
  function Int8(x: int): int {
    if x % 256 < 128 then x % 256 else x % 256 - 256
  }

  function FromExit(info: ExitInfo): ChildExitStatus {
    if info.death.Exited? then
      var status := Int8(info.status);
      if status == -1 then ChildExitStatus(Skipped, 0)
      else if status == 0 then ChildExitStatus(Passed, 0)
      else if status == 1 then ChildExitStatus(Failed, 0)
      else ChildExitStatus(OperatingSystemError, info.status)
    else if info.status == SIGKILL then ChildExitStatus(OutOfMemory, info.status)
    else if info.status == SIGQUIT then ChildExitStatus(TimedOut, info.status)
    else ChildExitStatus(if info.death.KilledBy? then Killed else CoreDumped, info.status)
  }

  /** The child was ended by this signal. */
  predicate DiedOf(info: ExitInfo, signal: int) {
    !info.death.Exited? && info.status == signal
  }

  /** The child was ended by a signal that is neither SIGKILL nor SIGQUIT. */
  predicate DiedOfOther(info: ExitInfo) {
    !info.death.Exited? && info.status != SIGKILL && info.status != SIGQUIT
  }

  /** What every notification of a death means. */
  lemma DeathMeans(info: ExitInfo)
    ensures FromExit(info).result == OutOfMemory <==> DiedOf(info, SIGKILL)
    ensures FromExit(info).result == TimedOut <==> DiedOf(info, SIGQUIT)
    ensures FromExit(info).result == Killed <==> DiedOfOther(info) && info.death.KilledBy?
    ensures FromExit(info).result == CoreDumped <==> DiedOfOther(info) && info.death.DumpedBy?
    ensures FromExit(info).result == Passed <==> info.death.Exited? && info.status % 256 == 0
    ensures FromExit(info).result == Failed <==> info.death.Exited? && info.status % 256 == 1
    ensures FromExit(info).result == Skipped <==> info.death.Exited? && info.status % 256 == 255
    ensures FromExit(info).result == OperatingSystemError <==> info.death.Exited? && info.status % 256 !in {0, 1, 255}
    ensures FromExit(info).result != Interrupted
    ensures FromExit(info).extra == if OwnResult(FromExit(info).result) then 0 else info.status
  {
  }

  /** The results a test can produce itself. */
  predicate OwnResult(r: TestResult) {
    r.Skipped? || r.Passed? || r.Failed?
  }

  function ToExitCode(r: TestResult): int
    requires OwnResult(r)
  {
    if r.Skipped? then -1 else if r.Failed? then 1 else 0
  }

  /** The kernel keeps the low eight bits of an exit code. */
  function WaitStatus(code: int): int {
    code % 256
  }

  /** A result survives the trip through the exit code, and only an exit gives one of these results. */
  lemma ExitCodeRoundTrip(r: TestResult)
    requires OwnResult(r)
    ensures FromExit(ExitInfo(Exited, WaitStatus(ToExitCode(r)))) == ChildExitStatus(r, 0)
    ensures forall info: ExitInfo :: FromExit(info).result == r ==> info.death.Exited? && info.status % 256 == WaitStatus(ToExitCode(r))
  {
  }
}

/** wait_for_children: wait, ask the children to quit, kill them, give up. */
module WaitForChildren {
  import opened TestResults

  datatype Option<T> = None | Some(value: T)

  /** What reading one child's descriptor gives after poll. */
  datatype Wait = Idle | Again | WaitError | Died(info: ExitInfo)

  /** What one call of poll gives. */
  datatype Poll = Timeout | PollError | Signal(signal: nat, count: nat) | Ready(waits: seq<Wait>)

  /** What the parent does to a child. */
  datatype Action = Kill(child: nat, signal: nat) | Reap(child: nat, info: ExitInfo) | GiveUp(child: nat)

  datatype Ended = Returned | OsError | Raised(signal: nat)

  // ---------------------------------------------------------------------------------------------
  // Traces
  // ---------------------------------------------------------------------------------------------

  /** The exit information of a child, once it has been reaped. */
  function ReapOf(log: seq<Action>, i: nat): Option<ExitInfo> {
    if log == [] then None
    else
      var a := log[|log| - 1];
      if a.Reap? && a.child == i then Some(a.info) else ReapOf(log[..|log| - 1], i)
  }

  /** The result of a child: what its death said, or `otherwise` if it was not reaped. */
  function Outcome(log: seq<Action>, i: nat, otherwise: TestResult): ChildExitStatus {
    match ReapOf(log, i)
    case None => ChildExitStatus(otherwise, 0)
    case Some(info) => FromExit(info)
  }

  predicate Alive(log: seq<Action>, i: nat) {
    ReapOf(log, i).None?
  }

  /** Nothing is done to a child that was reaped. */
  predicate Ordered(log: seq<Action>) {
    log == [] || (Ordered(log[..|log| - 1]) && Alive(log[..|log| - 1], log[|log| - 1].child))
  }

  lemma ReapOfPush(log: seq<Action>, a: Action, i: nat)
    ensures ReapOf(log + [a], i) == if a.Reap? && a.child == i then Some(a.info) else ReapOf(log, i)
  {
    assert (log + [a])[..|log|] == log;
  }

  lemma OrderedPush(log: seq<Action>, a: Action)
    ensures Ordered(log + [a]) <==> Ordered(log) && Alive(log, a.child)
  {
    assert (log + [a])[..|log|] == log;
  }

  lemma {:induction false} ReapOfIn(log: seq<Action>, k: nat)
    requires k < |log| && log[k].Reap?
    ensures !Alive(log, log[k].child)
    decreases |log|
  {
    if k < |log| - 1 { ReapOfIn(log[..|log| - 1], k); }
  }

  /** After a child is reaped there is no signal to it and no second result. */
  lemma {:induction false} NothingAfterReap(log: seq<Action>, j: nat, k: nat)
    requires Ordered(log) && j < k < |log| && log[j].Reap?
    ensures log[k].child != log[j].child
    decreases |log|
  {
    if k == |log| - 1 {
      ReapOfIn(log[..k], j);
    } else {
      NothingAfterReap(log[..|log| - 1], j, k);
    }
  }

  /** A signal to each of the children [k, n) that is still alive. */
  function Signals(log: seq<Action>, k: nat, n: nat, signal: nat): seq<Action>
    requires k <= n
    decreases n - k
  {
    if k == n then [] else (if Alive(log, k) then [Kill(k, signal)] else []) + Signals(log, k + 1, n, signal)
  }

  /** The children [k, n) that are given up. */
  function GiveUps(log: seq<Action>, k: nat, n: nat): seq<Action>
    requires k <= n
    decreases n - k
  {
    if k == n then [] else (if Alive(log, k) then [GiveUp(k)] else []) + GiveUps(log, k + 1, n)
  }

  lemma Regroup(a: seq<Action>, x: Action, b: seq<Action>)
    ensures a + ([x] + b) == (a + [x]) + b
  {
  }

  /** One more signal. */
  lemma KillPushed(before: seq<Action>, log: seq<Action>, i: nat, n: nat, signal: nat)
    requires Ordered(log) && SameReaps(before, log) && Alive(before, i) && i < n
    ensures Ordered(log + [Kill(i, signal)]) && SameReaps(before, log + [Kill(i, signal)])
    ensures log + [Kill(i, signal)] + Signals(before, i + 1, n, signal) == log + Signals(before, i, n, signal)
  {
    OrderedPush(log, Kill(i, signal));
    forall j: nat ensures ReapOf(log + [Kill(i, signal)], j) == ReapOf(before, j) { ReapOfPush(log, Kill(i, signal), j); }
    Regroup(log, Kill(i, signal), Signals(before, i + 1, n, signal));
  }

  ghost predicate SameReaps(before: seq<Action>, log: seq<Action>) {
    forall j: nat :: ReapOf(log, j) == ReapOf(before, j)
  }

  lemma GiveUpPushed(before: seq<Action>, log: seq<Action>, i: nat, n: nat)
    requires Ordered(log) && SameReaps(before, log) && Alive(before, i) && i < n
    ensures Ordered(log + [GiveUp(i)]) && SameReaps(before, log + [GiveUp(i)])
    ensures log + [GiveUp(i)] + GiveUps(before, i + 1, n) == log + GiveUps(before, i, n)
  {
    OrderedPush(log, GiveUp(i));
    forall j: nat ensures ReapOf(log + [GiveUp(i)], j) == ReapOf(before, j) { ReapOfPush(log, GiveUp(i), j); }
    Regroup(log, GiveUp(i), GiveUps(before, i + 1, n));
  }

  ghost predicate AllReaped(log: seq<Action>, n: nat) {
    forall i :: 0 <= i < n ==> !Alive(log, i)
  }

  /** What a stretch of waiting adds: deaths, and signals passed on if any came. */
  ghost predicate OnlyWaits(before: seq<Action>, after: seq<Action>, signals: set<nat>) {
    && before <= after
    && forall k :: |before| <= k < |after| ==> after[k].Reap? || (after[k].Kill? && after[k].signal in signals)
  }

  lemma {:induction false} NoGiveUps(log: seq<Action>, k: nat, n: nat)
    requires k <= n && AllReaped(log, n)
    ensures GiveUps(log, k, n) == []
    decreases n - k
  {
    if k < n { NoGiveUps(log, k + 1, n); }
  }

  /** The whole run: wait; if children are left, SIGQUIT to each of them and wait; if children are
      still left, SIGKILL to each of them and wait; give up on the rest. */
  ghost predicate Escalates(w1: seq<Action>, w2: seq<Action>, w3: seq<Action>, log: seq<Action>, n: nat, second: set<nat>, third: set<nat>) {
    if AllReaped(w1, n) then log == w1
    else
      && OnlyWaits(w1 + Signals(w1, 0, n, SIGQUIT), w2, second)
      && if AllReaped(w2, n) then log == w2
         else OnlyWaits(w2 + Signals(w2, 0, n, SIGKILL), w3, third) && log == w3 + GiveUps(w3, 0, n)
  }

  function SignalsOf(polls: seq<Poll>): set<nat> {
    set k | 0 <= k < |polls| && polls[k].Signal? && polls[k].signal != 0 :: polls[k].signal
  }

  lemma SuffixIn(a: seq<Action>, b: seq<Action>, x: Action)
    requires x in b
    ensures x in a + b
  {
  }

  lemma {:induction false} SignalsHit(log: seq<Action>, k: nat, n: nat, signal: nat, i: nat)
    requires k <= i < n && Alive(log, i)
    ensures Kill(i, signal) in Signals(log, k, n, signal)
    decreases n - k
  {
    var rest := Signals(log, k + 1, n, signal);
    if k < i {
      SignalsHit(log, k + 1, n, signal, i);
      SuffixIn(if Alive(log, k) then [Kill(k, signal)] else [], rest, Kill(i, signal));
    } else {
      assert ([Kill(i, signal)] + rest)[0] == Kill(i, signal);
    }
  }

  lemma SignalAt(log: seq<Action>, n: nat, signal: nat, i: nat) returns (k: nat)
    requires i < n && Alive(log, i)
    ensures |log| <= k < |log + Signals(log, 0, n, signal)| && (log + Signals(log, 0, n, signal))[k] == Kill(i, signal)
  {
    SignalsHit(log, 0, n, signal, i);
    var x :| 0 <= x < |Signals(log, 0, n, signal)| && Signals(log, 0, n, signal)[x] == Kill(i, signal);
    k := |log| + x;
  }

  lemma {:induction false} SignalsOnlyKill(log: seq<Action>, k: nat, n: nat, signal: nat)
    requires k <= n
    ensures forall j :: 0 <= j < |Signals(log, k, n, signal)| ==>
              var a := Signals(log, k, n, signal)[j]; a.Kill? && a.signal == signal && k <= a.child < n && Alive(log, a.child)
    decreases n - k
  {
    if k < n { SignalsOnlyKill(log, k + 1, n, signal); }
  }

  // ---------------------------------------------------------------------------------------------
  // What the polls say
  // ---------------------------------------------------------------------------------------------

  /** The death of child `i` that a poll reports. */
  function DeathIn(poll: Poll, i: nat): Option<ExitInfo> {
    if poll.Ready? && i < |poll.waits| && poll.waits[i].Died? then Some(poll.waits[i].info) else None
  }

  /** The first report of the death of child `i`. */
  function FirstDeath(polls: seq<Poll>, i: nat): Option<ExitInfo> {
    if polls == [] then None
    else
      var before := FirstDeath(polls[..|polls| - 1], i);
      if before.Some? then before else DeathIn(polls[|polls| - 1], i)
  }

  lemma FirstDeathPush(polls: seq<Poll>, poll: Poll, i: nat)
    ensures FirstDeath(polls + [poll], i) == if FirstDeath(polls, i).Some? then FirstDeath(polls, i) else DeathIn(poll, i)
  {
    assert (polls + [poll])[..|polls|] == polls;
  }

  /** A death that was reported stays the first one. */
  lemma {:induction false} FirstDeathStays(a: seq<Poll>, b: seq<Poll>, i: nat)
    requires FirstDeath(a, i).Some?
    ensures FirstDeath(a + b, i) == FirstDeath(a, i)
    decreases |b|
  {
    if b == [] {
      assert a + b == a;
    } else {
      FirstDeathStays(a, b[..|b| - 1], i);
      FirstDeathPush(a + b[..|b| - 1], b[|b| - 1], i);
      assert a + b == a + b[..|b| - 1] + [b[|b| - 1]];
    }
  }

  ghost predicate AllDead(polls: seq<Poll>, n: nat) {
    forall i :: 0 <= i < n ==> FirstDeath(polls, i).Some?
  }

  /** Each child is reaped just if its death was reported, with what the first report said. */
  ghost predicate Reflects(log: seq<Action>, polls: seq<Poll>, n: nat) {
    forall i :: 0 <= i < n ==> ReapOf(log, i) == FirstDeath(polls, i)
  }

  lemma ReflectsSame(before: seq<Action>, log: seq<Action>, polls: seq<Poll>, n: nat)
    requires Reflects(before, polls, n) && SameReaps(before, log)
    ensures Reflects(log, polls, n)
  {
    forall i | 0 <= i < n ensures ReapOf(log, i) == FirstDeath(polls, i) { assert ReapOf(log, i) == ReapOf(before, i); }
  }

  /** Once every child is reaped, later polls would change nothing. */
  lemma ReflectsMore(log: seq<Action>, polls: seq<Poll>, more: seq<Poll>, n: nat)
    requires Reflects(log, polls, n) && AllDead(polls, n)
    ensures Reflects(log, polls + more, n) && AllDead(polls + more, n)
  {
    forall i | 0 <= i < n ensures FirstDeath(polls + more, i) == FirstDeath(polls, i) { FirstDeathStays(polls, more, i); }
  }

  /** Waiting for one of the children that the poll reports fails. */
  ghost predicate WaitFails(done: seq<Poll>, waits: seq<Wait>, n: nat) {
    exists i :: 0 <= i < n && i < |waits| && waits[i].WaitError? && FirstDeath(done, i).None?
  }

  predicate IsFirstInterrupt(poll: Poll) {
    poll.Signal? && poll.count == 1 && poll.signal == SIGINT
  }

  /** SIGINT once it has been caught, otherwise 0. */
  function Caught(polls: seq<Poll>): nat {
    if polls == [] then 0 else if IsFirstInterrupt(polls[|polls| - 1]) then SIGINT else Caught(polls[..|polls| - 1])
  }

  lemma CaughtPush(polls: seq<Poll>, poll: Poll)
    ensures Caught(polls + [poll]) == if IsFirstInterrupt(poll) then SIGINT else Caught(polls)
  {
    assert (polls + [poll])[..|polls|] == polls;
  }

  /** How a poll after those `done` ends the program, if it does: with an error, with a signal that is
      not a first SIGINT, or, after a first SIGINT, with the next report of a child. */
  ghost function StopOf(done: seq<Poll>, poll: Poll, n: nat): Option<Ended> {
    match poll
    case Timeout => None
    case PollError => Some(OsError)
    case Signal(signal, _) => if IsFirstInterrupt(poll) || signal == 0 then None else Some(Raised(signal))
    case Ready(waits) =>
      if WaitFails(done, waits, n) then Some(OsError) else if Caught(done) != 0 then Some(Raised(Caught(done))) else None
  }

  /** How waiting ends: polls are made until one ends the program, no child is left, or the deadline
      after the last poll. */
  ghost function EndOf(done: seq<Poll>, polls: seq<Poll>, n: nat): Ended
    decreases |polls|
  {
    if polls == [] || AllDead(done, n) then Returned
    else match StopOf(done, polls[0], n)
      case Some(e) => e
      case None => EndOf(done + [polls[0]], polls[1..], n)
  }

  /** How the three stretches of waiting end: the later ones happen only if children are left. */
  ghost function WholeEnd(first: seq<Poll>, second: seq<Poll>, third: seq<Poll>, n: nat): Ended {
    var e1 := EndOf([], first, n);
    if !e1.Returned? || AllDead(first, n) then e1
    else
      var e2 := EndOf(first, second, n);
      if !e2.Returned? || AllDead(first + second, n) then e2 else EndOf(first + second, third, n)
  }

  // ---------------------------------------------------------------------------------------------
  // What a run that returns has done
  // ---------------------------------------------------------------------------------------------

  /** How often a result was stored for child `i`. */
  function Stores(log: seq<Action>, i: nat): nat {
    if log == [] then 0
    else
      var a := log[|log| - 1];
      Stores(log[..|log| - 1], i) + if !a.Kill? && a.child == i then 1 else 0
  }

  lemma {:induction false} StoresConcat(a: seq<Action>, b: seq<Action>, i: nat)
    ensures Stores(a + b, i) == Stores(a, i) + Stores(b, i)
    decreases |b|
  {
    if b == [] {
      assert a + b == a;
    } else {
      var m := |b| - 1;
      StoresConcat(a, b[..m], i);
      assert (a + b)[..|a + b| - 1] == a + b[..m];
    }
  }

  ghost predicate NoGiveUp(log: seq<Action>) {
    forall k :: 0 <= k < |log| ==> !log[k].GiveUp?
  }

  /** While no one is given up, the results stored are those of the reaped children. */
  lemma {:induction false} StoresWhileWaiting(log: seq<Action>, i: nat)
    requires Ordered(log) && NoGiveUp(log)
    ensures Stores(log, i) == if Alive(log, i) then 0 else 1
    decreases |log|
  {
    if log != [] { StoresWhileWaiting(log[..|log| - 1], i); }
  }

  lemma {:induction false} StoresByGiveUps(log: seq<Action>, k: nat, n: nat, i: nat)
    requires k <= n
    ensures Stores(GiveUps(log, k, n), i) == if k <= i < n && Alive(log, i) then 1 else 0
    decreases n - k
  {
    if k < n {
      var rest := GiveUps(log, k + 1, n);
      StoresByGiveUps(log, k + 1, n, i);
      if Alive(log, k) {
        StoresConcat([GiveUp(k)], rest, i);
        StoresSingle(GiveUp(k), i);
      } else {
        assert [] + rest == rest;
      }
    }
  }

  lemma StoresSingle(a: Action, i: nat)
    ensures Stores([a], i) == if !a.Kill? && a.child == i then 1 else 0
  {
    assert [a][..0] == [];
  }

  lemma {:induction false} OrderedPrefix(log: seq<Action>, k: nat)
    requires Ordered(log) && k <= |log|
    ensures Ordered(log[..k])
    decreases |log|
  {
    if k < |log| {
      OrderedPrefix(log[..|log| - 1], k);
      assert log[..|log| - 1][..k] == log[..k];
    } else {
      assert log[..k] == log;
    }
  }

  lemma WaitsGiveNoOneUp(w: seq<Action>, n: nat, signal: nat, after: seq<Action>, signals: set<nat>)
    requires NoGiveUp(w) && OnlyWaits(w + Signals(w, 0, n, signal), after, signals)
    ensures NoGiveUp(after)
  {
    SignalsOnlyKill(w, 0, n, signal);
    var q := w + Signals(w, 0, n, signal);
    forall k | 0 <= k < |after| ensures !after[k].GiveUp? {
      if k < |q| { assert after[k] == q[k]; }
    }
  }

  /** Every child has its result stored, and only once. */
  lemma ResultStoredOnce(w1: seq<Action>, w2: seq<Action>, w3: seq<Action>, log: seq<Action>, n: nat,
                         first: set<nat>, second: set<nat>, third: set<nat>, i: nat)
    requires OnlyWaits([], w1, first) && Escalates(w1, w2, w3, log, n, second, third) && Ordered(log) && i < n
    ensures Stores(log, i) == 1
  {
    if AllReaped(w1, n) {
      StoresWhileWaiting(log, i);
    } else {
      WaitsGiveNoOneUp(w1, n, SIGQUIT, w2, second);
      if AllReaped(w2, n) {
        StoresWhileWaiting(log, i);
      } else {
        WaitsGiveNoOneUp(w2, n, SIGKILL, w3, third);
        OrderedPrefix(log, |w3|);
        assert log[..|w3|] == w3;
        StoresWhileWaiting(w3, i);
        StoresByGiveUps(w3, 0, n, i);
        StoresConcat(w3, GiveUps(w3, 0, n), i);
      }
    }
  }

  /** A child is given up only after SIGQUIT and then SIGKILL were sent to it. */
  lemma GivenUpWasKilled(w1: seq<Action>, w2: seq<Action>, w3: seq<Action>, log: seq<Action>, n: nat,
                         second: set<nat>, third: set<nat>, i: nat)
    requires Escalates(w1, w2, w3, log, n, second, third) && i < n && Alive(log, i)
    ensures exists q, k :: 0 <= q < k < |log| && log[q] == Kill(i, SIGQUIT) && log[k] == Kill(i, SIGKILL)
  {
    var quits := w1 + Signals(w1, 0, n, SIGQUIT);
    var kills := w2 + Signals(w2, 0, n, SIGKILL);
    AliveEarlier(log, |w3|, i);
    AliveEarlier(log, |w2|, i);
    AliveEarlier(log, |w1|, i);
    assert log[..|w2|] == w2 && log[..|w1|] == w1 && log[..|w3|] == w3;
    var a := SignalAt(w1, n, SIGQUIT, i);
    var b := SignalAt(w2, n, SIGKILL, i);
    assert log[a] == quits[a] && log[b] == kills[b];
  }

  lemma {:induction false} AliveEarlier(log: seq<Action>, k: nat, i: nat)
    requires Alive(log, i) && k <= |log|
    ensures Alive(log[..k], i)
    decreases |log|
  {
    if k < |log| {
      AliveEarlier(log[..|log| - 1], k, i);
      assert log[..|log| - 1][..k] == log[..k];
    } else {
      assert log[..k] == log;
    }
  }

  // ---------------------------------------------------------------------------------------------
  // Counting
  // ---------------------------------------------------------------------------------------------

  function Live(handles: seq<nat>): nat {
    if handles == [] then 0 else (if handles[0] != 0 then 1 else 0) + Live(handles[1..])
  }

  lemma {:induction false} LiveClear(handles: seq<nat>, i: nat)
    requires i < |handles| && handles[i] != 0
    ensures Live(handles[i := 0]) == Live(handles) - 1
    decreases |handles|
  {
    if i > 0 {
      assert handles[i := 0][1..] == handles[1..][i - 1 := 0];
      LiveClear(handles[1..], i - 1);
    } else {
      assert handles[i := 0][1..] == handles[1..];
    }
  }

  lemma {:induction false} LiveZero(handles: seq<nat>)
    ensures Live(handles) == 0 <==> forall i :: 0 <= i < |handles| ==> handles[i] == 0
    decreases |handles|
  {
    if handles != [] {
      LiveZero(handles[1..]);
      assert forall i :: 0 < i < |handles| ==> handles[i] == handles[1..][i - 1];
    }
  }

  lemma {:induction false} LiveAll(handles: seq<nat>)
    requires forall i :: 0 <= i < |handles| ==> handles[i] != 0
    ensures Live(handles) == |handles|
    decreases |handles|
  {
    if handles != [] { LiveAll(handles[1..]); }
  }

  // ---------------------------------------------------------------------------------------------
  // The loop
  // ---------------------------------------------------------------------------------------------

  class ChildrenList {
    ghost const pids: seq<nat>
    var fds: seq<int>                  // -1 once reaped
    var handles: seq<nat>              // 0 once reaped
    var results: seq<ChildExitStatus>
    var childrenLeft: int
    var caughtSignal: nat
    var log: seq<Action>

    ghost predicate ChildOk(i: nat)
      requires |pids| == |handles| == |fds| == |results| && i < |pids|
      reads `log, `handles, `fds, `results
    {
      && pids[i] != 0
      && handles[i] == (if Alive(log, i) then pids[i] else 0)
      && (fds[i] == -1 <==> !Alive(log, i))
      && results[i] == Outcome(log, i, Passed)
    }

    /** The count is the number of children not reaped, and the result of each reaped child is what
        its death said. */
    ghost predicate Valid()
      reads `log, `handles, `fds, `results, `childrenLeft
    {
      && |pids| == |handles| == |fds| == |results|
      && (forall i :: 0 <= i < |pids| ==> ChildOk(i))
      && childrenLeft == Live(handles)
      && Ordered(log)
    }

    /** The children of one test, all started. */
    constructor (pids: seq<nat>, fds: seq<int>)
      requires |pids| == |fds|
      requires forall i :: 0 <= i < |pids| ==> pids[i] != 0 && fds[i] != -1
      ensures Valid() && this.pids == pids && log == []
    {
      this.pids := pids;
      this.handles := pids;
      this.fds := fds;
      this.results := seq(|pids|, i => ChildExitStatus(Passed, 0));
      this.childrenLeft := |pids|;
      this.caughtSignal := 0;
      this.log := [];
      LiveAll(pids);
    }

    method KillChildren(signal: nat)
      requires Valid()
      modifies this`log
      ensures Valid() && log == old(log) + Signals(old(log), 0, |pids|, signal)
      ensures SameReaps(old(log), log)
    {
      ghost var before := log;
      for i := 0 to |handles|
        invariant Ordered(log) && SameReaps(before, log)
        invariant log + Signals(before, i, |pids|, signal) == before + Signals(before, 0, |pids|, signal)
      {
        assert old(ChildOk(i));
        if handles[i] != 0 {
          KillPushed(before, log, i, |pids|, signal);
          log := log + [Kill(i, signal)];
        }
      }
      forall i | 0 <= i < |pids| ensures ChildOk(i) {
        assert old(ChildOk(i)) && ReapOf(log, i) == ReapOf(before, i);
      }
    }

    /** Child `i` is waited for. */
    method ReapChild(i: nat, info: ExitInfo)
      requires Valid() && i < |pids| && Alive(log, i)
      modifies this`log, this`fds, this`handles, this`results, this`childrenLeft
      ensures Valid() && log == old(log) + [Reap(i, info)]
      ensures caughtSignal == old(caughtSignal)
    {
      assert ChildOk(i);
      LiveClear(handles, i);
      OrderedPush(log, Reap(i, info));
      ghost var before := log;
      fds := fds[i := -1];
      handles := handles[i := 0];
      results := results[i := FromExit(info)];
      childrenLeft := childrenLeft - 1;
      log := log + [Reap(i, info)];
      forall j | 0 <= j < |pids| ensures ChildOk(j) {
        ReapOfPush(before, Reap(i, info), j);
        assert old(ChildOk(j));
      }
    }

    /** What poll and the wait after it say about child `i`; descriptors of -1 are never reported. */
    function Reported(waits: seq<Wait>, i: nat): Wait
      requires i < |fds|
      reads this
    {
      if fds[i] != -1 && i < |waits| then waits[i] else Idle
    }

    /** The children that poll reported are waited for, in order. */
    method ReapReady(waits: seq<Wait>, ghost done: seq<Poll>) returns (ok: bool)
      requires Valid() && Reflects(log, done, |pids|)
      modifies this`log, this`fds, this`handles, this`results, this`childrenLeft
      ensures Valid() && OnlyWaits(old(log), log, {})
      ensures ok <==> !WaitFails(done, waits, |pids|)
      ensures ok ==> Reflects(log, done + [Ready(waits)], |pids|)
    {
      ghost var all := done + [Ready(waits)];
      forall j: nat ensures FirstDeath(all, j) == if FirstDeath(done, j).Some? then FirstDeath(done, j) else DeathIn(Ready(waits), j) {
        FirstDeathPush(done, Ready(waits), j);
      }
      for i := 0 to |fds|
        invariant Valid() && OnlyWaits(old(log), log, {})
        invariant forall j :: i <= j < |pids| ==> ReapOf(log, j) == FirstDeath(done, j)
        invariant forall j :: 0 <= j < i ==> ReapOf(log, j) == FirstDeath(all, j)
        invariant forall j :: 0 <= j < i && j < |waits| && waits[j].WaitError? ==> FirstDeath(done, j).Some?
      {
        assert ChildOk(i);
        var wait := Reported(waits, i);
        if wait.WaitError? {
          return false;
        }
        if wait.Died? {
          ghost var before := log;
          ReapChild(i, wait.info);
          forall j | 0 <= j < |pids| ensures ReapOf(log, j) == if j == i then Some(wait.info) else ReapOf(before, j) {
            ReapOfPush(before, Reap(i, wait.info), j);
          }
        }
      }
      return true;
    }

    /** One poll, after those `done`. A zero code means that waiting goes on. */
    method SingleWait(poll: Poll, ghost done: seq<Poll>) returns (ok: bool, code: nat)
      requires Valid() && Reflects(log, done, |pids|) && caughtSignal == Caught(done)
      modifies this
      ensures Valid() && OnlyWaits(old(log), log, SignalsOf([poll]))
      ensures StopOf(done, poll, |pids|) == if !ok then Some(OsError) else if code != 0 then Some(Raised(code)) else None
      ensures ok && code == 0 ==> Reflects(log, done + [poll], |pids|) && caughtSignal == Caught(done + [poll])
      ensures poll.Signal? && poll.signal != 0 ==> log == old(log) + Signals(old(log), 0, |pids|, poll.signal)
    {
      CaughtPush(done, poll);
      if poll.Ready? {
        ok := ReapReady(poll.waits, done);
        return ok, caughtSignal;
      }
      forall i | 0 <= i < |pids| ensures FirstDeath(done + [poll], i) == FirstDeath(done, i) { FirstDeathPush(done, poll, i); }
      match poll
      case Timeout => return true, 0;
      case PollError => return false, 0;
      case Signal(signal, count) =>
        if signal != 0 {
          KillChildren(signal);
          ReflectsSame(old(log), log, done, |pids|);
          SignalsOnlyKill(old(log), 0, |pids|, signal);
          assert [poll][0] == poll;
          assert signal in SignalsOf([poll]);
        }
        if count == 1 && signal == SIGINT {
          caughtSignal := signal;
          return true, 0;
        }
        return true, signal;
    }

    /** Wait until the deadline, which comes after `polls`, or until no child is left. */
    method WaitForAllChildren(polls: seq<Poll>, ghost done: seq<Poll>) returns (ended: Ended)
      requires Valid() && Reflects(log, done, |pids|) && caughtSignal == Caught(done)
      modifies this
      ensures OnlyWaits(old(log), log, SignalsOf(polls)) && Ordered(log)
      ensures ended == EndOf(done, polls, |pids|)
      ensures ended.Returned? ==> Reflects(log, done + polls, |pids|)
      ensures ended.Returned? && childrenLeft != 0 ==> caughtSignal == Caught(done + polls)
      ensures !ended.Raised? ==> Valid()
      ensures ended.Raised? ==> |results| == |pids| && forall i :: 0 <= i < |results| ==> results[i].result == Interrupted
    {
      var k := 0;
      ghost var so, left := done, polls;
      while childrenLeft != 0 && k < |polls|
        invariant 0 <= k <= |polls| && left == polls[k..] && so + left == done + polls
        invariant Valid() && OnlyWaits(old(log), log, SignalsOf(polls))
        invariant Reflects(log, so, |pids|) && caughtSignal == Caught(so)
        invariant EndOf(done, polls, |pids|) == EndOf(so, left, |pids|)
        decreases |polls| - k
      {
        LeftIffAlive(so);
        ghost var before := log;
        var ok, code := SingleWait(polls[k], so);
        WaitsGrow(old(log), before, log, polls, k);
        if !ok {
          return OsError;
        }
        if code != 0 {
          results := seq(|results|, i => ChildExitStatus(Interrupted, 0));
          return Raised(code);
        }
        NextOf(so, left);
        so, left := so + [left[0]], left[1..];
        k := k + 1;
      }
      LeftIffAlive(so);
      if childrenLeft == 0 {
        ReflectsMore(log, so, left, |pids|);
      } else {
        assert so + left == so;
      }
      return Returned;
    }

    /** Children are left just if the death of some was not reported. */
    lemma LeftIffAlive(done: seq<Poll>)
      requires Valid() && Reflects(log, done, |pids|)
      ensures childrenLeft == 0 <==> AllDead(done, |pids|)
    {
      NoneLeft();
      forall i | 0 <= i < |pids| ensures Alive(log, i) <==> FirstDeath(done, i).None? {
        assert ReapOf(log, i) == FirstDeath(done, i);
      }
    }

    /** No child is left just when all were reaped. */
    lemma NoneLeft()
      requires Valid()
      ensures childrenLeft == 0 <==> AllReaped(log, |pids|)
    {
      LiveZero(handles);
      forall i | 0 <= i < |pids| ensures handles[i] == 0 <==> !Alive(log, i) { assert ChildOk(i); }
    }

    /** Children that would not die get a result all the same. */
    method GiveUpOnRest(ghost polls: seq<Poll>)
      requires Valid() && Reflects(log, polls, |pids|)
      modifies this`log, this`results
      ensures log == old(log) + GiveUps(old(log), 0, |pids|) && Ordered(log) && |results| == |pids|
      ensures Reflects(log, polls, |pids|)
      ensures forall i :: 0 <= i < |pids| ==> results[i] == ResultOf(FirstDeath(polls, i))
    {
      ghost var before := log;
      forall i | 0 <= i < |pids| ensures results[i] == Outcome(before, i, Passed) { assert ChildOk(i); }
      for i := 0 to |handles|
        invariant handles == old(handles) && |results| == |pids|
        invariant Ordered(log) && SameReaps(before, log) && log + GiveUps(before, i, |pids|) == before + GiveUps(before, 0, |pids|)
        invariant forall j :: i <= j < |pids| ==> results[j] == Outcome(before, j, Passed)
        invariant forall j :: 0 <= j < i ==> results[j] == ResultOf(FirstDeath(polls, j))
      {
        assert old(ChildOk(i));
        if handles[i] == 0 {
          continue;
        }
        GiveUpPushed(before, log, i, |pids|);
        results := results[i := ChildExitStatus(TimedOut, 0)];
        log := log + [GiveUp(i)];
      }
      forall i | 0 <= i < |pids| ensures ReapOf(log, i) == FirstDeath(polls, i) { assert ReapOf(log, i) == ReapOf(before, i); }
    }

    /** wait_for_children. The polls are those before each of the three deadlines; `w1`, `w2` and `w3`
        are the traces when the waits end. Every child gets the result of the first death that was
        reported for it, and TimedOut if none was. */
    method WaitForChildren(first: seq<Poll>, second: seq<Poll>, third: seq<Poll>)
      returns (ended: Ended, ghost w1: seq<Action>, ghost w2: seq<Action>, ghost w3: seq<Action>)
      requires Valid() && log == [] && caughtSignal == 0
      modifies this
      ensures ended == WholeEnd(first, second, third, |pids|)
      ensures ended.Returned? ==> |results| == |pids| && forall i :: 0 <= i < |pids| ==>
                results[i] == ResultOf(FirstDeath(first + second + third, i))
      ensures ended.Raised? ==> |results| == |pids| && forall i :: 0 <= i < |pids| ==> results[i].result == Interrupted
      ensures ended.Returned? ==> Reflects(log, first + second + third, |pids|)
      ensures Ordered(log) && OnlyWaits([], w1, SignalsOf(first))
      ensures ended.Returned? ==> Escalates(w1, w2, w3, log, |pids|, SignalsOf(second), SignalsOf(third))
    {
      ended := WaitForAllChildren(first, []);
      assert [] + first == first;
      w1, w2, w3 := log, log, log;
      if !ended.Returned? {
        return;
      }
      LeftIffAlive(first);
      NoneLeft();
      if childrenLeft == 0 {
        ReflectsMore(log, first, second, |pids|);
        ReflectsMore(log, first + second, third, |pids|);
        AllChildrenOk(first + second + third);
        return;
      }
      KillChildren(SIGQUIT);
      ReflectsSame(w1, log, first, |pids|);
      ended := WaitForAllChildren(second, first);
      w2, w3 := log, log;
      if !ended.Returned? {
        return;
      }
      LeftIffAlive(first + second);
      NoneLeft();
      if childrenLeft == 0 {
        ReflectsMore(log, first + second, third, |pids|);
        AllChildrenOk(first + second + third);
        return;
      }
      KillChildren(SIGKILL);
      ReflectsSame(w2, log, first + second, |pids|);
      ended := WaitForAllChildren(third, first + second);
      w3 := log;
      if !ended.Returned? {
        return;
      }
      NoneLeft();
      if childrenLeft == 0 {
        AllChildrenOk(first + second + third);
        return;
      }
      GiveUpOnRest(first + second + third);
    }

    lemma AllChildrenOk(polls: seq<Poll>)
      requires Valid() && AllReaped(log, |pids|) && Reflects(log, polls, |pids|)
      ensures forall i :: 0 <= i < |pids| ==> results[i] == ResultOf(FirstDeath(polls, i))
      ensures log + GiveUps(log, 0, |pids|) == log
    {
      forall i | 0 <= i < |pids| ensures results[i] == ResultOf(FirstDeath(polls, i)) {
        assert ChildOk(i) && !Alive(log, i);
      }
      NoGiveUps(log, 0, |pids|);
    }
  }

  /** The result of a child whose death was reported, or not. A child that died of SIGQUIT is timed
      out as well, with that signal beside it. */
  function ResultOf(death: Option<ExitInfo>): (r: ChildExitStatus)
    ensures r == ChildExitStatus(TimedOut, 0) <==> death.None?
    ensures r.result == TimedOut <==> death.None? || DiedOf(death.value, SIGQUIT)
    ensures r.result == OutOfMemory <==> death.Some? && DiedOf(death.value, SIGKILL)
    ensures r.result == Killed <==> death.Some? && DiedOfOther(death.value) && death.value.death.KilledBy?
    ensures r.result == CoreDumped <==> death.Some? && DiedOfOther(death.value) && death.value.death.DumpedBy?
  {
    match death
    case None => ChildExitStatus(TimedOut, 0)
    case Some(info) => FromExit(info)
  }

  lemma NextOf(so: seq<Poll>, left: seq<Poll>)
    requires left != []
    ensures so + [left[0]] + left[1..] == so + left
  {
  }

  /** One more poll keeps the trace to deaths and to signals that came. */
  lemma WaitsGrow(start: seq<Action>, before: seq<Action>, after: seq<Action>, polls: seq<Poll>, k: nat)
    requires k < |polls| && OnlyWaits(start, before, SignalsOf(polls)) && OnlyWaits(before, after, SignalsOf([polls[k]]))
    ensures OnlyWaits(start, after, SignalsOf(polls))
  {
    SignalsGrow(polls, k);
  }

  lemma SignalsGrow(polls: seq<Poll>, k: nat)
    requires k < |polls|
    ensures SignalsOf([polls[k]]) <= SignalsOf(polls)
  {
  }
}
