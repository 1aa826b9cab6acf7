/** The results about the child registry, over every run. */
module ForkfdTheorems {
  import opened ForkfdRegistry
  import opened ForkfdBounds
  import opened ForkfdMatching
  import opened ForkfdDelivery

  ghost predicate Inv(cfg: Config, s: State) {
    && MatchOk(s) && CountOk(s) && PlacesOk(s) && ForkersOk(s)
    && (!cfg.earlyDeath ==> HeldOk(s))
    && (!cfg.spurious ==> CoverOk(s))
  }

  lemma InvInit(cfg: Config)
    ensures Inv(cfg, Init)
  {
    assert Taken(Init, 0) == {} && InFlight(Init, 0) == {};
  }

  lemma InvKept(cfg: Config, s: State, st: Step, s': State)
    requires Inv(cfg, s) && Next(cfg, s, st) == Some(s')
    ensures Inv(cfg, s')
  {
    MatchKept(cfg, s, st, s');
    CountKept(cfg, s, st, s');
    PlacesKept(cfg, s, st, s');
    ForkersKept(cfg, s, st, s');
    if !cfg.earlyDeath { HeldKept(cfg, s, st, s'); }
    if !cfg.spurious { CoverKept(cfg, s, st, s'); }
  }

  lemma {:induction false} RunKeepsInv(cfg: Config, run: seq<State>, k: nat)
    requires IsRun(cfg, run) && k < |run|
    ensures Inv(cfg, run[k])
  {
    if k == 0 {
      InvInit(cfg);
    } else {
      RunKeepsInv(cfg, run, k - 1);
      var st := StepAt(cfg, run, k);
      InvKept(cfg, run[k - 1], st, run[k]);
    }
  }

  // ---------------------------------------------------------------------------------------------
  // Counting and ownership
  // ---------------------------------------------------------------------------------------------

  /** busyCount is the number of entries that are not free plus the operations between counter and
      entry; so it never goes negative and the assertion in freeInfo holds. */
  lemma BusyCountExact(cfg: Config, run: seq<State>, k: nat, sec: nat)
    requires IsRun(cfg, run) && k < |run| && sec < |run[k].busy|
    ensures run[k].busy[sec] == |Taken(run[k], sec)| + |InFlight(run[k], sec)|
    ensures run[k].busy[sec] >= 0
  {
    RunKeepsInv(cfg, run, k);
  }

  /** An entry reads -1 exactly when one actor is working on it, and never two. */
  lemma OneOwner(cfg: Config, run: seq<State>, k: nat, slot: Slot)
    requires IsRun(cfg, run) && k < |run| && slot in run[k].entries
    ensures run[k].entries[slot].pid == -1 <==> HasOwner(run[k], slot)
    ensures forall a, b ::
              (&& a in run[k].actors && OwnedSlot(run[k].actors[a]) == Some(slot)
               && b in run[k].actors && OwnedSlot(run[k].actors[b]) == Some(slot)) ==> a == b
  {
    RunKeepsInv(cfg, run, k);
  }

  /** Whatever an actor is about to write exists: no access outside the arrays, no write to or close
      of a descriptor that was not opened, no wait for a child that is not there. */
  lemma AccessesExist(cfg: Config, run: seq<State>, k: nat, a: int, c: Choice, m: Move)
    requires IsRun(cfg, run) && k < |run| && a in run[k].actors
    requires NextMove(cfg, run[k], run[k].actors[a], c) == Some(m) && !m.w.NewPipe? && !m.w.ForkChild?
    ensures Legal(run[k], m.w)
  {
    RunKeepsInv(cfg, run, k);
    assert ActorOk(run[k], run[k].actors[a]) && InBounds(run[k], run[k].actors[a]);
    MoveLegal(cfg, run[k], run[k].actors[a], c, m);
  }

  lemma MoveLegal(cfg: Config, s: State, pc: Pc, c: Choice, m: Move)
    requires NextMove(cfg, s, pc, c) == Some(m) && ActorOk(s, pc) && InBounds(s, pc)
    requires !m.w.NewPipe? && !m.w.ForkChild?
    ensures Legal(s, m.w)
  {
    if AllocMove(cfg, s, pc, c) == Some(m) || ForkMove(s, pc, c) == Some(m) { ForkLegal(cfg, s, pc, c, m); }
    else { HandlerLegal(cfg, s, pc, c, m); }
  }

  lemma ForkLegal(cfg: Config, s: State, pc: Pc, c: Choice, m: Move)
    requires AllocMove(cfg, s, pc, c) == Some(m) || ForkMove(s, pc, c) == Some(m)
    requires ActorOk(s, pc) && InBounds(s, pc) && !m.w.NewPipe? && !m.w.ForkChild?
    ensures Legal(s, m.w)
  {
  }

  lemma HandlerLegal(cfg: Config, s: State, pc: Pc, c: Choice, m: Move)
    requires FreeMove(pc) == Some(m) || NotifyMove(s, pc) == Some(m) || SearchMove(cfg, s, pc, c) == Some(m) || ScanMove(cfg, s, pc, c) == Some(m)
    requires ActorOk(s, pc) && InBounds(s, pc)
    ensures Legal(s, m.w)
  {
  }

  /** tryReaping never returns 0 to a handler that has swapped an entry. */
  lemma ReapingSucceeds(cfg: Config, run: seq<State>, k: nat, a: int)
    requires IsRun(cfg, run) && k < |run| && a in run[k].actors && run[k].actors[a].Owned?
    ensures IsZombie(run[k], run[k].actors[a].pid)
  {
    RunKeepsInv(cfg, run, k);
    assert ActorOk(run[k], run[k].actors[a]);
  }

  // ---------------------------------------------------------------------------------------------
  // Which status reaches which pipe
  // ---------------------------------------------------------------------------------------------

  /** What forkfd_wait4 gets from a pipe: a payload, nothing yet, or end of file. */
  datatype WaitResult = Got(exit: ExitStatus) | WouldBlock | EndOfFile

  function Wait(p: Pipe): WaitResult {
    if p.taken < |p.written| then Got(p.written[p.taken])
    else if p.closes > 0 then EndOfFile
    else WouldBlock
  }

  /** Each death pipe gets at most one payload and is closed at most once, only after the payload;
      the payload is the status of the child whose fork returned the pipe. */
  lemma PipeGetsOwnStatusOnce(cfg: Config, run: seq<State>, k: nat, pid: int)
    requires IsRun(cfg, run) && k < |run| && pid in run[k].forks
    ensures pid in run[k].children && run[k].forks[pid] in run[k].pipes
    ensures var pipe := run[k].pipes[run[k].forks[pid]];
            && |pipe.written| <= 1 && pipe.closes <= |pipe.written|
            && (|pipe.written| == 1 ==> run[k].children[pid] == Collected(pipe.written[0]))
  {
    RunKeepsInv(cfg, run, k);
    assert PipeTells(run[k], pid);
  }

  /** forkfd_wait4 reports the status of its own child and of no other, and it reaches end of file
      only after that status was taken. */
  lemma WaitReportsOwnChild(cfg: Config, run: seq<State>, k: nat, pid: int)
    requires IsRun(cfg, run) && k < |run| && pid in run[k].forks
    ensures pid in run[k].children && run[k].forks[pid] in run[k].pipes
    ensures var pipe := run[k].pipes[run[k].forks[pid]];
            match Wait(pipe)
            case Got(exit) => run[k].children[pid] == Collected(exit)
            case EndOfFile => |pipe.written| == 1 && pipe.taken == 1 && run[k].children[pid] == Collected(pipe.written[0])
            case WouldBlock => pipe.closes == 0
  {
    PipeGetsOwnStatusOnce(cfg, run, k, pid);
    RunKeepsInv(cfg, run, k);
    assert PipeTells(run[k], pid);
  }

  /** Two children never share a pipe. */
  lemma PipesAreDistinct(cfg: Config, run: seq<State>, k: nat, pid: int, other: int)
    requires IsRun(cfg, run) && k < |run| && pid in run[k].forks && other in run[k].forks && pid != other
    ensures run[k].forks[pid] != run[k].forks[other]
  {
    RunKeepsInv(cfg, run, k);
  }

  ghost predicate SameFate(s: State, s': State, pid: int) {
    && (pid in s.forks ==> pid in s'.forks && s'.forks[pid] == s.forks[pid])
    && (Dead(s, pid) ==> Dead(s', pid) && s'.children[pid].exit == s.children[pid].exit)
  }

  lemma StepKeepsFate(cfg: Config, s: State, st: Step, s': State, pid: int)
    requires ForksOk(s) && Next(cfg, s, st) == Some(s')
    ensures SameFate(s, s', pid)
  {
    if st.Act? {
      WriteKeepsFate(s, NextMove(cfg, s, s.actors[st.a], st.c).value.w, pid);
    }
  }

  lemma WriteKeepsFate(s: State, w: Write, pid: int)
    requires Legal(s, w) && ForksOk(s)
    ensures SameFate(s, Perform(s, w), pid)
  {
    assert forall p :: p in s.forks ==> PipeTells(s, p);
  }

  lemma PipesTell(cfg: Config, run: seq<State>, k: nat)
    requires IsRun(cfg, run) && k < |run|
    ensures ForksOk(run[k])
  {
    RunKeepsInv(cfg, run, k);
  }

  /** A child keeps its pipe for ever, and once dead it keeps its status. */
  lemma {:induction false} FateIsSettled(cfg: Config, run: seq<State>, j: nat, k: nat, pid: int)
    requires IsRun(cfg, run) && j <= k < |run|
    ensures SameFate(run[j], run[k], pid)
    decreases k
  {
    if j < k {
      FateIsSettled(cfg, run, j, k - 1, pid);
      PipesTell(cfg, run, k - 1);
      var st := StepAt(cfg, run, k);
      StepKeepsFate(cfg, run[k - 1], st, run[k], pid);
      FateTrans(run[j], run[k - 1], run[k], pid);
    }
  }

  lemma FateTrans(a: State, b: State, c: State, pid: int)
    requires SameFate(a, b, pid) && SameFate(b, c, pid)
    ensures SameFate(a, c, pid)
  {
  }

  // ---------------------------------------------------------------------------------------------
  // Every death is reported
  // ---------------------------------------------------------------------------------------------

  /** A SIGCHLD handler is between its first and its last access. */
  predicate Handling(pc: Pc) {
    match pc
    case Search | Match(_, _) | MatchNext(_, _) | Owned(_, _, _) | Reaped(_, _, _, _) | Notified(_, _, _, _) => true
    case ScanLoad(_) | ScanReady(_, _) | ScanSwap(_, _) | ScanNext(_) => true
    case ClearPipe(_, k) => k != Return
    case ClearPid(_, k) => k != Return
    case Decrement(_, k) => k != Return
    case _ => false
  }

  /** No SIGCHLD is pending and no handler is running. */
  ghost predicate Quiet(s: State) {
    !s.pending && forall a :: a in s.actors ==> !Handling(s.actors[a])
  }

  ghost predicate Reported(s: State, pid: int) {
    && Delivered(s, pid) && Dead(s, pid)
    && s.pipes[s.forks[pid]].written == [s.children[pid].exit]
  }

  ghost predicate AllReported(s: State) {
    forall pid :: pid in s.forks && Dead(s, pid) ==> Reported(s, pid)
  }

  /** With a strong compare-exchange every child that died after its release is reported, whatever
      happened to other children. */
  lemma ReleasedDeathsAreReported(cfg: Config, run: seq<State>, k: nat, pid: int)
    requires !cfg.spurious && IsRun(cfg, run) && k < |run| && Quiet(run[k])
    requires pid in run[k].forks && Dead(run[k], pid) && pid in run[k].released
    ensures Reported(run[k], pid)
  {
    RunKeepsInv(cfg, run, k);
    DeathReported(cfg, run[k], pid);
  }

  lemma DeathReported(cfg: Config, s: State, pid: int)
    requires !cfg.spurious && Inv(cfg, s) && Quiet(s) && pid in s.forks && Dead(s, pid) && pid in s.released
    ensures Reported(s, pid)
  {
    assert PipeTells(s, pid) && Located(s, pid);
    forall a | a in s.actors ensures Carried(s.actors[a]) != Some(pid) {
      assert !Handling(s.actors[a]);
      assert Forking(s.actors[a]) != Some(pid);
    }
    forall slot | slot in s.entries ensures PidAt(s, slot) != pid {
      assert forall a :: a in s.actors ==> !Covers(s.actors[a], slot, pid);
      assert !ShowsZombie(s, slot);
    }
  }

  /** If moreover no child dies before its release, every death is reported. */
  lemma DeathsAreReported(cfg: Config, run: seq<State>, k: nat)
    requires !cfg.earlyDeath && !cfg.spurious && IsRun(cfg, run) && k < |run| && Quiet(run[k])
    ensures AllReported(run[k])
  {
    RunKeepsInv(cfg, run, k);
    forall pid | pid in run[k].forks && Dead(run[k], pid) ensures Reported(run[k], pid) {
      DeathReported(cfg, run[k], pid);
    }
  }
}
