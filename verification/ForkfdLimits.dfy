/** What the registry does not promise, and exactly when: with a compare-exchange that may fail
    spuriously an allocator can go on with a null array, and with that or with a child killed before
    its release a death can be passed by, so that it stays unreported until some other SIGCHLD brings
    another handler. */
module ForkfdLimits {
  import opened ForkfdRegistry
  import opened ForkfdBounds
  import opened ForkfdMatching
  import opened ForkfdDelivery
  import opened ForkfdTheorems

  ghost predicate Reaches(cfg: Config, s: State) {
    exists run :: IsRun(cfg, run) && run[|run| - 1] == s
  }

  lemma ReachStep(cfg: Config, s: State, st: Step, s': State)
    requires Reaches(cfg, s) && Next(cfg, s, st) == Some(s')
    ensures Reaches(cfg, s')
  {
    ghost var run :| IsRun(cfg, run) && run[|run| - 1] == s;
    ghost var run' := run + [s'];
    forall k | 0 < k < |run'| ensures StepsAt(cfg, run', k) {
      if k < |run| { assert StepsAt(cfg, run, k); }
    }
    assert IsRun(cfg, run') && run'[|run'| - 1] == s';
  }

  lemma ReachInit(cfg: Config)
    ensures Reaches(cfg, Init)
  {
    assert IsRun(cfg, [Init]);
  }

  /** `s` with actor `a` at `pc`. */
  function At(s: State, a: int, pc: Pc): State {
    s.(actors := s.actors[a := pc])
  }

  /** Actor `a`, at `pc`, makes the move `m`. */
  lemma ActAt(cfg: Config, s: State, a: int, pc: Pc, c: Choice, m: Move)
    requires Reaches(cfg, At(s, a, pc)) && NextMove(cfg, At(s, a, pc), pc, c) == Some(m) && Legal(s, m.w)
    ensures Reaches(cfg, At(Perform(s, m.w), a, m.pc))
  {
    ghost var s0, s1 := At(s, a, pc), At(Perform(s, m.w), a, m.pc);
    LegalIgnoresActors(s, s0, m.w);
    assert s0.actors[a := m.pc] == s1.actors;
    ReachStep(cfg, s0, Act(a, c), s1);
  }

  lemma LegalIgnoresActors(s: State, s0: State, w: Write)
    requires Legal(s, w) && s0 == s.(actors := s0.actors)
    ensures Legal(s0, w) && Perform(s0, w) == Perform(s, w).(actors := s0.actors)
    ensures Perform(s, w).actors == s.actors
  {
    LegalInBoth(s, s0, w);
    if w.ForkChild? || w.ReleaseChild? || w.ReapChild? { ChildIgnoresActors(s, s0, w); }
    else if w.NewPipe? || w.WritePipe? || w.ClosePipe? { PipeIgnoresActors(s, s0, w); }
  }

  lemma ChildIgnoresActors(s: State, s0: State, w: Write)
    requires Legal(s, w) && Legal(s0, w) && s0 == s.(actors := s0.actors) && (w.ForkChild? || w.ReleaseChild? || w.ReapChild?)
    ensures Perform(s0, w) == Perform(s, w).(actors := s0.actors) && Perform(s, w).actors == s.actors
  {
  }

  lemma PipeIgnoresActors(s: State, s0: State, w: Write)
    requires Legal(s, w) && Legal(s0, w) && s0 == s.(actors := s0.actors) && (w.NewPipe? || w.WritePipe? || w.ClosePipe?)
    ensures Perform(s0, w) == Perform(s, w).(actors := s0.actors) && Perform(s, w).actors == s.actors
  {
  }

  lemma LegalInBoth(s: State, s0: State, w: Write)
    requires Legal(s, w) && s0 == s.(actors := s0.actors)
    ensures Legal(s0, w)
  {
  }

  // ---------------------------------------------------------------------------------------------
  // Null array
  // ---------------------------------------------------------------------------------------------

  ghost predicate CanGoNull(cfg: Config) {
    exists s, a :: Reaches(cfg, s) && a in s.actors && s.actors[a] == NullArray
  }

  ghost predicate NoNull(s: State) {
    forall a :: a in s.actors ==> s.actors[a] != NullArray
  }

  lemma {:induction false} StrongNeverNull(cfg: Config, run: seq<State>, k: nat)
    requires IsRun(cfg, run) && k < |run| && !cfg.spurious
    ensures NoNull(run[k])
  {
    if k > 0 {
      StrongNeverNull(cfg, run, k - 1);
      StrongNext(cfg, run, k);
    }
  }

  lemma StrongNext(cfg: Config, run: seq<State>, k: nat)
    requires IsRun(cfg, run) && 0 < k < |run| && !cfg.spurious && NoNull(run[k - 1])
    ensures NoNull(run[k])
  {
    var st := StepAt(cfg, run, k);
    StrongStepNotNull(cfg, run[k - 1], st, run[k]);
  }

  lemma StrongStepNotNull(cfg: Config, s: State, st: Step, s': State)
    requires !cfg.spurious && NoNull(s) && Next(cfg, s, st) == Some(s')
    ensures NoNull(s')
  {
    if st.Act? { StrongMoveNotNull(cfg, s, s.actors[st.a], st.c); }
  }

  lemma StrongMoveNotNull(cfg: Config, s: State, pc: Pc, c: Choice)
    requires !cfg.spurious
    ensures NextMove(cfg, s, pc, c).Some? ==> NextMove(cfg, s, pc, c).value.pc != NullArray
  {
  }

  const Counted: State := Init.(busy := [1])

  /** Every compare-exchange on the static array fails in turn. */
  lemma {:induction false} FailAllSwaps(cfg: Config, i: nat)
    requires cfg.spurious && i <= SMALL_ARRAY
    ensures Reaches(cfg, At(Counted, 0, if i < SMALL_ARRAY then TakeFree(Slot(0, i)) else Undo(0)))
  {
    if i == 0 {
      ReachInit(cfg);
      ReachStep(cfg, Init, StartFork(0), At(Init, 0, Increment(0)));
      ActAt(cfg, Init, 0, Increment(0), Succeed, Move(AddBusy(0, 1), TakeFree(Slot(0, 0))));
    } else {
      FailAllSwaps(cfg, i - 1);
      ActAt(cfg, Counted, 0, TakeFree(Slot(0, i - 1)), Fail, Move(Nothing, AfterTakeFree(Slot(0, i - 1))));
    }
  }

  /** allocateInfo can continue with a null array exactly when the compare-exchange is a weak one. */
  lemma NullArrayIffSpurious(cfg: Config)
    ensures CanGoNull(cfg) <==> cfg.spurious
  {
    if cfg.spurious {
      FailAllSwaps(cfg, SMALL_ARRAY);
      ActAt(cfg, Counted, 0, Undo(0), Succeed, Move(AddBusy(0, -1), LoadNext(0)));
      assert Perform(Counted, AddBusy(0, -1)).busy == [0];
      ActAt(cfg, Init, 0, LoadNext(0), Succeed, Move(Nothing, Extend(0)));
      ActAt(cfg, Init, 0, Extend(0), Fail, Move(Nothing, NullArray));
      assert At(Init, 0, NullArray).actors[0] == NullArray;
    } else if CanGoNull(cfg) {
      ghost var s, a :| Reaches(cfg, s) && a in s.actors && s.actors[a] == NullArray;
      ghost var run :| IsRun(cfg, run) && run[|run| - 1] == s;
      StrongNeverNull(cfg, run, |run| - 1);
    }
  }

  // ---------------------------------------------------------------------------------------------
  // Unreported deaths
  // ---------------------------------------------------------------------------------------------

  /** Only the static array exists, and a compare-exchange on any of its entries can fail. */
  ghost predicate CanPass(cfg: Config, s: State) {
    && ArraysWhole(s) && |s.busy| == 1
    && (cfg.spurious || forall slot :: slot in s.entries ==> PidAt(s, slot) <= 0)
  }

  lemma {:induction false} MatchPasses(cfg: Config, s: State, a: int, pid: int, i: nat)
    requires CanPass(cfg, s) && pid > 0 && i < SMALL_ARRAY && Reaches(cfg, At(s, a, Match(pid, Slot(0, i))))
    ensures Reaches(cfg, At(s, a, MatchNext(pid, 0)))
    decreases SMALL_ARRAY - i
  {
    ActAt(cfg, s, a, Match(pid, Slot(0, i)), Fail, Move(Nothing, AfterMatch(pid, Slot(0, i))));
    if i + 1 < SMALL_ARRAY { MatchPasses(cfg, s, a, pid, i + 1); }
  }

  lemma ScanOne(cfg: Config, s: State, a: int, slot: Slot)
    requires CanPass(cfg, s) && slot in s.entries && Reaches(cfg, At(s, a, ScanLoad(slot)))
    ensures Reaches(cfg, At(s, a, AfterScan(slot)))
  {
    ghost var pid := PidAt(s, slot);
    if pid <= 0 {
      ActAt(cfg, s, a, ScanLoad(slot), Fail, Move(Nothing, AfterScan(slot)));
    } else {
      ActAt(cfg, s, a, ScanLoad(slot), Fail, Move(Nothing, ScanReady(slot, pid)));
      CheckFails(cfg, s, a, slot, pid);
    }
  }

  lemma CheckFails(cfg: Config, s: State, a: int, slot: Slot, pid: int)
    requires cfg.spurious && Reaches(cfg, At(s, a, ScanReady(slot, pid)))
    ensures Reaches(cfg, At(s, a, AfterScan(slot)))
  {
    if IsZombie(s, pid) {
      ActAt(cfg, s, a, ScanReady(slot, pid), Fail, Move(Nothing, ScanSwap(slot, pid)));
      ActAt(cfg, s, a, ScanSwap(slot, pid), Fail, Move(Nothing, AfterScan(slot)));
    } else {
      ActAt(cfg, s, a, ScanReady(slot, pid), Fail, Move(Nothing, AfterScan(slot)));
    }
  }

  lemma {:induction false} ScanPasses(cfg: Config, s: State, a: int, i: nat)
    requires CanPass(cfg, s) && i < SMALL_ARRAY && Reaches(cfg, At(s, a, ScanLoad(Slot(0, i))))
    ensures Reaches(cfg, At(s, a, ScanNext(0)))
    decreases SMALL_ARRAY - i
  {
    ScanOne(cfg, s, a, Slot(0, i));
    if i + 1 < SMALL_ARRAY { ScanPasses(cfg, s, a, i + 1); }
  }

  lemma SearchFails(cfg: Config, s: State, a: int, pid: int)
    requires CanPass(cfg, s) && pid > 0 && IsZombie(s, pid) && Reaches(cfg, At(s, a, Search))
    ensures Reaches(cfg, At(s, a, ScanLoad(Slot(0, 0))))
  {
    SearchPicks(cfg, s, a, pid);
    MatchPasses(cfg, s, a, pid, 0);
    ActAt(cfg, s, a, MatchNext(pid, 0), Succeed, Move(Nothing, ScanLoad(Slot(0, 0))));
  }

  lemma SearchPicks(cfg: Config, s: State, a: int, pid: int)
    requires IsZombie(s, pid) && Reaches(cfg, At(s, a, Search))
    ensures Reaches(cfg, At(s, a, Match(pid, Slot(0, 0))))
  {
    ActAt(cfg, s, a, Search, Pick(pid), Move(Nothing, Match(pid, Slot(0, 0))));
  }

  lemma HandlerStarts(cfg: Config, s: State, a: int)
    requires a !in s.actors && Reaches(cfg, s)
    ensures Reaches(cfg, At(s.(pending := false), a, Search))
  {
    ReachStep(cfg, s, StartHandler(a), At(s.(pending := false), a, Search));
  }

  /** A handler comes and goes, clearing the pending signal, and changes nothing else. */
  lemma HandlerPasses(cfg: Config, s: State, a: int, pid: int)
    requires CanPass(cfg, s) && pid > 0 && IsZombie(s, pid) && a !in s.actors && Reaches(cfg, s)
    ensures Reaches(cfg, At(s.(pending := false), a, Done))
  {
    HandlerStarts(cfg, s, a);
    SearchFails(cfg, s.(pending := false), a, pid);
    ScanEnds(cfg, s.(pending := false), a);
  }

  lemma ScanEnds(cfg: Config, s: State, a: int)
    requires CanPass(cfg, s) && Reaches(cfg, At(s, a, ScanLoad(Slot(0, 0))))
    ensures Reaches(cfg, At(s, a, Done))
  {
    ScanPasses(cfg, s, a, 0);
    ActAt(cfg, s, a, ScanNext(0), Succeed, Move(Nothing, Done));
  }

  const FIRST := Slot(0, 0)
  const CHILD := 7
  const PIPE := 1
  const STATUS := ExitStatus(1, 0)

  /** One thread has forked one child and not yet published it. */
  const JustForked: State :=
    Counted.(entries := Counted.entries[FIRST := Entry(-1, 0)], children := map[CHILD := Held],
             pipes := map[PIPE := Pipe([], 0, 0)], forks := map[CHILD := PIPE])

  const JustAllocated: State := Counted.(entries := Counted.entries[FIRST := Entry(-1, 0)])

  lemma ReachJustAllocated(cfg: Config)
    ensures Reaches(cfg, At(JustAllocated, 0, Allocated(FIRST)))
  {
    ReachInit(cfg);
    ReachStep(cfg, Init, StartFork(0), At(Init, 0, Increment(0)));
    ActAt(cfg, Init, 0, Increment(0), Succeed, Move(AddBusy(0, 1), TakeFree(FIRST)));
    ActAt(cfg, Counted, 0, TakeFree(FIRST), Succeed, Move(StorePid(FIRST, -1), Allocated(FIRST)));
  }

  lemma ReachJustForked(cfg: Config)
    ensures Reaches(cfg, At(JustForked, 0, Forked(FIRST, PIPE, CHILD)))
  {
    ReachJustAllocated(cfg);
    ghost var s := JustAllocated.(pipes := map[PIPE := Pipe([], 0, 0)]);
    ActAt(cfg, JustAllocated, 0, Allocated(FIRST), Pick(PIPE), Move(NewPipe(PIPE), Piped(FIRST, PIPE)));
    assert s == Perform(JustAllocated, NewPipe(PIPE));
    ActAt(cfg, s, 0, Piped(FIRST, PIPE), Pick(CHILD), Move(ForkChild(CHILD, PIPE), Forked(FIRST, PIPE, CHILD)));
    assert Perform(s, ForkChild(CHILD, PIPE)) == JustForked;
  }

  /** The forker publishes the child and releases it, whatever state `s` is in. */
  function Publish(s: State): State
    requires FIRST in s.entries && CHILD in s.children
  {
    Perform(s.(entries := s.entries[FIRST := Entry(CHILD, PIPE)]), ReleaseChild(CHILD))
  }

  lemma ForkerFinishes(cfg: Config, s: State)
    requires FIRST in s.entries && CHILD in s.children && Reaches(cfg, At(s, 0, Forked(FIRST, PIPE, CHILD)))
    ensures Reaches(cfg, At(Publish(s), 0, Done))
  {
    ghost var s1 := Perform(s, StorePipe(FIRST, PIPE));
    ActAt(cfg, s, 0, Forked(FIRST, PIPE, CHILD), Succeed, Move(StorePipe(FIRST, PIPE), PipeStored(FIRST, PIPE, CHILD)));
    ghost var s2 := Perform(s1, StorePid(FIRST, CHILD));
    ActAt(cfg, s1, 0, PipeStored(FIRST, PIPE, CHILD), Succeed, Move(StorePid(FIRST, CHILD), Published(PIPE, CHILD)));
    assert s2.entries == s.entries[FIRST := Entry(CHILD, PIPE)];
    ActAt(cfg, s2, 0, Published(PIPE, CHILD), Succeed, Move(ReleaseChild(CHILD), Done));
  }

  ghost predicate Unreported(s: State, pid: int) {
    && pid in s.forks && IsZombie(s, pid)
    && s.forks[pid] in s.pipes && s.pipes[s.forks[pid]].written == []
  }

  ghost predicate NoHandler(s: State) {
    forall a :: a in s.actors ==> !Handling(s.actors[a])
  }

  /** The states that `steps` lead through from `s`, with no handler started. */
  ghost predicate GoesOn(cfg: Config, s: State, states: seq<State>, steps: seq<Step>) {
    && |states| == |steps| + 1 && states[0] == s
    && forall k :: 0 <= k < |steps| ==> !steps[k].StartHandler? && Next(cfg, states[k], steps[k]) == Some(states[k + 1])
  }

  /** The death of `pid` is not reported, and will not be before another handler starts. */
  ghost predicate Lost(cfg: Config, s: State, pid: int) {
    forall states, steps :: GoesOn(cfg, s, states, steps) ==> Unreported(states[|steps|], pid)
  }

  /** Only a handler reports. */
  lemma MoveReports(cfg: Config, s: State, pc: Pc, c: Choice, m: Move)
    requires NextMove(cfg, s, pc, c) == Some(m) && !Handling(pc)
    ensures !m.w.WritePipe? && !m.w.ReapChild? && !Handling(m.pc)
  {
  }

  lemma WriteKeepsUnreported(s: State, w: Write, pid: int)
    requires Unreported(s, pid) && Legal(s, w) && !w.WritePipe? && !w.ReapChild?
    ensures Unreported(Perform(s, w), pid)
  {
  }

  lemma StaysUnreported(cfg: Config, s: State, st: Step, s': State, pid: int)
    requires Unreported(s, pid) && NoHandler(s) && !st.StartHandler? && Next(cfg, s, st) == Some(s')
    ensures Unreported(s', pid) && NoHandler(s')
  {
    if st.Act? {
      ghost var pc := s.actors[st.a];
      ghost var m := NextMove(cfg, s, pc, st.c).value;
      MoveReports(cfg, s, pc, st.c, m);
      WriteKeepsUnreported(s, m.w, pid);
      assert s'.actors == s.actors[st.a := m.pc];
    }
  }

  lemma {:induction false} UnreportedOn(cfg: Config, s: State, states: seq<State>, steps: seq<Step>, pid: int, k: nat)
    requires Unreported(s, pid) && NoHandler(s) && GoesOn(cfg, s, states, steps) && k <= |steps|
    ensures Unreported(states[k], pid) && NoHandler(states[k])
    decreases k
  {
    if k > 0 {
      UnreportedOn(cfg, s, states, steps, pid, k - 1);
      StaysUnreported(cfg, states[k - 1], steps[k - 1], states[k], pid);
    }
  }

  /** A state without pending signal or handler from which a death stays unreported. */
  ghost predicate CanLoseReport(cfg: Config) {
    exists s, pid :: Reaches(cfg, s) && Quiet(s) && Lost(cfg, s, pid)
  }

  lemma LostIsUnreported(cfg: Config, s: State, pid: int)
    requires Lost(cfg, s, pid)
    ensures Unreported(s, pid) && !AllReported(s)
  {
    assert GoesOn(cfg, s, [s], []);
    assert !Reported(s, pid);
  }

  lemma UnreportedState(cfg: Config, s: State)
    requires Reaches(cfg, s) && !s.pending && s.actors == map[0 := Done, 1 := Done]
    requires s.forks == map[CHILD := PIPE] && s.pipes == map[PIPE := Pipe([], 0, 0)] && IsZombie(s, CHILD)
    ensures CanLoseReport(cfg)
  {
    forall states, steps | GoesOn(cfg, s, states, steps) ensures Unreported(states[|steps|], CHILD) {
      UnreportedOn(cfg, s, states, steps, CHILD, |steps|);
    }
    assert Quiet(s) && Lost(cfg, s, CHILD);
  }

  const DeadChild: State :=
    At(Publish(JustForked), 0, Done).(children := map[CHILD := Zombie(STATUS)], pending := true)

  lemma ReachDead(cfg: Config)
    ensures Reaches(cfg, DeadChild)
  {
    ReachJustForked(cfg);
    ForkerFinishes(cfg, JustForked);
    ghost var alive := At(Publish(JustForked), 0, Done);
    assert alive.children[CHILD := Zombie(STATUS)] == map[CHILD := Zombie(STATUS)];
    ReachStep(cfg, alive, Die(CHILD, STATUS), DeadChild);
  }

  /** With a weak compare-exchange a handler can pass by a dead child. */
  lemma SpuriousLosesReport(cfg: Config)
    requires cfg.spurious
    ensures CanLoseReport(cfg)
  {
    ReachDead(cfg);
    HandlerPasses(cfg, DeadChild, 1, CHILD);
    UnreportedState(cfg, At(DeadChild.(pending := false), 1, Done));
  }

  /** A child killed before it is published is searched for in vain; the later publication is
      announced by no signal. */
  lemma EarlyDeathLosesReport(cfg: Config)
    requires cfg.earlyDeath
    ensures CanLoseReport(cfg)
  {
    PassedBeforePublished(cfg);
    ForkerFinishes(cfg, PassedBy);
    UnreportedState(cfg, At(Publish(PassedBy), 0, Done));
  }

  const PassedBy: State := JustForked.(children := map[CHILD := Zombie(STATUS)], actors := map[1 := Done])

  lemma PassedBeforePublished(cfg: Config)
    requires cfg.earlyDeath
    ensures Reaches(cfg, At(PassedBy, 0, Forked(FIRST, PIPE, CHILD)))
  {
    ghost var forked := At(JustForked, 0, Forked(FIRST, PIPE, CHILD));
    ghost var dead := forked.(children := map[CHILD := Zombie(STATUS)], pending := true);
    DiesEarly(cfg);
    HandlerPasses(cfg, dead, 1, CHILD);
    assert At(dead.(pending := false), 1, Done) == At(PassedBy, 0, Forked(FIRST, PIPE, CHILD));
  }

  lemma DiesEarly(cfg: Config)
    requires cfg.earlyDeath
    ensures Reaches(cfg, At(JustForked, 0, Forked(FIRST, PIPE, CHILD)).(children := map[CHILD := Zombie(STATUS)], pending := true))
  {
    ghost var forked := At(JustForked, 0, Forked(FIRST, PIPE, CHILD));
    ghost var dead := forked.(children := map[CHILD := Zombie(STATUS)], pending := true);
    ReachJustForked(cfg);
    assert forked.children[CHILD := Zombie(STATUS)] == dead.children;
    ReachStep(cfg, forked, Die(CHILD, STATUS), dead);
  }

  /** Once signals and handlers have settled every death has been reported, in every run, exactly
      when the compare-exchange is strong and no child dies before its release. */
  lemma ReportsLostIff(cfg: Config)
    ensures CanLoseReport(cfg) <==> cfg.spurious || cfg.earlyDeath
  {
    if cfg.spurious {
      SpuriousLosesReport(cfg);
    } else if cfg.earlyDeath {
      EarlyDeathLosesReport(cfg);
    } else {
      forall s, pid | Reaches(cfg, s) && Quiet(s) ensures !Lost(cfg, s, pid) {
        ghost var run :| IsRun(cfg, run) && run[|run| - 1] == s;
        DeathsAreReported(cfg, run, |run| - 1);
        if Lost(cfg, s, pid) { LostIsUnreported(cfg, s, pid); }
      }
    }
  }
}
