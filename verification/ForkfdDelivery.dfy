/** No entry leaks, no child is forgotten, and a dead child's status reaches its pipe: with a strong
    compare-exchange, once no SIGCHLD is pending and no handler is running, every forked child that
    died after its release has been reported. */
module ForkfdDelivery {
  import opened ForkfdRegistry
  import opened ForkfdBounds
  import opened ForkfdMatching

  // ---------------------------------------------------------------------------------------------
  // Every taken entry has an owner, every child has a place
  // ---------------------------------------------------------------------------------------------

  ghost predicate HasOwner(s: State, slot: Slot) {
    exists a :: a in s.actors && OwnedSlot(s.actors[a]) == Some(slot)
  }

  ghost predicate HasCarrier(s: State, pid: int) {
    exists a :: a in s.actors && Carried(s.actors[a]) == Some(pid)
  }

  ghost predicate IsPublished(s: State, pid: int) {
    exists slot :: slot in s.entries && PidAt(s, slot) == pid
  }

  /** The handler has written the status and closed the pipe. */
  predicate Delivered(s: State, pid: int) {
    pid in s.forks && s.forks[pid] in s.pipes && s.pipes[s.forks[pid]].closes == 1
  }

  ghost predicate Located(s: State, pid: int) {
    HasCarrier(s, pid) || IsPublished(s, pid) || Delivered(s, pid)
  }

  ghost predicate PlacesOk(s: State) {
    && (forall slot :: slot in s.entries && PidAt(s, slot) == -1 ==> HasOwner(s, slot))
    && (forall pid :: pid in s.forks ==> Located(s, pid))
  }

  lemma OwnerKept(cfg: Config, s: State, a: int, c: Choice, m: Move, s': State, slot: Slot)
    requires MatchOk(s) && PlacesOk(s) && a in s.actors && NextMove(cfg, s, s.actors[a], c) == Some(m)
    requires Legal(s, m.w) && s' == Perform(s, m.w).(actors := s.actors[a := m.pc])
    requires slot in s'.entries && PidAt(s', slot) == -1
    ensures HasOwner(s', slot)
  {
    ghost var pc := s.actors[a];
    assert ActorOk(s, pc) && InBounds(s, pc);
    MoveTransfers(cfg, s, pc, c, m);
    OwnerKeptByTransfer(s, a, m, s', slot);
  }

  lemma OwnerKeptByTransfer(s: State, a: int, m: Move, s': State, slot: Slot)
    requires ArraysWhole(s) && a in s.actors && Transfers(s, s.actors[a], m) && ActorOk(s, s.actors[a])
    requires PidOf(s.actors[a]).Some? ==> PidOf(s.actors[a]).value > 0
    requires slot in s.entries && PidAt(s, slot) == -1 ==> HasOwner(s, slot)
    requires Legal(s, m.w) && s' == Perform(s, m.w).(actors := s.actors[a := m.pc])
    requires slot in s'.entries && PidAt(s', slot) == -1
    ensures HasOwner(s', slot)
  {
    EntryAfterWrite(s, m.w, slot);
    if slot in s.entries && PidAt(s, slot) == -1 {
      ghost var b :| b in s.actors && OwnedSlot(s.actors[b]) == Some(slot);
      if b == a { OwnerStays(s, s.actors[a], m, slot); }
      assert b in s'.actors && OwnedSlot(s'.actors[b]) == Some(slot);
    } else {
      assert OwnedSlot(s'.actors[a]) == Some(slot);
    }
  }

  /** An entry reads -1 after a write only if it was there and read -1, or was made to. */
  lemma EntryAfterWrite(s: State, w: Write, slot: Slot)
    requires ArraysWhole(s) && Legal(s, w) && slot in Perform(s, w).entries && PidAt(Perform(s, w), slot) == -1
    ensures slot in s.entries
    ensures if w.StorePid? && w.slot == slot then w.pid == -1 else PidAt(s, slot) == -1
  {
    if slot in s.entries { PidAfterWrite(s, w, slot); }
  }

  /** While an entry reads -1 its owner does not let go of it. */
  lemma OwnerStays(s: State, pc: Pc, m: Move, slot: Slot)
    requires Transfers(s, pc, m) && ActorOk(s, pc) && OwnedSlot(pc) == Some(slot)
    requires PidOf(pc).Some? ==> PidOf(pc).value > 0
    requires !(m.w.StorePid? && m.w.slot == slot && m.w.pid != -1)
    ensures OwnedSlot(m.pc) == Some(slot)
  {
  }

  /** A child is let go by publishing it or by closing its pipe after the report. */
  ghost predicate LetsGo(s: State, pc: Pc, m: Move) {
    Carried(pc).Some? && Carried(m.pc) != Carried(pc) ==>
      var pid := Carried(pc).value;
      || (m.w.StorePid? && m.w.pid == pid)
      || (m.w.ClosePipe? && Gave(s, pid, m.w.p) && m.w.p in s.pipes && s.pipes[m.w.p].closes == 0)
  }

  lemma MoveLetsGo(cfg: Config, s: State, pc: Pc, c: Choice, m: Move)
    requires NextMove(cfg, s, pc, c) == Some(m) && LocalOk(s, pc)
    ensures LetsGo(s, pc, m)
  {
  }

  /** Whoever swaps a child out of an entry it does not own carries that child. */
  ghost predicate SwapsOut(s: State, pc: Pc, m: Move) {
    m.w.StorePid? && PidAt(s, m.w.slot) > 0 && OwnedSlot(pc).None? ==> Carried(m.pc) == Some(PidAt(s, m.w.slot))
  }

  lemma MoveSwapsOut(cfg: Config, s: State, pc: Pc, c: Choice, m: Move)
    requires NextMove(cfg, s, pc, c) == Some(m)
    ensures SwapsOut(s, pc, m)
  {
  }

  lemma DeliveredKept(s: State, pc: Pc, w: Write, pid: int)
    requires ForksOk(s) && ActorOk(s, pc) && Legal(s, w) && SafeWrite(s, pc, w) && Delivered(s, pid)
    ensures Delivered(Perform(s, w), pid)
  {
    assert PipeTells(s, pid);
    if w.ClosePipe? && w.p == s.forks[pid] { CloseIsOther(s, pc, w, pid); }
    DeliveredAfter(s, w, pid);
  }

  /** Nobody closes a pipe that was closed after the report. */
  lemma CloseIsOther(s: State, pc: Pc, w: Write, pid: int)
    requires ForksOk(s) && ActorOk(s, pc) && w.ClosePipe? && SafeWrite(s, pc, w) && Delivered(s, pid)
    ensures w.p != s.forks[pid]
  {
    assert PipeTells(s, pid);
  }

  lemma DeliveredAfter(s: State, w: Write, pid: int)
    requires Legal(s, w) && Delivered(s, pid) && pid in s.children && !(w.ClosePipe? && w.p == s.forks[pid])
    ensures Delivered(Perform(s, w), pid)
  {
  }

  lemma LocatedKept(s: State, a: int, m: Move, s': State, pid: int)
    requires MatchOk(s) && PlacesOk(s) && a in s.actors && Legal(s, m.w) && SafeWrite(s, s.actors[a], m.w)
    requires LetsGo(s, s.actors[a], m) && Transfers(s, s.actors[a], m) && SwapsOut(s, s.actors[a], m)
    requires s' == Perform(s, m.w).(actors := s.actors[a := m.pc]) && pid in s.forks
    ensures Located(s', pid)
  {
    ghost var pc := s.actors[a];
    assert ActorOk(s, pc) && PipeTells(s, pid);
    if HasCarrier(s, pid) {
      CarriedKept(s, a, m, s', pid);
    } else if IsPublished(s, pid) {
      ghost var slot :| slot in s.entries && PidAt(s, slot) == pid;
      PidAfterWrite(s, m.w, slot);
      if PidAt(s', slot) == pid { assert IsPublished(s', pid); }
      else { assert Carried(s'.actors[a]) == Some(pid); }
    } else {
      DeliveredKept(s, pc, m.w, pid);
      assert Delivered(s', pid);
    }
  }

  lemma CarriedKept(s: State, a: int, m: Move, s': State, pid: int)
    requires a in s.actors && Legal(s, m.w) && LetsGo(s, s.actors[a], m) && HasCarrier(s, pid) && pid in s.forks
    requires s' == Perform(s, m.w).(actors := s.actors[a := m.pc])
    ensures Located(s', pid)
  {
    ghost var b :| b in s.actors && Carried(s.actors[b]) == Some(pid);
    if Carried(s'.actors[b]) == Some(pid) {
      assert HasCarrier(s', pid);
    } else if m.w.StorePid? {
      assert m.w.slot in s'.entries && PidAt(s', m.w.slot) == pid;
    } else {
      assert Delivered(s', pid);
    }
  }

  lemma PlacesKeptByActor(cfg: Config, s: State, a: int, c: Choice, s': State)
    requires MatchOk(s) && PlacesOk(s) && a in s.actors && ActorStep(cfg, s, a, c) == Some(s')
    ensures PlacesOk(s')
  {
    ghost var pc := s.actors[a];
    ghost var m := NextMove(cfg, s, pc, c).value;
    forall slot | slot in s'.entries && PidAt(s', slot) == -1 ensures HasOwner(s', slot) {
      OwnerKept(cfg, s, a, c, m, s', slot);
    }
    forall pid | pid in s'.forks ensures Located(s', pid) {
      ChildKept(cfg, s, a, c, m, s', pid);
    }
  }

  lemma ChildKept(cfg: Config, s: State, a: int, c: Choice, m: Move, s': State, pid: int)
    requires MatchOk(s) && PlacesOk(s) && a in s.actors && NextMove(cfg, s, s.actors[a], c) == Some(m)
    requires Legal(s, m.w) && s' == Perform(s, m.w).(actors := s.actors[a := m.pc]) && pid in s'.forks
    ensures Located(s', pid)
  {
    ghost var pc := s.actors[a];
    if pid in s.forks {
      assert LocalOk(s, pc);
      MovePlaces(cfg, s, pc, c, m);
      LocatedKept(s, a, m, s', pid);
    } else {
      MoveForks(cfg, s, pc, c, m);
      NewChildCarried(s, a, m, s', pid);
    }
  }

  lemma NewChildCarried(s: State, a: int, m: Move, s': State, pid: int)
    requires Legal(s, m.w) && s' == Perform(s, m.w).(actors := s.actors[a := m.pc]) && pid in s'.forks && pid !in s.forks
    requires m.w.ForkChild? ==> Carried(m.pc) == Some(m.w.child)
    ensures Located(s', pid)
  {
    OnlyForkAddsChild(s, m.w, pid);
    assert a in s'.actors && Carried(s'.actors[a]) == Some(pid);
    assert HasCarrier(s', pid);
  }

  lemma OnlyForkAddsChild(s: State, w: Write, pid: int)
    requires Legal(s, w) && pid in Perform(s, w).forks && pid !in s.forks
    ensures w.ForkChild? && w.child == pid
  {
  }

  lemma MovePlaces(cfg: Config, s: State, pc: Pc, c: Choice, m: Move)
    requires NextMove(cfg, s, pc, c) == Some(m) && LocalOk(s, pc) && Legal(s, m.w)
    ensures SafeWrite(s, pc, m.w) && LetsGo(s, pc, m) && Transfers(s, pc, m) && SwapsOut(s, pc, m)
  {
    WriteIsSafe(cfg, s, pc, c, m);
    MoveTransfers(cfg, s, pc, c, m);
    MoveLetsGo(cfg, s, pc, c, m);
    MoveSwapsOut(cfg, s, pc, c, m);
  }

  lemma MoveForks(cfg: Config, s: State, pc: Pc, c: Choice, m: Move)
    requires NextMove(cfg, s, pc, c) == Some(m)
    ensures m.w.ForkChild? ==> Carried(m.pc) == Some(m.w.child)
  {
  }

  lemma PlacesKeptByWorld(cfg: Config, s: State, st: Step, s': State)
    requires PlacesOk(s) && !st.Act? && WorldStep(cfg, s, st) == Some(s')
    ensures PlacesOk(s')
  {
    forall slot | slot in s'.entries && PidAt(s', slot) == -1 ensures HasOwner(s', slot) {
      ghost var b :| b in s.actors && OwnedSlot(s.actors[b]) == Some(slot);
      assert b in s'.actors && OwnedSlot(s'.actors[b]) == Some(slot);
    }
    forall pid | pid in s'.forks ensures Located(s', pid) {
      if HasCarrier(s, pid) {
        ghost var b :| b in s.actors && Carried(s.actors[b]) == Some(pid);
        assert b in s'.actors && Carried(s'.actors[b]) == Some(pid);
      } else if IsPublished(s, pid) {
        ghost var slot :| slot in s.entries && PidAt(s, slot) == pid;
        assert slot in s'.entries && PidAt(s', slot) == pid;
      }
    }
  }

  lemma PlacesKept(cfg: Config, s: State, st: Step, s': State)
    requires MatchOk(s) && PlacesOk(s) && Next(cfg, s, st) == Some(s')
    ensures PlacesOk(s')
  {
    if st.Act? { PlacesKeptByActor(cfg, s, st.a, st.c, s'); } else { PlacesKeptByWorld(cfg, s, st, s'); }
  }

  // ---------------------------------------------------------------------------------------------
  // Children wait for their release
  // ---------------------------------------------------------------------------------------------

  function Forking(pc: Pc): Option<int> {
    match pc
    case Forked(_, _, pid) => Some(pid)
    case PipeStored(_, _, pid) => Some(pid)
    case Published(_, pid) => Some(pid)
    case _ => None
  }

  /** A child still with its forker was not released, and it has one forker. */
  ghost predicate ForkersOk(s: State) {
    && (forall pid :: pid in s.released ==> pid in s.children)
    && (forall a :: a in s.actors && Forking(s.actors[a]).Some? ==>
          Forking(s.actors[a]).value in s.children && Forking(s.actors[a]).value !in s.released)
    && (forall a, b :: a in s.actors && b in s.actors && a != b && Forking(s.actors[a]).Some? ==>
          Forking(s.actors[a]) != Forking(s.actors[b]))
  }

  /** Only its own forker releases a child, and lets go of it. */
  ghost predicate Releases(s: State, pc: Pc, m: Move) {
    && (Forking(m.pc).Some? ==> Forking(m.pc) == Forking(pc) || (m.w.ForkChild? && m.w.child == Forking(m.pc).value))
    && (m.w.ReleaseChild? ==> Forking(pc) == Some(m.w.child) && Forking(m.pc).None?)
  }

  lemma MoveReleases(cfg: Config, s: State, pc: Pc, c: Choice, m: Move)
    requires NextMove(cfg, s, pc, c) == Some(m)
    ensures Releases(s, pc, m)
  {
    if ForkMove(s, pc, c) == Some(m) { ForkReleases(s, pc, c, m); }
    else { OthersRelease(cfg, s, pc, c, m); }
  }

  lemma ForkReleases(s: State, pc: Pc, c: Choice, m: Move)
    requires ForkMove(s, pc, c) == Some(m)
    ensures Releases(s, pc, m)
  {
  }

  lemma OthersRelease(cfg: Config, s: State, pc: Pc, c: Choice, m: Move)
    requires NextMove(cfg, s, pc, c) == Some(m) && ForkMove(s, pc, c).None?
    ensures Releases(s, pc, m)
  {
  }

  lemma ForkersKeptByMove(s: State, a: int, m: Move, s': State)
    requires ForkersOk(s) && a in s.actors && Legal(s, m.w) && Releases(s, s.actors[a], m)
    requires s' == Perform(s, m.w).(actors := s.actors[a := m.pc])
    ensures ForkersOk(s')
  {
    forall pid | pid in s'.released ensures pid in s'.children { ReleasedAfter(s, m.w, pid); }
    forall b | b in s'.actors && Forking(s'.actors[b]).Some?
      ensures Forking(s'.actors[b]).value in s'.children && Forking(s'.actors[b]).value !in s'.released
    {
      ForkerStays(s, a, m, s', b);
    }
    ForkersApart(s, a, m);
  }

  lemma ForkerStays(s: State, a: int, m: Move, s': State, b: int)
    requires ForkersOk(s) && a in s.actors && Legal(s, m.w) && Releases(s, s.actors[a], m)
    requires s' == Perform(s, m.w).(actors := s.actors[a := m.pc]) && b in s'.actors && Forking(s'.actors[b]).Some?
    ensures Forking(s'.actors[b]).value in s'.children && Forking(s'.actors[b]).value !in s'.released
  {
    ReleasedAfter(s, m.w, Forking(s'.actors[b]).value);
  }

  lemma ForkersApart(s: State, a: int, m: Move)
    requires ForkersOk(s) && a in s.actors && Legal(s, m.w) && Releases(s, s.actors[a], m)
    ensures forall b :: b in s.actors && b != a && Forking(s.actors[b]).Some? ==> Forking(s.actors[b]) != Forking(m.pc)
  {
  }

  /** A write releases no child but the one it names, and no child disappears. */
  lemma ReleasedAfter(s: State, w: Write, pid: int)
    requires Legal(s, w)
    ensures pid in s.children || (w.ForkChild? && w.child == pid) <==> pid in Perform(s, w).children
    ensures pid in s.released ==> pid in Perform(s, w).released
    ensures pid in Perform(s, w).released ==>
              pid in s.released || (w.ReleaseChild? && w.child == pid && pid in s.children && s.children[pid].Held?)
  {
  }

  lemma ForkersKept(cfg: Config, s: State, st: Step, s': State)
    requires ForkersOk(s) && Next(cfg, s, st) == Some(s')
    ensures ForkersOk(s')
  {
    if st.Act? {
      ghost var pc := s.actors[st.a];
      ghost var m := NextMove(cfg, s, pc, st.c).value;
      MoveReleases(cfg, s, pc, st.c, m);
      ForkersKeptByMove(s, st.a, m, s');
    }
  }

  /** A forked child waits until it is released. */
  ghost predicate HeldOk(s: State) {
    forall pid :: pid in s.forks ==> pid in s.children && (s.children[pid].Held? || pid in s.released)
  }

  lemma HeldKeptByWrite(s: State, w: Write)
    requires HeldOk(s) && Legal(s, w)
    ensures HeldOk(Perform(s, w))
  {
  }

  lemma HeldKept(cfg: Config, s: State, st: Step, s': State)
    requires HeldOk(s) && !cfg.earlyDeath && Next(cfg, s, st) == Some(s')
    ensures HeldOk(s')
  {
    if st.Act? { HeldKeptByWrite(s, NextMove(cfg, s, s.actors[st.a], st.c).value.w); }
  }

  // ---------------------------------------------------------------------------------------------
  // No lost wake-up
  // ---------------------------------------------------------------------------------------------

  predicate Before(x: Slot, y: Slot) {
    x.sec < y.sec || (x.sec == y.sec && x.i < y.i)
  }

  predicate ContCovers(k: Cont, slot: Slot) {
    match k
    case Return => false
    case SearchAgain => true
    case ScanAfter(x) => Before(x, slot)
  }

  /** A handler at `pc` will still look at `slot`, or at any zombie, before it returns. */
  predicate Covers(pc: Pc, slot: Slot, pid: int) {
    match pc
    case Search | Match(_, _) | MatchNext(_, _) => true
    case Owned(_, _, k) => ContCovers(k, slot)
    case Reaped(_, _, _, k) => ContCovers(k, slot)
    case Notified(_, _, _, k) => ContCovers(k, slot)
    case ClearPipe(_, k) => ContCovers(k, slot)
    case ClearPid(_, k) => ContCovers(k, slot)
    case Decrement(_, k) => ContCovers(k, slot)
    case ScanLoad(x) => x == slot || Before(x, slot)
    case ScanReady(x, p) => Before(x, slot) || (x == slot && p == pid)
    case ScanSwap(x, p) => Before(x, slot) || (x == slot && p == pid)
    case ScanNext(sec) => sec < slot.sec
    case _ => false
  }

  /** The entry names a child that died after its release and was not waited for. */
  predicate ShowsZombie(s: State, slot: Slot) {
    slot in s.entries && PidAt(s, slot) > 0 && IsZombie(s, PidAt(s, slot)) && PidAt(s, slot) in s.released
  }

  /** Every such entry is announced by a pending signal or will be seen by a handler. */
  ghost predicate CoverOk(s: State) {
    forall slot :: ShowsZombie(s, slot) && !s.pending ==>
      exists a :: a in s.actors && Covers(s.actors[a], slot, PidAt(s, slot))
  }

  /** A covering handler moves on to a covering place, or takes the entry itself. */
  ghost predicate StaysCovering(s: State, m: Move, slot: Slot) {
    Covers(m.pc, slot, PidAt(s, slot)) || (m.w.StorePid? && m.w.slot == slot)
  }

  lemma ScanCovers(cfg: Config, s: State, pc: Pc, c: Choice, m: Move, slot: Slot)
    requires !cfg.spurious && ScanMove(cfg, s, pc, c) == Some(m) && ArraysWhole(s) && InBounds(s, pc)
    requires slot in s.entries && PidAt(s, slot) > 0 && IsZombie(s, PidAt(s, slot)) && Covers(pc, slot, PidAt(s, slot))
    ensures StaysCovering(s, m, slot)
  {
  }

  lemma MoveCovers(cfg: Config, s: State, pc: Pc, c: Choice, m: Move, slot: Slot)
    requires !cfg.spurious && NextMove(cfg, s, pc, c) == Some(m) && ArraysWhole(s) && InBounds(s, pc)
    requires slot in s.entries && PidAt(s, slot) > 0 && IsZombie(s, PidAt(s, slot)) && Covers(pc, slot, PidAt(s, slot))
    ensures StaysCovering(s, m, slot)
  {
    if ScanMove(cfg, s, pc, c) == Some(m) { ScanCovers(cfg, s, pc, c, m, slot); }
    else if SearchMove(cfg, s, pc, c) == Some(m) { SearchCovers(cfg, s, pc, c, m, slot); }
    else { ReportCovers(s, pc, m, slot); }
  }

  lemma SearchCovers(cfg: Config, s: State, pc: Pc, c: Choice, m: Move, slot: Slot)
    requires !cfg.spurious && SearchMove(cfg, s, pc, c) == Some(m) && ArraysWhole(s) && InBounds(s, pc)
    requires slot in s.entries && PidAt(s, slot) > 0 && IsZombie(s, PidAt(s, slot))
    ensures StaysCovering(s, m, slot)
  {
  }

  lemma ReportCovers(s: State, pc: Pc, m: Move, slot: Slot)
    requires FreeMove(pc) == Some(m) || NotifyMove(s, pc) == Some(m)
    requires ArraysWhole(s) && InBounds(s, pc) && slot in s.entries && Covers(pc, slot, PidAt(s, slot))
    ensures StaysCovering(s, m, slot)
  {
  }

  lemma NoNewZombies(s: State, w: Write, pid: int)
    requires Legal(s, w) && IsZombie(Perform(s, w), pid)
    ensures IsZombie(s, pid)
  {
  }

  lemma SlotStaysCovered(cfg: Config, s: State, a: int, c: Choice, m: Move, s': State, slot: Slot)
    requires !cfg.spurious && MatchOk(s) && ForkersOk(s) && CoverOk(s) && a in s.actors
    requires NextMove(cfg, s, s.actors[a], c) == Some(m) && Legal(s, m.w)
    requires s' == Perform(s, m.w).(actors := s.actors[a := m.pc]) && !s.pending && ShowsZombie(s', slot)
    ensures exists b :: b in s'.actors && Covers(s'.actors[b], slot, PidAt(s', slot))
  {
    ghost var pc := s.actors[a];
    assert InBounds(s, pc);
    NoNewZombies(s, m.w, PidAt(s', slot));
    ReleasedAfter(s, m.w, PidAt(s', slot));
    OldSlotKeepsPid(cfg, s, pc, c, m, slot);
    assert ShowsZombie(s, slot);
    ghost var b :| b in s.actors && Covers(s.actors[b], slot, PidAt(s, slot));
    if b == a { MoveCovers(cfg, s, pc, c, m, slot); }
    assert Covers(s'.actors[b], slot, PidAt(s', slot));
  }

  /** What is published now was published before: a child just published is not yet released. */
  lemma OldSlotKeepsPid(cfg: Config, s: State, pc: Pc, c: Choice, m: Move, slot: Slot)
    requires NextMove(cfg, s, pc, c) == Some(m) && Legal(s, m.w) && ArraysWhole(s)
    requires Forking(pc).Some? ==> Forking(pc).value !in s.released
    requires var s1 := Perform(s, m.w); slot in s1.entries && PidAt(s1, slot) > 0 && PidAt(s1, slot) in s.released
    ensures slot in s.entries && PidAt(Perform(s, m.w), slot) == PidAt(s, slot)
    ensures !(m.w.StorePid? && m.w.slot == slot)
  {
    MovePublishes(cfg, s, pc, c, m);
    ReleasedWasThere(s, m.w, slot);
  }

  /** A write that only publishes children not yet released puts no released child into an entry. */
  lemma ReleasedWasThere(s: State, w: Write, slot: Slot)
    requires Legal(s, w) && ArraysWhole(s)
    requires w.StorePid? && w.pid > 0 ==> w.pid !in s.released
    requires var s1 := Perform(s, w); slot in s1.entries && PidAt(s1, slot) > 0 && PidAt(s1, slot) in s.released
    ensures slot in s.entries && PidAt(Perform(s, w), slot) == PidAt(s, slot)
    ensures !(w.StorePid? && w.slot == slot)
  {
    if slot in s.entries { PidAfterWrite(s, w, slot); }
  }

  lemma MovePublishes(cfg: Config, s: State, pc: Pc, c: Choice, m: Move)
    requires NextMove(cfg, s, pc, c) == Some(m)
    ensures m.w.StorePid? && m.w.pid > 0 ==> Forking(pc) == Some(m.w.pid)
  {
  }

  lemma CoverKept(cfg: Config, s: State, st: Step, s': State)
    requires !cfg.spurious && MatchOk(s) && ForkersOk(s) && CoverOk(s) && Next(cfg, s, st) == Some(s')
    ensures CoverOk(s')
  {
    if st.Act? { CoverKeptByActor(cfg, s, st.a, st.c, s'); } else { CoverKeptByWorld(cfg, s, st, s'); }
  }

  lemma CoverKeptByActor(cfg: Config, s: State, a: int, c: Choice, s': State)
    requires !cfg.spurious && MatchOk(s) && ForkersOk(s) && CoverOk(s) && a in s.actors && ActorStep(cfg, s, a, c) == Some(s')
    ensures CoverOk(s')
  {
    ghost var m := NextMove(cfg, s, s.actors[a], c).value;
    PendingAfter(s, m.w);
    forall slot | ShowsZombie(s', slot) && !s'.pending
      ensures exists b :: b in s'.actors && Covers(s'.actors[b], slot, PidAt(s', slot))
    {
      SlotStaysCovered(cfg, s, a, c, m, s', slot);
    }
  }

  lemma PendingAfter(s: State, w: Write)
    requires Legal(s, w)
    ensures Perform(s, w).pending == s.pending
  {
  }

  lemma CoverKeptByWorld(cfg: Config, s: State, st: Step, s': State)
    requires CoverOk(s) && !st.Act? && WorldStep(cfg, s, st) == Some(s')
    ensures CoverOk(s')
  {
    forall slot | ShowsZombie(s', slot) && !s'.pending
      ensures exists a :: a in s'.actors && Covers(s'.actors[a], slot, PidAt(s', slot))
    {
      if st.StartHandler? {
        assert Covers(s'.actors[st.a], slot, PidAt(s', slot));
      } else {
        assert ShowsZombie(s, slot);
        ghost var b :| b in s.actors && Covers(s.actors[b], slot, PidAt(s, slot));
        assert Covers(s'.actors[b], slot, PidAt(s', slot));
      }
    }
  }
}
