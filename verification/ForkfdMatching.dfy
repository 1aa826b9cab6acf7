/** Which child's status goes into which death pipe, over every interleaving. */
module ForkfdMatching {
  import opened ForkfdRegistry
  import opened ForkfdBounds

  predicate Dead(s: State, pid: int) {
    pid in s.children && (s.children[pid].Zombie? || s.children[pid].Collected?)
  }

  predicate Unreaped(s: State, pid: int) {
    pid in s.children && !s.children[pid].Collected?
  }

  predicate FreshPipe(s: State, p: int) {
    p in s.pipes && s.pipes[p] == Pipe([], 0, 0)
  }

  /** `pid` was forked with death pipe `p`. */
  predicate Gave(s: State, pid: int, p: int) {
    pid in s.forks && s.forks[pid] == p
  }

  /** The pipe of a forked child is untouched until the child has been waited for; afterwards it
      may hold that child's status, once, and only then may it be closed, once. */
  ghost predicate PipeTells(s: State, pid: int)
    requires pid in s.forks
  {
    && pid in s.children
    && s.forks[pid] in s.pipes
    && var pipe := s.pipes[s.forks[pid]];
       && pipe.taken <= |pipe.written|
       && (Unreaped(s, pid) ==> pipe == Pipe([], 0, 0))
       && (s.children[pid].Collected? ==> pipe.written == [] || pipe.written == [s.children[pid].exit])
       && pipe.closes <= |pipe.written|
  }

  ghost predicate ForksOk(s: State) {
    && (forall pid :: pid in s.forks ==> PipeTells(s, pid))
    && (forall pid, pid' :: pid in s.forks && pid' in s.forks && pid != pid' ==> s.forks[pid] != s.forks[pid'])
  }

  /** A published entry names a forked child that nobody has waited for, and that child's pipe. */
  ghost predicate PublishedOk(s: State) {
    && (forall slot :: slot in s.entries && PidAt(s, slot) > 0 ==>
          Gave(s, PidAt(s, slot), PipeAt(s, slot)) && Unreaped(s, PidAt(s, slot)))
    && (forall x, y :: x in s.entries && y in s.entries && x != y && PidAt(s, x) > 0 ==> PidAt(s, x) != PidAt(s, y))
  }

  /** The child an actor is responsible for: forked but not yet published, or swapped out of the
      registry but not yet reported. */
  function Carried(pc: Pc): Option<int> {
    match pc
    case Forked(_, _, pid) => Some(pid)
    case PipeStored(_, _, pid) => Some(pid)
    case Owned(_, pid, _) => Some(pid)
    case Reaped(_, pid, _, _) => Some(pid)
    case Notified(_, pid, _, _) => Some(pid)
    case _ => None
  }

  ghost predicate ActorOk(s: State, pc: Pc) {
    match pc
    case Piped(_, p) => FreshPipe(s, p) && forall pid :: pid in s.forks ==> s.forks[pid] != p
    case Forked(_, p, pid) => Gave(s, pid, p) && Unreaped(s, pid)
    case PipeStored(slot, p, pid) => Gave(s, pid, p) && Unreaped(s, pid) && PipeAt(s, slot) == p
    case Published(p, pid) => Gave(s, pid, p) && pid in s.children
    case Match(pid, _) => Dead(s, pid)
    case MatchNext(pid, _) => Dead(s, pid)
    case ScanSwap(_, pid) => Dead(s, pid)
    case Owned(slot, pid, _) => Gave(s, pid, PipeAt(s, slot)) && IsZombie(s, pid)
    case Reaped(slot, pid, exit, _) =>
      && Gave(s, pid, PipeAt(s, slot)) && pid in s.children && s.children[pid] == Collected(exit)
      && FreshPipe(s, PipeAt(s, slot))
    case Notified(slot, pid, exit, _) =>
      && Gave(s, pid, PipeAt(s, slot)) && pid in s.children && s.children[pid] == Collected(exit)
      && PipeAt(s, slot) in s.pipes && s.pipes[PipeAt(s, slot)].written == [exit]
      && s.pipes[PipeAt(s, slot)].closes == 0
    case _ => true
  }

  ghost predicate CarriersApart(actors: map<int, Pc>) {
    forall a, b :: a in actors && b in actors && a != b && Carried(actors[a]).Some? ==>
      Carried(actors[a]) != Carried(actors[b])
  }

  /** A carried child is in no entry. */
  ghost predicate NotInEntries(s: State) {
    forall a, slot :: a in s.actors && slot in s.entries && Carried(s.actors[a]).Some? ==>
      PidAt(s, slot) != Carried(s.actors[a]).value
  }

  ghost predicate PipesApart(actors: map<int, Pc>) {
    forall a, b :: a in actors && b in actors && a != b && actors[a].Piped? && actors[b].Piped? ==>
      actors[a].pipe != actors[b].pipe
  }

  ghost predicate ActorsOk(s: State) {
    && (forall a :: a in s.actors ==> ActorOk(s, s.actors[a]))
    && CarriersApart(s.actors) && NotInEntries(s) && PipesApart(s.actors)
  }

  ghost predicate MatchOk(s: State) {
    && MemoryOk(s) && PidsPositive(s) && OwnOk(s)
    && ForksOk(s) && PublishedOk(s) && ActorsOk(s)
  }

  // ---------------------------------------------------------------------------------------------
  // What every write keeps
  // ---------------------------------------------------------------------------------------------

  /** The right an actor at `pc` has to make the write. */
  ghost predicate SafeWrite(s: State, pc: Pc, w: Write) {
    match w
    case StorePid(slot, v) => v > 0 ==> Gave(s, v, PipeAt(s, slot)) && Unreaped(s, v) && Carried(pc) == Some(v)
    case StorePipe(slot, _) => OwnedSlot(pc) == Some(slot)
    case WritePipe(p, exit) =>
      && Carried(pc).Some? && Gave(s, Carried(pc).value, p) && FreshPipe(s, p)
      && Carried(pc).value in s.children && s.children[Carried(pc).value] == Collected(exit)
    case ClosePipe(p) =>
      || (pc.Piped? && pc.pipe == p)
      || (Carried(pc).Some? && Gave(s, Carried(pc).value, p) && p in s.pipes && |s.pipes[p].written| == 1 && s.pipes[p].closes == 0)
    case ForkChild(_, p) => pc.Piped? && pc.pipe == p
    case ReapChild(pid) => Carried(pc) == Some(pid)
    case _ => true
  }

  lemma ForksKept(s: State, pc: Pc, w: Write)
    requires ForksOk(s) && ActorOk(s, pc) && Legal(s, w) && SafeWrite(s, pc, w)
    ensures ForksOk(Perform(s, w))
  {
    ghost var s' := Perform(s, w);
    forall pid | pid in s'.forks ensures PipeTells(s', pid) { PipeTellsKept(s, pc, w, pid); }
    ForksStayApart(s, pc, w);
  }

  lemma PipeTellsKept(s: State, pc: Pc, w: Write, pid: int)
    requires ForksOk(s) && ActorOk(s, pc) && Legal(s, w) && SafeWrite(s, pc, w) && pid in Perform(s, w).forks
    ensures PipeTells(Perform(s, w), pid)
  {
    if w.WritePipe? || w.ClosePipe? {
      UsedPipeTells(s, pc, w, pid);
    } else if pid in s.forks {
      assert PipeTells(s, pid);
    }
  }

  /** Whoever writes to a pipe or closes it carries the child of that pipe, so every other child's
      pipe is untouched. */
  lemma UsedPipeTells(s: State, pc: Pc, w: Write, pid: int)
    requires (w.WritePipe? || w.ClosePipe?) && ForksOk(s) && ActorOk(s, pc) && Legal(s, w) && SafeWrite(s, pc, w) && pid in s.forks
    ensures PipeTells(Perform(s, w), pid)
  {
    if w.WritePipe? { WrittenPipeTells(s, pc, w, pid); } else { ClosedPipeTells(s, pc, w, pid); }
  }

  lemma WrittenPipeTells(s: State, pc: Pc, w: Write, pid: int)
    requires w.WritePipe? && ForksOk(s) && Legal(s, w) && SafeWrite(s, pc, w) && pid in s.forks
    ensures PipeTells(Perform(s, w), pid)
  {
    assert PipeTells(s, pid);
  }

  lemma ClosedPipeTells(s: State, pc: Pc, w: Write, pid: int)
    requires w.ClosePipe? && ForksOk(s) && ActorOk(s, pc) && Legal(s, w) && SafeWrite(s, pc, w) && pid in s.forks
    ensures PipeTells(Perform(s, w), pid)
  {
    assert PipeTells(s, pid);
  }

  /** A child is given a pipe that no other child has. */
  lemma ForksStayApart(s: State, pc: Pc, w: Write)
    requires ForksOk(s) && ActorOk(s, pc) && Legal(s, w) && SafeWrite(s, pc, w)
    ensures var f := Perform(s, w).forks;
            forall pid, pid' :: pid in f && pid' in f && pid != pid' ==> f[pid] != f[pid']
  {
  }

  lemma PublishedKept(s: State, pc: Pc, w: Write)
    requires ArraysWhole(s) && PublishedOk(s) && Legal(s, w) && SafeWrite(s, pc, w)
    requires OwnedSlot(pc).Some? ==> PidAt(s, OwnedSlot(pc).value) == -1
    requires forall slot :: slot in s.entries && Carried(pc).Some? ==> PidAt(s, slot) != Carried(pc).value
    ensures PublishedOk(Perform(s, w))
  {
    if w.StorePid? {
      PublishedKeptByStore(s, w.slot, w.pid);
    } else if w.StorePipe? {
      PublishedKeptByPipe(s, w.slot, w.pipe);
    } else if w.AppendArray? {
      PublishedKeptByArray(s);
    } else {
      PublishedKeptOtherwise(s, w, Carried(pc));
    }
  }

  lemma PublishedKeptByPipe(s: State, slot: Slot, p: int)
    requires PublishedOk(s) && slot in s.entries && PidAt(s, slot) == -1
    ensures PublishedOk(Perform(s, StorePipe(slot, p)))
  {
  }

  lemma PublishedKeptByArray(s: State)
    requires ArraysWhole(s) && PublishedOk(s)
    ensures PublishedOk(Perform(s, AppendArray))
  {
  }

  /** The other writes leave the entries alone; a child is waited for only when it is in none. */
  lemma PublishedKeptOtherwise(s: State, w: Write, carried: Option<int>)
    requires PublishedOk(s) && Legal(s, w) && !w.StorePid? && !w.StorePipe? && !w.AppendArray?
    requires w.ReapChild? ==> carried == Some(w.child)
    requires forall slot :: slot in s.entries && carried.Some? ==> PidAt(s, slot) != carried.value
    ensures PublishedOk(Perform(s, w))
  {
  }

  lemma PublishedKeptByStore(s: State, slot: Slot, pid: int)
    requires PublishedOk(s) && slot in s.entries
    requires pid > 0 ==> Gave(s, pid, PipeAt(s, slot)) && Unreaped(s, pid)
    requires pid > 0 ==> forall x :: x in s.entries ==> PidAt(s, x) != pid
    ensures PublishedOk(Perform(s, StorePid(slot, pid)))
  {
  }

  /** A write by an actor at `pc` leaves alone what another actor, at `other`, relies on. */
  lemma OtherKept(s: State, pc: Pc, w: Write, other: Pc)
    requires ForksOk(s) && ArraysWhole(s) && Legal(s, w) && SafeWrite(s, pc, w)
    requires ActorOk(s, pc) && ActorOk(s, other) && InBounds(s, other)
    requires OwnedSlot(pc).Some? ==> OwnedSlot(pc) != OwnedSlot(other)
    requires Carried(pc).Some? ==> Carried(pc) != Carried(other)
    requires pc.Piped? && other.Piped? ==> pc.pipe != other.pipe
    ensures ActorOk(Perform(s, w), other)
  {
    if w.StorePid? || w.StorePipe? || w.AppendArray? { OtherKeptByEntry(s, w, other, OwnedSlot(pc)); }
    else if w.NewPipe? || w.WritePipe? || w.ClosePipe? { OtherKeptByPipe(s, pc, w, other); }
    else { OtherKeptByChild(s, pc, w, other); }
  }

  /** Only its owner stores the pipe of an entry. */
  lemma OtherKeptByEntry(s: State, w: Write, other: Pc, owned: Option<Slot>)
    requires ArraysWhole(s) && Legal(s, w) && ActorOk(s, other) && InBounds(s, other)
    requires w.StorePid? || w.AppendArray? || (w.StorePipe? && owned == Some(w.slot) && OwnedSlot(other) != owned)
    ensures ActorOk(Perform(s, w), other)
  {
  }

  lemma OtherKeptByPipe(s: State, pc: Pc, w: Write, other: Pc)
    requires ForksOk(s) && Legal(s, w) && SafeWrite(s, pc, w) && ActorOk(s, pc) && ActorOk(s, other)
    requires Carried(pc).Some? ==> Carried(pc) != Carried(other)
    requires pc.Piped? && other.Piped? ==> pc.pipe != other.pipe
    requires w.NewPipe? || w.WritePipe? || w.ClosePipe?
    ensures ActorOk(Perform(s, w), other)
  {
  }

  lemma OtherKeptByChild(s: State, pc: Pc, w: Write, other: Pc)
    requires ForksOk(s) && Legal(s, w) && SafeWrite(s, pc, w) && ActorOk(s, other)
    requires Carried(pc).Some? ==> Carried(pc) != Carried(other)
    requires pc.Piped? && other.Piped? ==> pc.pipe != other.pipe
    requires w.Nothing? || w.AddBusy? || w.ForkChild? || w.ReleaseChild? || w.ReapChild?
    ensures ActorOk(Perform(s, w), other)
  {
  }

  ghost predicate LocalOk(s: State, pc: Pc) {
    && ArraysWhole(s) && ForksOk(s) && PublishedOk(s)
    && ActorOk(s, pc) && InBounds(s, pc)
    && (PidOf(pc).Some? ==> PidOf(pc).value > 0)
  }

  lemma NotifyIsSafe(s: State, pc: Pc, m: Move)
    requires NotifyMove(s, pc) == Some(m) && ActorOk(s, pc)
    ensures SafeWrite(s, pc, m.w)
  {
  }

  lemma WriteIsSafe(cfg: Config, s: State, pc: Pc, c: Choice, m: Move)
    requires NextMove(cfg, s, pc, c) == Some(m) && ActorOk(s, pc)
    ensures SafeWrite(s, pc, m.w)
  {
    if NotifyMove(s, pc) == Some(m) { NotifyIsSafe(s, pc, m); }
  }

  /** A handler that swaps an entry finds there the child it was told is dead, with its pipe. */
  lemma SwapFindsZombie(s: State, slot: Slot, pid: int)
    requires PublishedOk(s) && slot in s.entries && PidAt(s, slot) == pid && pid > 0 && Dead(s, pid)
    ensures Gave(s, pid, PipeAt(s, slot)) && IsZombie(s, pid)
  {
  }

  predicate IsForking(pc: Pc) {
    pc.Allocated? || pc.Piped? || pc.Forked? || pc.PipeStored?
  }

  lemma ForkLandsOk(cfg: Config, s: State, pc: Pc, c: Choice, m: Move)
    requires NextMove(cfg, s, pc, c) == Some(m) && Legal(s, m.w) && LocalOk(s, pc) && IsForking(pc)
    ensures ActorOk(Perform(s, m.w), m.pc)
  {
  }

  predicate IsReaping(pc: Pc) {
    pc.Owned? || pc.Reaped? || pc.Notified?
  }

  lemma ReapLandsOk(cfg: Config, s: State, pc: Pc, c: Choice, m: Move)
    requires NextMove(cfg, s, pc, c) == Some(m) && Legal(s, m.w) && LocalOk(s, pc) && IsReaping(pc)
    ensures ActorOk(Perform(s, m.w), m.pc)
  {
    assert PipeTells(s, pc.pid);
    if pc.Owned? { OwnedLandsOk(s, pc, m); }
  }

  lemma OwnedLandsOk(s: State, pc: Pc, m: Move)
    requires pc.Owned? && NotifyMove(s, pc) == Some(m) && Legal(s, m.w) && ForksOk(s) && ActorOk(s, pc)
    ensures ActorOk(Perform(s, m.w), m.pc)
  {
    assert PipeTells(s, pc.pid);
  }

  lemma SearchLandsOk(cfg: Config, s: State, pc: Pc, c: Choice, m: Move)
    requires SearchMove(cfg, s, pc, c) == Some(m) && Legal(s, m.w) && LocalOk(s, pc)
    ensures ActorOk(Perform(s, m.w), m.pc)
  {
    if m.pc.Owned? { SwapFindsZombie(s, m.pc.slot, m.pc.pid); }
  }

  lemma ScanLandsOk(cfg: Config, s: State, pc: Pc, c: Choice, m: Move)
    requires ScanMove(cfg, s, pc, c) == Some(m) && Legal(s, m.w) && LocalOk(s, pc)
    ensures ActorOk(Perform(s, m.w), m.pc)
  {
    if m.pc.Owned? { SwapFindsZombie(s, m.pc.slot, m.pc.pid); }
  }

  lemma LandsOk(cfg: Config, s: State, pc: Pc, c: Choice, m: Move)
    requires NextMove(cfg, s, pc, c) == Some(m) && Legal(s, m.w) && LocalOk(s, pc)
    ensures ActorOk(Perform(s, m.w), m.pc)
  {
    if IsForking(pc) { ForkLandsOk(cfg, s, pc, c, m); }
    else if IsReaping(pc) { ReapLandsOk(cfg, s, pc, c, m); }
    else if SearchMove(cfg, s, pc, c) == Some(m) { SearchLandsOk(cfg, s, pc, c, m); }
    else if ScanMove(cfg, s, pc, c) == Some(m) { ScanLandsOk(cfg, s, pc, c, m); }
    else { OthersLandOk(cfg, s, pc, c, m); }
  }

  lemma OthersLandOk(cfg: Config, s: State, pc: Pc, c: Choice, m: Move)
    requires (pc.Published? && ForkMove(s, pc, c) == Some(m)) || AllocMove(cfg, s, pc, c) == Some(m) || FreeMove(pc) == Some(m)
    requires Legal(s, m.w) && LocalOk(s, pc)
    ensures ActorOk(Perform(s, m.w), m.pc)
  {
    if FreeMove(pc) == Some(m) { FreeLandsOk(s, pc, m); }
  }

  lemma FreeLandsOk(s: State, pc: Pc, m: Move)
    requires FreeMove(pc) == Some(m) && Legal(s, m.w)
    ensures ActorOk(Perform(s, m.w), m.pc)
  {
  }

  /** A child is taken on by forking it or by swapping it out of its entry. */
  ghost predicate TakesOn(s: State, pc: Pc, m: Move) {
    && (Carried(m.pc).Some? && Carried(m.pc) != Carried(pc) ==>
          var pid := Carried(m.pc).value;
          || (m.w.ForkChild? && m.w.child == pid)
          || (m.w.StorePid? && m.w.pid == -1 && m.w.slot in s.entries && PidAt(s, m.w.slot) == pid && pid > 0))
    && (m.w.StorePid? && m.w.pid > 0 ==> Carried(m.pc).None?)
    && (m.pc.Piped? ==> m.w == NewPipe(m.pc.pipe))
  }

  lemma SwapTakesOn(cfg: Config, s: State, pc: Pc, c: Choice, m: Move)
    requires SearchMove(cfg, s, pc, c) == Some(m) || ScanMove(cfg, s, pc, c) == Some(m)
    requires InBounds(s, pc) && (PidOf(pc).Some? ==> PidOf(pc).value > 0)
    ensures TakesOn(s, pc, m)
  {
  }

  lemma MoveTakesOn(cfg: Config, s: State, pc: Pc, c: Choice, m: Move)
    requires NextMove(cfg, s, pc, c) == Some(m)
    requires InBounds(s, pc) && (PidOf(pc).Some? ==> PidOf(pc).value > 0)
    ensures TakesOn(s, pc, m)
  {
    if SearchMove(cfg, s, pc, c) == Some(m) || ScanMove(cfg, s, pc, c) == Some(m) {
      SwapTakesOn(cfg, s, pc, c, m);
    } else if ForkMove(s, pc, c) == Some(m) {
      ForkTakesOn(s, pc, c, m);
    } else {
      OthersTakeOn(cfg, s, pc, c, m);
    }
  }

  lemma ForkTakesOn(s: State, pc: Pc, c: Choice, m: Move)
    requires ForkMove(s, pc, c) == Some(m)
    ensures TakesOn(s, pc, m)
  {
  }

  lemma OthersTakeOn(cfg: Config, s: State, pc: Pc, c: Choice, m: Move)
    requires AllocMove(cfg, s, pc, c) == Some(m) || FreeMove(pc) == Some(m) || NotifyMove(s, pc) == Some(m)
    ensures TakesOn(s, pc, m)
  {
  }

  lemma CarriedIsChild(s: State, pc: Pc)
    requires ForksOk(s) && ActorOk(s, pc) && Carried(pc).Some?
    ensures Carried(pc).value in s.children && Carried(pc).value in s.forks
  {
  }

  lemma CarriersStayApart(s: State, a: int, m: Move)
    requires a in s.actors && Legal(s, m.w) && TakesOn(s, s.actors[a], m) && CarriersApart(s.actors)
    requires NotInEntries(s) && ForksOk(s) && forall b :: b in s.actors ==> ActorOk(s, s.actors[b])
    ensures CarriersApart(s.actors[a := m.pc])
  {
    forall b | b in s.actors && b != a && Carried(m.pc).Some? ensures Carried(m.pc) != Carried(s.actors[b]) {
      if Carried(s.actors[b]).Some? { CarriedIsChild(s, s.actors[b]); }
    }
  }

  lemma EntriesStayApart(s: State, a: int, m: Move, b: int, slot: Slot)
    requires ArraysWhole(s) && a in s.actors && Legal(s, m.w) && TakesOn(s, s.actors[a], m)
    requires SafeWrite(s, s.actors[a], m.w) && CarriersApart(s.actors) && NotInEntries(s) && PublishedOk(s)
    requires slot in Perform(s, m.w).entries && b in s.actors
    requires Carried(if b == a then m.pc else s.actors[b]).Some?
    requires Carried(s.actors[b]).Some? ==> Carried(s.actors[b]).value > 0
    ensures PidAt(Perform(s, m.w), slot) != Carried(if b == a then m.pc else s.actors[b]).value
  {
    if slot in s.entries {
      PidAfterWrite(s, m.w, slot);
      OldEntryApart(s, a, m, b, slot);
    } else {
      NewEntryFree(s, m.w, slot);
      CarriedPositive(s, a, m, b);
    }
  }

  lemma NewEntryFree(s: State, w: Write, slot: Slot)
    requires Legal(s, w) && slot !in s.entries && slot in Perform(s, w).entries
    ensures PidAt(Perform(s, w), slot) == 0
  {
  }

  lemma CarriedPositive(s: State, a: int, m: Move, b: int)
    requires a in s.actors && b in s.actors && Legal(s, m.w) && TakesOn(s, s.actors[a], m)
    requires Carried(if b == a then m.pc else s.actors[b]).Some?
    requires Carried(s.actors[b]).Some? ==> Carried(s.actors[b]).value > 0
    ensures Carried(if b == a then m.pc else s.actors[b]).value > 0
  {
  }

  lemma OldEntryApart(s: State, a: int, m: Move, b: int, slot: Slot)
    requires a in s.actors && Legal(s, m.w) && TakesOn(s, s.actors[a], m) && SafeWrite(s, s.actors[a], m.w)
    requires CarriersApart(s.actors) && NotInEntries(s) && PublishedOk(s) && slot in s.entries && b in s.actors
    requires Carried(if b == a then m.pc else s.actors[b]).Some?
    requires Carried(s.actors[b]).Some? ==> Carried(s.actors[b]).value > 0
    ensures (if m.w.StorePid? && m.w.slot == slot then m.w.pid else PidAt(s, slot))
            != Carried(if b == a then m.pc else s.actors[b]).value
  {
  }

  lemma PipesStayApart(s: State, a: int, m: Move)
    requires a in s.actors && Legal(s, m.w) && TakesOn(s, s.actors[a], m) && PipesApart(s.actors)
    requires forall b :: b in s.actors ==> ActorOk(s, s.actors[b])
    ensures PipesApart(s.actors[a := m.pc])
  {
    forall b | b in s.actors && b != a && s.actors[b].Piped? && m.pc.Piped? ensures s.actors[b].pipe != m.pc.pipe {
      assert ActorOk(s, s.actors[b]);
    }
  }

  lemma EachActorKept(cfg: Config, s: State, a: int, c: Choice, m: Move, b: int)
    requires MatchOk(s) && a in s.actors && NextMove(cfg, s, s.actors[a], c) == Some(m) && Legal(s, m.w)
    requires b in s.actors && SafeWrite(s, s.actors[a], m.w)
    ensures ActorOk(Perform(s, m.w), if b == a then m.pc else s.actors[b])
  {
    ghost var pc, other := s.actors[a], s.actors[b];
    assert LocalOk(s, pc);
    if b == a { LandsOk(cfg, s, pc, c, m); } else { OtherKept(s, pc, m.w, other); }
  }

  lemma EntriesAllApart(s: State, a: int, m: Move, s1: State)
    requires MatchOk(s) && a in s.actors && Legal(s, m.w) && s1 == Perform(s, m.w)
    requires SafeWrite(s, s.actors[a], m.w) && TakesOn(s, s.actors[a], m)
    ensures NotInEntries(s1.(actors := s.actors[a := m.pc]))
  {
    ghost var actors' := s.actors[a := m.pc];
    forall b, slot | b in actors' && slot in s1.entries && Carried(actors'[b]).Some?
      ensures PidAt(s1, slot) != Carried(actors'[b]).value
    {
      if Carried(s.actors[b]).Some? { CarriedIsChild(s, s.actors[b]); }
      EntriesStayApart(s, a, m, b, slot);
    }
    NotInEntriesAfter(s1, actors');
  }

  lemma NotInEntriesAfter(s1: State, actors': map<int, Pc>)
    requires forall b, slot :: b in actors' && slot in s1.entries && Carried(actors'[b]).Some? ==>
               PidAt(s1, slot) != Carried(actors'[b]).value
    ensures NotInEntries(s1.(actors := actors'))
  {
  }

  lemma ActorOkIgnoresActors(s1: State, s': State)
    requires s' == s1.(actors := s'.actors) && forall b :: b in s'.actors ==> ActorOk(s1, s'.actors[b])
    ensures forall b :: b in s'.actors ==> ActorOk(s', s'.actors[b])
  {
    forall b | b in s'.actors ensures ActorOk(s', s'.actors[b]) { assert ActorOk(s1, s'.actors[b]); }
  }

  lemma ActorsKept(cfg: Config, s: State, a: int, c: Choice, m: Move, s1: State, s': State)
    requires MatchOk(s) && a in s.actors && NextMove(cfg, s, s.actors[a], c) == Some(m) && Legal(s, m.w)
    requires SafeWrite(s, s.actors[a], m.w) && LocalOk(s, s.actors[a])
    requires s1 == Perform(s, m.w) && s' == s1.(actors := s.actors[a := m.pc])
    ensures ActorsOk(s')
  {
    MoveTakesOn(cfg, s, s.actors[a], c, m);
    forall b | b in s'.actors ensures ActorOk(s1, s'.actors[b]) { EachActorKept(cfg, s, a, c, m, b); }
    ActorOkIgnoresActors(s1, s');
    CarriersStayApart(s, a, m);
    PipesStayApart(s, a, m);
    EntriesAllApart(s, a, m, s1);
  }

  lemma MatchKeptByActor(cfg: Config, s: State, a: int, c: Choice, s': State)
    requires MatchOk(s) && a in s.actors && ActorStep(cfg, s, a, c) == Some(s')
    ensures ForksOk(s') && PublishedOk(s') && ActorsOk(s')
  {
    ghost var pc := s.actors[a];
    ghost var m := NextMove(cfg, s, pc, c).value;
    assert LocalOk(s, pc);
    WriteIsSafe(cfg, s, pc, c, m);
    ForksKept(s, pc, m.w);
    PublishedKept(s, pc, m.w);
    FactsIgnoreActors(Perform(s, m.w), s');
    ActorsKept(cfg, s, a, c, m, Perform(s, m.w), s');
  }

  lemma FactsIgnoreActors(s: State, s': State)
    requires ForksOk(s) && PublishedOk(s) && s' == s.(actors := s'.actors)
    ensures ForksOk(s') && PublishedOk(s')
  {
    forall pid | pid in s'.forks ensures PipeTells(s', pid) { assert PipeTells(s, pid); }
  }

  lemma WorldKeepsPipes(cfg: Config, s: State, st: Step, s': State)
    requires ForksOk(s) && !st.Act? && WorldStep(cfg, s, st) == Some(s')
    ensures ForksOk(s')
  {
    forall pid | pid in s'.forks ensures PipeTells(s', pid) { assert PipeTells(s, pid); }
  }

  lemma WorldKeepsActor(cfg: Config, s: State, st: Step, s': State, pc: Pc)
    requires ForksOk(s) && !st.Act? && WorldStep(cfg, s, st) == Some(s') && ActorOk(s, pc)
    ensures ActorOk(s', pc)
  {
    if st.Wait4? {
      TakeKeepsActor(s, st.pipe, s', pc);
    } else if st.ReapForeign? {
      ForeignReapKeepsActor(s, st.pid, s', pc);
    }
  }

  lemma TakeKeepsActor(s: State, p: int, s': State, pc: Pc)
    requires p in s.pipes && s.pipes[p].taken < |s.pipes[p].written| && ActorOk(s, pc)
    requires s' == s.(pipes := s.pipes[p := s.pipes[p].(taken := s.pipes[p].taken + 1)])
    ensures ActorOk(s', pc)
  {
  }

  lemma ForeignReapKeepsActor(s: State, pid: int, s': State, pc: Pc)
    requires IsZombie(s, pid) && pid !in s.forks && s' == Perform(s, ReapChild(pid)) && ActorOk(s, pc)
    ensures ActorOk(s', pc)
  {
  }

  lemma WorldKeepsEntries(cfg: Config, s: State, st: Step, s': State)
    requires PublishedOk(s) && !st.Act? && WorldStep(cfg, s, st) == Some(s')
    ensures PublishedOk(s')
  {
  }

  lemma MatchKeptByWorld(cfg: Config, s: State, st: Step, s': State)
    requires ForksOk(s) && PublishedOk(s) && ActorsOk(s) && !st.Act? && WorldStep(cfg, s, st) == Some(s')
    ensures ForksOk(s') && PublishedOk(s') && ActorsOk(s')
  {
    WorldKeepsPipes(cfg, s, st, s');
    WorldKeepsEntries(cfg, s, st, s');
    WorldKeepsApart(cfg, s, st, s');
    WorldKeepsActors(cfg, s, st, s');
  }

  lemma WorldKeepsActors(cfg: Config, s: State, st: Step, s': State)
    requires ForksOk(s) && ActorsOk(s) && !st.Act? && WorldStep(cfg, s, st) == Some(s')
    ensures forall a :: a in s'.actors ==> ActorOk(s', s'.actors[a])
  {
    forall a | a in s'.actors ensures ActorOk(s', s'.actors[a]) {
      if a in s.actors { WorldKeepsActor(cfg, s, st, s', s.actors[a]); }
    }
  }

  /** A new actor carries nothing. */
  lemma WorldKeepsApart(cfg: Config, s: State, st: Step, s': State)
    requires CarriersApart(s.actors) && NotInEntries(s) && PipesApart(s.actors) && !st.Act? && WorldStep(cfg, s, st) == Some(s')
    ensures CarriersApart(s'.actors) && NotInEntries(s') && PipesApart(s'.actors)
  {
  }

  lemma MatchKept(cfg: Config, s: State, st: Step, s': State)
    requires MatchOk(s) && Next(cfg, s, st) == Some(s')
    ensures MatchOk(s')
  {
    MemoryKept(cfg, s, st, s');
    PidsStayPositive(cfg, s, st, s');
    OwnKept(cfg, s, st, s');
    if st.Act? { MatchKeptByActor(cfg, s, st.a, st.c, s'); } else { MatchKeptByWorld(cfg, s, st, s'); }
  }
}
