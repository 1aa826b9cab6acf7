/** Every reference an actor holds is inside the registry, and busyCount counts exactly the taken
    entries plus the operations caught between the counter and the entry. */
module ForkfdBounds {
  import opened ForkfdRegistry

  // ---------------------------------------------------------------------------------------------
  // Bounds
  // ---------------------------------------------------------------------------------------------

  /** The entry the program counter refers to. */
  function SlotOf(pc: Pc): Option<Slot> {
    match pc
    case TakeFree(x) => Some(x)
    case Allocated(x) => Some(x)
    case Piped(x, _) => Some(x)
    case Forked(x, _, _) => Some(x)
    case PipeStored(x, _, _) => Some(x)
    case ClearPipe(x, _) => Some(x)
    case ClearPid(x, _) => Some(x)
    case Match(_, x) => Some(x)
    case Owned(x, _, _) => Some(x)
    case Reaped(x, _, _, _) => Some(x)
    case Notified(x, _, _, _) => Some(x)
    case ScanLoad(x) => Some(x)
    case ScanReady(x, _) => Some(x)
    case ScanSwap(x, _) => Some(x)
    case _ => None
  }

  function SectionOf(pc: Pc): Option<nat> {
    match pc
    case Increment(x) => Some(x)
    case Undo(x) => Some(x)
    case LoadNext(x) => Some(x)
    case Extend(x) => Some(x)
    case Decrement(x, _) => Some(x)
    case MatchNext(_, x) => Some(x)
    case ScanNext(x) => Some(x)
    case _ => None
  }

  function ContOf(pc: Pc): Cont {
    match pc
    case ClearPipe(_, k) => k
    case ClearPid(_, k) => k
    case Decrement(_, k) => k
    case Owned(_, _, k) => k
    case Reaped(_, _, _, k) => k
    case Notified(_, _, _, k) => k
    case _ => Return
  }

  ghost predicate InBounds(s: State, pc: Pc) {
    && (SlotOf(pc).Some? ==> SlotOf(pc).value in s.entries)
    && (SectionOf(pc).Some? ==> SectionOf(pc).value < |s.busy|)
    && (ContOf(pc).ScanAfter? ==> ContOf(pc).slot in s.entries)
  }

  /** The arrays of the list are complete and every actor points into them. */
  ghost predicate MemoryOk(s: State) {
    && ArraysWhole(s)
    && (forall a :: a in s.actors ==> InBounds(s, s.actors[a]))
  }

  ghost predicate ArraysWhole(s: State) {
    && |s.busy| > 0
    && (forall slot :: slot in s.entries <==> slot.sec < |s.busy| && slot.i < Capacity(slot.sec))
  }

  /** Sections are only ever added. */
  lemma ArraysGrow(s: State, w: Write)
    requires ArraysWhole(s) && Legal(s, w)
    ensures var s' := Perform(s, w);
            && ArraysWhole(s')
            && |s'.busy| == |s.busy| + (if w.AppendArray? then 1 else 0)
            && s.entries.Keys <= s'.entries.Keys
  {
    if w.AppendArray? {
      var s' := Perform(s, w);
      assert s'.entries.Keys == s.entries.Keys + FreshEntries(|s.busy|).Keys;
    }
  }

  /** Where a move leads is in bounds: only the array it just appended can be new. */
  ghost predicate LandsInBounds(s: State, m: Option<Move>) {
    m.Some? ==> InBounds(s, m.value.pc) || (m.value.w.AppendArray? && m.value.pc == Increment(|s.busy|))
  }

  lemma ScanInBounds(cfg: Config, s: State, pc: Pc, c: Choice)
    requires ArraysWhole(s) && InBounds(s, pc)
    ensures LandsInBounds(s, ScanMove(cfg, s, pc, c))
  {
  }

  lemma SearchInBounds(cfg: Config, s: State, pc: Pc, c: Choice)
    requires ArraysWhole(s) && InBounds(s, pc)
    ensures LandsInBounds(s, SearchMove(cfg, s, pc, c))
  {
  }

  lemma AllocInBounds(cfg: Config, s: State, pc: Pc, c: Choice)
    requires ArraysWhole(s) && InBounds(s, pc)
    ensures LandsInBounds(s, AllocMove(cfg, s, pc, c))
  {
  }

  lemma ForkInBounds(s: State, pc: Pc, c: Choice)
    requires InBounds(s, pc)
    ensures LandsInBounds(s, ForkMove(s, pc, c))
  {
  }

  lemma FreeInBounds(s: State, pc: Pc)
    requires ArraysWhole(s) && InBounds(s, pc)
    ensures LandsInBounds(s, FreeMove(pc)) && LandsInBounds(s, NotifyMove(s, pc))
  {
  }

  lemma MoveInBounds(cfg: Config, s: State, pc: Pc, c: Choice)
    requires ArraysWhole(s) && InBounds(s, pc)
    ensures LandsInBounds(s, NextMove(cfg, s, pc, c))
  {
    ScanInBounds(cfg, s, pc, c);
    SearchInBounds(cfg, s, pc, c);
    AllocInBounds(cfg, s, pc, c);
    ForkInBounds(s, pc, c);
    FreeInBounds(s, pc);
  }

  lemma MemoryKeptByActor(cfg: Config, s: State, a: int, c: Choice, s': State)
    requires MemoryOk(s) && a in s.actors && ActorStep(cfg, s, a, c) == Some(s')
    ensures MemoryOk(s')
  {
    ghost var pc := s.actors[a];
    assert InBounds(s, pc);
    MoveInBounds(cfg, s, pc, c);
    ghost var m := NextMove(cfg, s, pc, c).value;
    ArraysGrow(s, m.w);
    MemoryFrame(s, s', m, a);
  }

  lemma MemoryFrame(s: State, s': State, m: Move, a: int)
    requires MemoryOk(s) && ArraysWhole(s') && |s.busy| <= |s'.busy| && s.entries.Keys <= s'.entries.Keys
    requires s'.actors == s.actors[a := m.pc] && InBounds(s', m.pc)
    ensures MemoryOk(s')
  {
  }

  lemma MemoryKept(cfg: Config, s: State, st: Step, s': State)
    requires MemoryOk(s) && Next(cfg, s, st) == Some(s')
    ensures MemoryOk(s')
  {
    match st
    case Act(a, c) => MemoryKeptByActor(cfg, s, a, c, s');
    case _ =>
  }

  // ---------------------------------------------------------------------------------------------
  // Ownership
  // ---------------------------------------------------------------------------------------------

  /** The entry that an actor has swapped to -1 and not yet given up. */
  function OwnedSlot(pc: Pc): Option<Slot> {
    match pc
    case Allocated(x) => Some(x)
    case Piped(x, _) => Some(x)
    case Forked(x, _, _) => Some(x)
    case PipeStored(x, _, _) => Some(x)
    case ClearPipe(x, _) => Some(x)
    case ClearPid(x, _) => Some(x)
    case Owned(x, _, _) => Some(x)
    case Reaped(x, _, _, _) => Some(x)
    case Notified(x, _, _, _) => Some(x)
    case _ => None
  }

  function PidOf(pc: Pc): Option<int> {
    match pc
    case Forked(_, _, pid) => Some(pid)
    case PipeStored(_, _, pid) => Some(pid)
    case Published(_, pid) => Some(pid)
    case Match(pid, _) => Some(pid)
    case MatchNext(pid, _) => Some(pid)
    case Owned(_, pid, _) => Some(pid)
    case Reaped(_, pid, _, _) => Some(pid)
    case Notified(_, pid, _, _) => Some(pid)
    case ScanReady(_, pid) => Some(pid)
    case ScanSwap(_, pid) => Some(pid)
    case _ => None
  }

  ghost predicate PidsPositive(s: State) {
    && (forall pid :: pid in s.children ==> pid > 0)
    && (forall a :: a in s.actors && PidOf(s.actors[a]).Some? ==> PidOf(s.actors[a]).value > 0)
  }

  /** No entry is worked on by two actors, and an entry worked on reads -1. */
  ghost predicate OwnOk(s: State) {
    && (forall a :: a in s.actors && OwnedSlot(s.actors[a]).Some? ==> PidAt(s, OwnedSlot(s.actors[a]).value) == -1)
    && (forall a, b :: a in s.actors && b in s.actors && a != b && OwnedSlot(s.actors[a]).Some? ==>
          OwnedSlot(s.actors[a]) != OwnedSlot(s.actors[b]))
  }

  /** How a move changes what its actor owns. */
  datatype Transfer = Acquire(slot: Slot) | Release(slot: Slot) | Abandon(slot: Slot) | Keep

  function TransferOf(pc: Pc, pc': Pc): Transfer {
    match OwnedSlot(pc)
    case None => if OwnedSlot(pc').Some? then Acquire(OwnedSlot(pc').value) else Keep
    case Some(x) =>
      if OwnedSlot(pc').Some? then Keep
      else if pc.Owned? then Abandon(x)
      else Release(x)
  }

  /** An entry is taken by swapping it to -1 and given up by storing something else; nothing else
      stores to entry->pid. */
  ghost predicate Transfers(s: State, pc: Pc, m: Move) {
    match TransferOf(pc, m.pc)
    case Acquire(x) => m.w == StorePid(x, -1) && PidAt(s, x) != -1 && (pc.TakeFree? <==> PidAt(s, x) == 0)
    case Release(x) => m.w == StorePid(x, if pc.PipeStored? then pc.pid else 0) && (pc.PipeStored? || pc.ClearPid?)
    case Abandon(x) => m.w.Nothing? && !IsZombie(s, pc.pid)
    case Keep => !m.w.StorePid? && OwnedSlot(m.pc) == OwnedSlot(pc)
  }

  lemma AllocTransfers(cfg: Config, s: State, pc: Pc, c: Choice, m: Move)
    requires AllocMove(cfg, s, pc, c) == Some(m)
    ensures Transfers(s, pc, m)
  {
  }

  lemma ForkTransfers(s: State, pc: Pc, c: Choice, m: Move)
    requires ForkMove(s, pc, c) == Some(m)
    ensures Transfers(s, pc, m)
  {
  }

  lemma FreeTransfers(s: State, pc: Pc, m: Move)
    requires FreeMove(pc) == Some(m) || NotifyMove(s, pc) == Some(m)
    ensures Transfers(s, pc, m)
  {
  }

  lemma SearchTransfers(cfg: Config, s: State, pc: Pc, c: Choice, m: Move)
    requires SearchMove(cfg, s, pc, c) == Some(m) && (PidOf(pc).Some? ==> PidOf(pc).value > 0)
    ensures Transfers(s, pc, m)
  {
  }

  lemma ScanTransfers(cfg: Config, s: State, pc: Pc, c: Choice, m: Move)
    requires ScanMove(cfg, s, pc, c) == Some(m) && (PidOf(pc).Some? ==> PidOf(pc).value > 0)
    ensures Transfers(s, pc, m)
  {
  }

  lemma MoveTransfers(cfg: Config, s: State, pc: Pc, c: Choice, m: Move)
    requires NextMove(cfg, s, pc, c) == Some(m)
    requires PidOf(pc).Some? ==> PidOf(pc).value > 0
    ensures Transfers(s, pc, m)
  {
    if AllocMove(cfg, s, pc, c) == Some(m) { AllocTransfers(cfg, s, pc, c, m); }
    else if ForkMove(s, pc, c) == Some(m) { ForkTransfers(s, pc, c, m); }
    else if FreeMove(pc) == Some(m) || NotifyMove(s, pc) == Some(m) { FreeTransfers(s, pc, m); }
    else if SearchMove(cfg, s, pc, c) == Some(m) { SearchTransfers(cfg, s, pc, c, m); }
    else { ScanTransfers(cfg, s, pc, c, m); }
  }

  lemma MoveKeepsPidPositive(cfg: Config, s: State, pc: Pc, c: Choice, m: Move)
    requires NextMove(cfg, s, pc, c) == Some(m) && Legal(s, m.w)
    requires (forall pid :: pid in s.children ==> pid > 0) && (PidOf(pc).Some? ==> PidOf(pc).value > 0)
    ensures PidOf(m.pc).Some? ==> PidOf(m.pc).value > 0
  {
  }

  lemma PidsStayPositive(cfg: Config, s: State, st: Step, s': State)
    requires PidsPositive(s) && Next(cfg, s, st) == Some(s')
    ensures PidsPositive(s')
  {
    if st.Act? { PidsStayPositiveInMove(cfg, s, st.a, st.c, s'); }
  }

  lemma PidsStayPositiveInMove(cfg: Config, s: State, a: int, c: Choice, s': State)
    requires PidsPositive(s) && a in s.actors && ActorStep(cfg, s, a, c) == Some(s')
    ensures PidsPositive(s')
  {
    ghost var m := NextMove(cfg, s, s.actors[a], c).value;
    MoveKeepsPidPositive(cfg, s, s.actors[a], c, m);
    ChildrenStayPositive(s, m.w);
  }

  lemma ChildrenStayPositive(s: State, w: Write)
    requires Legal(s, w) && forall pid :: pid in s.children ==> pid > 0
    ensures forall pid :: pid in Perform(s, w).children ==> pid > 0
  {
  }

  lemma OwnKept(cfg: Config, s: State, st: Step, s': State)
    requires MemoryOk(s) && PidsPositive(s) && OwnOk(s) && Next(cfg, s, st) == Some(s')
    ensures OwnOk(s')
  {
    if st.Act? {
      ghost var pc := s.actors[st.a];
      ghost var m := NextMove(cfg, s, pc, st.c).value;
      MoveTransfers(cfg, s, pc, st.c, m);
      OwnFrame(s, st.a, m, s');
    } else {
      OwnKeptByWorld(cfg, s, st, s');
    }
  }

  lemma OwnKeptByWorld(cfg: Config, s: State, st: Step, s': State)
    requires OwnOk(s) && !st.Act? && WorldStep(cfg, s, st) == Some(s')
    ensures OwnOk(s')
  {
  }

  lemma PidAfterWrite(s: State, w: Write, slot: Slot)
    requires ArraysWhole(s) && Legal(s, w) && slot in s.entries
    ensures PidAt(Perform(s, w), slot) == if w.StorePid? && w.slot == slot then w.pid else PidAt(s, slot)
  {
  }

  /** Nobody else owns what is acquired, since it did not read -1. */
  lemma OwnFrame(s: State, a: int, m: Move, s': State)
    requires MemoryOk(s) && PidsPositive(s) && OwnOk(s) && a in s.actors && Transfers(s, s.actors[a], m)
    requires Legal(s, m.w) && s' == Perform(s, m.w).(actors := s.actors[a := m.pc])
    ensures OwnOk(s')
  {
    assert InBounds(s, s.actors[a]);
    forall b | b in s'.actors && OwnedSlot(s'.actors[b]).Some?
      ensures PidAt(s', OwnedSlot(s'.actors[b]).value) == -1
      ensures b != a ==> OwnedSlot(s'.actors[b]) != OwnedSlot(m.pc)
    {
      if b != a {
        assert InBounds(s, s.actors[b]);
      }
      PidAfterWrite(s, m.w, OwnedSlot(s'.actors[b]).value);
    }
  }

  // ---------------------------------------------------------------------------------------------
  // Counting
  // ---------------------------------------------------------------------------------------------

  ghost function Taken(s: State, sec: nat): set<Slot> {
    set slot | slot in s.entries && slot.sec == sec && s.entries[slot].pid != 0
  }

  /** Between the counter update and the entry update of section `sec`. */
  predicate CountedAhead(pc: Pc, sec: nat) {
    match pc
    case TakeFree(slot) => slot.sec == sec
    case Undo(x) => x == sec
    case Decrement(x, _) => x == sec
    case _ => false
  }

  ghost function InFlight(s: State, sec: nat): set<int> {
    set a | a in s.actors && CountedAhead(s.actors[a], sec)
  }

  ghost predicate CountOk(s: State) {
    forall sec: nat :: sec < |s.busy| ==> s.busy[sec] == |Taken(s, sec)| + |InFlight(s, sec)|
  }

  function One(b: bool): nat {
    if b then 1 else 0
  }

  lemma Without<T>(x: set<T>, e: T)
    ensures |x| == |x - {e}| + One(e in x)
  {
    if e in x { assert x == (x - {e}) + {e}; } else { assert x == x - {e}; }
  }

  lemma InFlightMoves(s: State, s': State, a: int, pc: Pc, sec: nat)
    requires s'.actors == s.actors[a := pc]
    ensures |InFlight(s', sec)| == |InFlight(s, sec)| + One(CountedAhead(pc, sec))
                                   - One(a in s.actors && CountedAhead(s.actors[a], sec))
  {
    Without(InFlight(s', sec), a);
    Without(InFlight(s, sec), a);
    assert InFlight(s', sec) - {a} == InFlight(s, sec) - {a};
  }

  lemma TakenMoves(s: State, s': State, slot: Slot, e: Entry, sec: nat)
    requires slot in s.entries && s'.entries == s.entries[slot := e]
    ensures |Taken(s', sec)| == |Taken(s, sec)| + One(slot.sec == sec && e.pid != 0)
                                - One(slot.sec == sec && s.entries[slot].pid != 0)
  {
    Without(Taken(s', sec), slot);
    Without(Taken(s, sec), slot);
    assert Taken(s', sec) - {slot} == Taken(s, sec) - {slot};
  }

  /** How a write changes the number of taken entries and the counter of a section. */
  lemma CountAfterWrite(s: State, w: Write, sec: nat)
    requires MemoryOk(s) && Legal(s, w) && sec < |s.busy|
    ensures var s' := Perform(s, w);
            && sec < |s'.busy|
            && s'.busy[sec] == s.busy[sec] + (if w.AddBusy? && w.sec == sec then w.d else 0)
            && |Taken(s', sec)| == |Taken(s, sec)|
                 + (if w.StorePid? && w.slot.sec == sec then One(w.pid != 0) - One(PidAt(s, w.slot) != 0) else 0)
  {
    if w.StorePid? || w.StorePipe? {
      TakenMoves(s, Perform(s, w), w.slot, Perform(s, w).entries[w.slot], sec);
    } else {
      TakenStays(s, w, sec);
    }
  }

  lemma TakenStays(s: State, w: Write, sec: nat)
    requires MemoryOk(s) && Legal(s, w) && sec < |s.busy| && !w.StorePid? && !w.StorePipe?
    ensures Taken(Perform(s, w), sec) == Taken(s, sec)
  {
  }

  /** The move changes the counter exactly as it changes what the counter counts. */
  ghost predicate Balances(s: State, pc: Pc, m: Move, sec: nat) {
    (if m.w.AddBusy? && m.w.sec == sec then m.w.d else 0)
    == (if m.w.StorePid? && m.w.slot.sec == sec then One(m.w.pid != 0) - One(PidAt(s, m.w.slot) != 0) else 0)
       + One(CountedAhead(m.pc, sec)) - One(CountedAhead(pc, sec))
  }

  lemma ForkBalances(cfg: Config, s: State, pc: Pc, c: Choice, m: Move, sec: nat)
    requires AllocMove(cfg, s, pc, c) == Some(m) || ForkMove(s, pc, c) == Some(m)
    requires OwnedSlot(pc).Some? ==> PidAt(s, OwnedSlot(pc).value) == -1
    requires PidOf(pc).Some? ==> PidOf(pc).value > 0
    ensures Balances(s, pc, m, sec)
  {
  }

  lemma HandlerBalances(cfg: Config, s: State, pc: Pc, c: Choice, m: Move, sec: nat)
    requires FreeMove(pc) == Some(m) || NotifyMove(s, pc) == Some(m) || SearchMove(cfg, s, pc, c) == Some(m) || ScanMove(cfg, s, pc, c) == Some(m)
    requires OwnedSlot(pc).Some? ==> PidAt(s, OwnedSlot(pc).value) == -1
    requires PidOf(pc).Some? ==> PidOf(pc).value > 0
    ensures Balances(s, pc, m, sec)
  {
  }

  /** Every move balances. */
  lemma MoveBalances(cfg: Config, s: State, pc: Pc, c: Choice, m: Move, sec: nat)
    requires NextMove(cfg, s, pc, c) == Some(m)
    requires OwnedSlot(pc).Some? ==> PidAt(s, OwnedSlot(pc).value) == -1
    requires PidOf(pc).Some? ==> PidOf(pc).value > 0
    ensures Balances(s, pc, m, sec)
  {
    if AllocMove(cfg, s, pc, c) == Some(m) || ForkMove(s, pc, c) == Some(m) {
      ForkBalances(cfg, s, pc, c, m, sec);
    } else {
      HandlerBalances(cfg, s, pc, c, m, sec);
    }
  }

  lemma CountKeptInSection(cfg: Config, s: State, a: int, c: Choice, s': State, sec: nat)
    requires MemoryOk(s) && PidsPositive(s) && OwnOk(s) && CountOk(s)
    requires a in s.actors && ActorStep(cfg, s, a, c) == Some(s') && sec < |s.busy|
    ensures sec < |s'.busy| && s'.busy[sec] == |Taken(s', sec)| + |InFlight(s', sec)|
  {
    ghost var pc := s.actors[a];
    ghost var m := NextMove(cfg, s, pc, c).value;
    MoveBalances(cfg, s, pc, c, m, sec);
    CountAfterWrite(s, m.w, sec);
    InFlightMoves(s, s', a, m.pc, sec);
    assert Taken(s', sec) == Taken(Perform(s, m.w), sec);
  }

  /** A new array starts with a zero counter, nothing taken, and nobody working in it. */
  lemma NewSectionEmpty(s: State, s': State)
    requires MemoryOk(s) && MemoryOk(s')
    requires s'.entries == s.entries + FreshEntries(|s.busy|)
    requires forall a :: a in s'.actors ==> s'.actors[a] == Increment(|s.busy|) || (a in s.actors && s'.actors[a] == s.actors[a])
    ensures Taken(s', |s.busy|) == {} && InFlight(s', |s.busy|) == {}
  {
    forall a | a in s'.actors ensures !CountedAhead(s'.actors[a], |s.busy|) {
      if s'.actors[a] != Increment(|s.busy|) { assert InBounds(s, s.actors[a]); }
    }
  }

  lemma CountKept(cfg: Config, s: State, st: Step, s': State)
    requires MemoryOk(s) && PidsPositive(s) && OwnOk(s) && CountOk(s) && Next(cfg, s, st) == Some(s')
    ensures CountOk(s')
  {
    if st.Act? {
      MemoryKept(cfg, s, st, s');
      CountKeptByActor(cfg, s, st.a, st.c, s');
    } else {
      CountKeptByWorld(cfg, s, st, s');
    }
  }

  lemma CountKeptByActor(cfg: Config, s: State, a: int, c: Choice, s': State)
    requires MemoryOk(s) && MemoryOk(s') && PidsPositive(s) && OwnOk(s) && CountOk(s)
    requires a in s.actors && ActorStep(cfg, s, a, c) == Some(s')
    ensures CountOk(s')
  {
    forall sec: nat | sec < |s'.busy| ensures s'.busy[sec] == |Taken(s', sec)| + |InFlight(s', sec)| {
      if sec < |s.busy| { CountKeptInSection(cfg, s, a, c, s', sec); } else { CountInNewSection(cfg, s, a, c, s', sec); }
    }
  }

  lemma CountInNewSection(cfg: Config, s: State, a: int, c: Choice, s': State, sec: nat)
    requires MemoryOk(s) && MemoryOk(s') && a in s.actors && ActorStep(cfg, s, a, c) == Some(s')
    requires |s.busy| <= sec < |s'.busy|
    ensures s'.busy[sec] == |Taken(s', sec)| + |InFlight(s', sec)|
  {
    ghost var m := NextMove(cfg, s, s.actors[a], c).value;
    OnlyAppendGrows(s, m.w);
    MoveInBounds(cfg, s, s.actors[a], c);
    AppendLands(cfg, s, s.actors[a], c, m);
    NewSectionEmpty(s, s');
  }

  lemma OnlyAppendGrows(s: State, w: Write)
    requires Legal(s, w)
    ensures !w.AppendArray? ==> |Perform(s, w).busy| == |s.busy|
  {
  }

  lemma AppendLands(cfg: Config, s: State, pc: Pc, c: Choice, m: Move)
    requires NextMove(cfg, s, pc, c) == Some(m) && m.w.AppendArray? && InBounds(s, pc)
    ensures m.pc == Increment(|s.busy|)
  {
    OnlyAllocAppends(cfg, s, pc, c, m);
  }

  lemma OnlyAllocAppends(cfg: Config, s: State, pc: Pc, c: Choice, m: Move)
    requires NextMove(cfg, s, pc, c) == Some(m) && m.w.AppendArray?
    ensures pc.Extend? && pc.sec + 1 >= |s.busy| && m.pc == Increment(pc.sec + 1)
  {
    assert ForkMove(s, pc, c) != Some(m) && FreeMove(pc) != Some(m) && NotifyMove(s, pc) != Some(m);
    assert SearchMove(cfg, s, pc, c) != Some(m);
    assert ScanMove(cfg, s, pc, c) != Some(m);
  }

  lemma CountKeptByWorld(cfg: Config, s: State, st: Step, s': State)
    requires CountOk(s) && !st.Act? && WorldStep(cfg, s, st) == Some(s')
    ensures CountOk(s')
  {
    forall sec: nat | sec < |s'.busy| ensures s'.busy[sec] == |Taken(s', sec)| + |InFlight(s', sec)| {
      assert Taken(s', sec) == Taken(s, sec);
      if st.StartFork? { InFlightMoves(s, s', st.a, Increment(0), sec); }
      else if st.StartHandler? { InFlightMoves(s, s', st.a, Search, sec); }
      else { assert InFlight(s', sec) == InFlight(s, sec); }
    }
  }
}
