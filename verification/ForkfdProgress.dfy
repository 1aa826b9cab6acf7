/** What the registry gets done. A fork that is not disturbed finds the first free entry of a section
    with room, and goes on to the next section, or to a new one, exactly when there is none; so any
    number of children can be registered. A handler that is not disturbed comes to its end. */
module ForkfdProgress {
  import opened FiniteSets
  import opened ForkfdRegistry
  import opened ForkfdBounds
  import opened ForkfdMatching
  import opened ForkfdDelivery
  import opened ForkfdTheorems
  import opened ForkfdLimits

  // ---------------------------------------------------------------------------------------------
  // One actor alone
  // ---------------------------------------------------------------------------------------------

  /** Where actor `a` gets with these choices while nothing else happens. */
  function Alone(cfg: Config, s: State, a: int, cs: seq<Choice>): Option<State>
    decreases |cs|
  {
    if cs == [] then Some(s)
    else if a !in s.actors then None
    else
      match ActorStep(cfg, s, a, cs[0])
      case None => None
      case Some(t) => Alone(cfg, t, a, cs[1..])
  }

  /** No compare-exchange fails for no reason. */
  ghost predicate Firm(cfg: Config, cs: seq<Choice>) {
    forall i :: 0 <= i < |cs| ==> !(cfg.spurious && cs[i].Fail?)
  }

  lemma AloneStep(cfg: Config, s: State, a: int, cs: seq<Choice>, t: State)
    requires cs != [] && a in s.actors && ActorStep(cfg, s, a, cs[0]) == Some(t)
    ensures Alone(cfg, s, a, cs) == Alone(cfg, t, a, cs[1..])
  {
  }

  lemma {:induction false} AloneConcat(cfg: Config, s: State, a: int, cs: seq<Choice>, more: seq<Choice>, t: State)
    requires Alone(cfg, s, a, cs) == Some(t)
    ensures Alone(cfg, s, a, cs + more) == Alone(cfg, t, a, more)
    decreases |cs|
  {
    if cs == [] {
      assert cs + more == more;
    } else {
      var next := FirstStep(cfg, s, a, cs, t);
      AloneConcat(cfg, next, a, cs[1..], more, t);
      JoinStep(cfg, s, a, cs, more, next);
    }
  }

  lemma FirstStep(cfg: Config, s: State, a: int, cs: seq<Choice>, t: State) returns (next: State)
    requires cs != [] && Alone(cfg, s, a, cs) == Some(t)
    ensures a in s.actors && ActorStep(cfg, s, a, cs[0]) == Some(next) && Alone(cfg, next, a, cs[1..]) == Some(t)
  {
    next := ActorStep(cfg, s, a, cs[0]).value;
  }

  lemma JoinStep(cfg: Config, s: State, a: int, cs: seq<Choice>, more: seq<Choice>, next: State)
    requires cs != [] && a in s.actors && ActorStep(cfg, s, a, cs[0]) == Some(next)
    ensures Alone(cfg, s, a, cs + more) == Alone(cfg, next, a, cs[1..] + more)
  {
    var all := cs + more;
    assert all[0] == cs[0] && all[1..] == cs[1..] + more;
    AloneStep(cfg, s, a, all, next);
  }

  /** What one actor does is part of a run. */
  lemma {:induction false} AloneKeeps(cfg: Config, s: State, a: int, cs: seq<Choice>, t: State)
    requires Inv(cfg, s) && Alone(cfg, s, a, cs) == Some(t)
    ensures Inv(cfg, t)
    decreases |cs|
  {
    if cs != [] {
      var next := ActorStep(cfg, s, a, cs[0]).value;
      InvKept(cfg, s, Act(a, cs[0]), next);
      AloneKeeps(cfg, next, a, cs[1..], t);
    }
  }

  lemma {:induction false} AloneReaches(cfg: Config, s: State, a: int, cs: seq<Choice>, t: State)
    requires Reaches(cfg, s) && Alone(cfg, s, a, cs) == Some(t)
    ensures Reaches(cfg, t)
    decreases |cs|
  {
    if cs != [] {
      var next := ActorStep(cfg, s, a, cs[0]).value;
      ReachStep(cfg, s, Act(a, cs[0]), next);
      AloneReaches(cfg, next, a, cs[1..], t);
    }
  }

  lemma ReachedInv(cfg: Config, s: State)
    requires Reaches(cfg, s)
    ensures Inv(cfg, s)
  {
    ghost var run :| IsRun(cfg, run) && run[|run| - 1] == s;
    ghost var k := |run| - 1;
    RunKeepsInv(cfg, run, k);
    assert run[k] == s;
  }

  lemma AtAgain(s: State, a: int, p: Pc, q: Pc)
    ensures At(At(s, a, p), a, q) == At(s, a, q)
  {
    assert s.actors[a := p][a := q] == s.actors[a := q];
  }

  // ---------------------------------------------------------------------------------------------
  // Room in a section
  // ---------------------------------------------------------------------------------------------

  /** Fewer entries taken or counted ahead than there are. */
  ghost predicate HasRoom(s: State, sec: nat) {
    |Taken(s, sec)| + |InFlight(s, sec)| < Capacity(sec)
  }

  /** tryAllocateInSection gives a section up at once if and only if it has no room. */
  lemma GivesUpIffFull(cfg: Config, run: seq<State>, k: nat, a: int, sec: nat, c: Choice, m: Move)
    requires IsRun(cfg, run) && k < |run| && a in run[k].actors && run[k].actors[a] == Increment(sec)
    requires NextMove(cfg, run[k], Increment(sec), c) == Some(m)
    ensures m.w == AddBusy(sec, 1)
    ensures m.pc == if HasRoom(run[k], sec) then TakeFree(Slot(sec, 0)) else Undo(sec)
  {
    RunKeepsInv(cfg, run, k);
    Counts(cfg, run[k], a, sec, c, m);
  }

  lemma Counts(cfg: Config, s: State, a: int, sec: nat, c: Choice, m: Move)
    requires MemoryOk(s) && CountOk(s) && a in s.actors && s.actors[a] == Increment(sec)
    requires NextMove(cfg, s, Increment(sec), c) == Some(m)
    ensures sec < |s.busy| && m.w == AddBusy(sec, 1)
    ensures m.pc == if HasRoom(s, sec) then TakeFree(Slot(sec, 0)) else Undo(sec)
  {
    assert InBounds(s, s.actors[a]);
    assert s.busy[sec] == |Taken(s, sec)| + |InFlight(s, sec)|;
  }

  /** The entries of a section before entry `n`. */
  ghost function Entries(sec: nat, n: nat): set<Slot> {
    if n == 0 then {} else Entries(sec, n - 1) + {Slot(sec, n - 1)}
  }

  lemma {:induction false} EntriesSize(sec: nat, n: nat)
    ensures |Entries(sec, n)| == n
    ensures forall slot :: slot in Entries(sec, n) <==> slot.sec == sec && slot.i < n
  {
    if n > 0 { EntriesSize(sec, n - 1); }
  }

  ghost predicate AllTaken(s: State, sec: nat, n: nat) {
    forall i: nat :: i < n ==> PidAt(s, Slot(sec, i)) != 0
  }

  /** Where there is room, an entry is free. */
  lemma SomeFree(s: State, sec: nat)
    requires ArraysWhole(s) && sec < |s.busy| && HasRoom(s, sec)
    ensures !AllTaken(s, sec, Capacity(sec))
  {
    if AllTaken(s, sec, Capacity(sec)) {
      EntriesSize(sec, Capacity(sec));
      forall slot | slot in Entries(sec, Capacity(sec)) ensures slot in Taken(s, sec) {
        assert PidAt(s, Slot(sec, slot.i)) != 0;
      }
      SubsetSize(Entries(sec, Capacity(sec)), Taken(s, sec));
    }
  }

  /** `slot` is the first free entry of its section. */
  ghost predicate IsFirstFree(s: State, slot: Slot) {
    slot in s.entries && PidAt(s, slot) == 0 && AllTaken(s, slot.sec, slot.i)
  }

  lemma {:induction false} FindFree(s: State, sec: nat, n: nat) returns (i: nat)
    requires !AllTaken(s, sec, n)
    ensures i < n && PidAt(s, Slot(sec, i)) == 0 && AllTaken(s, sec, i)
    decreases n
  {
    if AllTaken(s, sec, n - 1) {
      i := n - 1;
    } else {
      i := FindFree(s, sec, n - 1);
    }
  }

  lemma FirstFree(s: State, sec: nat) returns (slot: Slot)
    requires ArraysWhole(s) && sec < |s.busy| && HasRoom(s, sec)
    ensures slot.sec == sec && IsFirstFree(s, slot)
  {
    SomeFree(s, sec);
    var i := FindFree(s, sec, Capacity(sec));
    slot := Slot(sec, i);
  }

  /** `s` when actor `a` has taken `slot`. */
  ghost function TakenBy(s: State, a: int, slot: Slot): State
    requires slot in s.entries && slot.sec < |s.busy|
  {
    At(Up(s, slot.sec).(entries := s.entries[slot := s.entries[slot].(pid := -1)]), a, Allocated(slot))
  }

  /** The search for a free entry, from entry `i` on. */
  lemma {:induction false} TakesFirstFree(cfg: Config, s: State, a: int, slot: Slot, i: nat, cs: seq<Choice>)
    requires IsFirstFree(s, slot) && i <= slot.i < Capacity(slot.sec) && |cs| == slot.i - i + 1 && Firm(cfg, cs)
    ensures Alone(cfg, At(s, a, TakeFree(Slot(slot.sec, i))), a, cs)
            == Some(At(s.(entries := s.entries[slot := s.entries[slot].(pid := -1)]), a, Allocated(slot)))
    decreases slot.i - i
  {
    var t := At(s, a, TakeFree(Slot(slot.sec, i)));
    if i == slot.i {
      TakesHere(cfg, s, a, slot, cs[0]);
      AloneStep(cfg, t, a, cs, At(s.(entries := s.entries[slot := s.entries[slot].(pid := -1)]), a, Allocated(slot)));
    } else {
      assert PidAt(s, Slot(slot.sec, i)) != 0;
      TriesNext(cfg, s, a, slot.sec, i, cs[0]);
      AloneStep(cfg, t, a, cs, At(s, a, TakeFree(Slot(slot.sec, i + 1))));
      TakesFirstFree(cfg, s, a, slot, i + 1, cs[1..]);
    }
  }

  lemma TakesHere(cfg: Config, s: State, a: int, slot: Slot, c: Choice)
    requires slot in s.entries && PidAt(s, slot) == 0 && !(cfg.spurious && c.Fail?)
    ensures ActorStep(cfg, At(s, a, TakeFree(slot)), a, c)
            == Some(At(s.(entries := s.entries[slot := s.entries[slot].(pid := -1)]), a, Allocated(slot)))
  {
    assert s.actors[a := TakeFree(slot)][a := Allocated(slot)] == s.actors[a := Allocated(slot)];
  }

  lemma TriesNext(cfg: Config, s: State, a: int, sec: nat, i: nat, c: Choice)
    requires i + 1 < Capacity(sec) && PidAt(s, Slot(sec, i)) != 0
    ensures ActorStep(cfg, At(s, a, TakeFree(Slot(sec, i))), a, c) == Some(At(s, a, TakeFree(Slot(sec, i + 1))))
  {
    AtAgain(s, a, TakeFree(Slot(sec, i)), TakeFree(Slot(sec, i + 1)));
  }

  /** From any state of a run in which a section has room, an undisturbed fork takes the first free
      entry there, whatever else is left open, unless a compare-exchange fails for no reason. */
  lemma RoomIsFound(cfg: Config, run: seq<State>, k: nat, a: int, sec: nat) returns (slot: Slot)
    requires IsRun(cfg, run) && k < |run| && a in run[k].actors && run[k].actors[a] == Increment(sec) && HasRoom(run[k], sec)
    ensures slot.sec == sec < |run[k].busy| && IsFirstFree(run[k], slot)
    ensures forall cs :: |cs| == slot.i + 2 && Firm(cfg, cs) ==> Alone(cfg, run[k], a, cs) == Some(TakenBy(run[k], a, slot))
  {
    RunKeepsInv(cfg, run, k);
    slot := RoomFound(cfg, run[k], a, sec);
  }

  lemma RoomFound(cfg: Config, s: State, a: int, sec: nat) returns (slot: Slot)
    requires MemoryOk(s) && CountOk(s) && a in s.actors && s.actors[a] == Increment(sec) && HasRoom(s, sec)
    ensures slot.sec == sec < |s.busy| && IsFirstFree(s, slot)
    ensures forall cs :: |cs| == slot.i + 2 && Firm(cfg, cs) ==> Alone(cfg, s, a, cs) == Some(TakenBy(s, a, slot))
  {
    assert InBounds(s, s.actors[a]);
    slot := FirstFree(s, sec);
    forall cs | |cs| == slot.i + 2 && Firm(cfg, cs) ensures Alone(cfg, s, a, cs) == Some(TakenBy(s, a, slot)) {
      CountsUp(cfg, s, a, sec, cs[0]);
      TakesWithRoom(cfg, s, a, slot, cs);
    }
  }

  /** `s` with one more counted in section `sec`. */
  ghost function Up(s: State, sec: nat): State
    requires sec < |s.busy|
  {
    s.(busy := s.busy[sec := s.busy[sec] + 1])
  }

  lemma TakesWithRoom(cfg: Config, s: State, a: int, slot: Slot, cs: seq<Choice>)
    requires IsFirstFree(s, slot) && slot.sec < |s.busy| && slot.i < Capacity(slot.sec)
    requires |cs| == slot.i + 2 && Firm(cfg, cs) && a in s.actors
    requires ActorStep(cfg, s, a, cs[0]) == Some(At(Up(s, slot.sec), a, TakeFree(Slot(slot.sec, 0))))
    ensures Alone(cfg, s, a, cs) == Some(TakenBy(s, a, slot))
  {
    AloneStep(cfg, s, a, cs, At(Up(s, slot.sec), a, TakeFree(Slot(slot.sec, 0))));
    FreeInBoth(s, Up(s, slot.sec), slot);
    TakesFirstFree(cfg, Up(s, slot.sec), a, slot, 0, cs[1..]);
  }

  lemma CountsUp(cfg: Config, s: State, a: int, sec: nat, c: Choice)
    requires MemoryOk(s) && CountOk(s) && a in s.actors && s.actors[a] == Increment(sec) && HasRoom(s, sec)
    ensures sec < |s.busy|
    ensures ActorStep(cfg, s, a, c) == Some(At(Up(s, sec), a, TakeFree(Slot(sec, 0))))
  {
    Counts(cfg, s, a, sec, c, NextMove(cfg, s, s.actors[a], c).value);
  }

  lemma FreeInBoth(s: State, s': State, slot: Slot)
    requires IsFirstFree(s, slot) && s'.entries == s.entries
    ensures IsFirstFree(s', slot)
  {
    forall i: nat | i < slot.i ensures PidAt(s', Slot(slot.sec, i)) != 0 { assert PidAt(s, Slot(slot.sec, i)) != 0; }
  }

  // ---------------------------------------------------------------------------------------------
  // A fork succeeds
  // ---------------------------------------------------------------------------------------------

  /** Actor `a` can get from `s` to `t` alone, and no compare-exchange fails for no reason. */
  ghost predicate Goes(cfg: Config, s: State, a: int, t: State) {
    exists cs :: Firm(cfg, cs) && Alone(cfg, s, a, cs) == Some(t)
  }

  lemma GoesOnTo(cfg: Config, s: State, a: int, t: State, u: State)
    requires Goes(cfg, s, a, t) && Goes(cfg, t, a, u)
    ensures Goes(cfg, s, a, u)
  {
    ghost var cs :| Firm(cfg, cs) && Alone(cfg, s, a, cs) == Some(t);
    ghost var more :| Firm(cfg, more) && Alone(cfg, t, a, more) == Some(u);
    AloneConcat(cfg, s, a, cs, more, t);
    assert Firm(cfg, cs + more);
  }

  lemma GoesAt(cfg: Config, s: State, a: int, pc: Pc, c: Choice, m: Move)
    requires NextMove(cfg, At(s, a, pc), pc, c) == Some(m) && Legal(s, m.w) && !(cfg.spurious && c.Fail?)
    ensures Goes(cfg, At(s, a, pc), a, At(Perform(s, m.w), a, m.pc))
  {
    ghost var s0, s1 := At(s, a, pc), At(Perform(s, m.w), a, m.pc);
    LegalIgnoresActors(s, s0, m.w);
    assert s0.actors[a := m.pc] == s1.actors;
    assert ActorStep(cfg, s0, a, c) == Some(s1);
    AloneStep(cfg, s0, a, [c], s1);
    assert [c][1..] == [];
    assert Firm(cfg, [c]);
  }

  lemma GoesNext(cfg: Config, s: State, a: int, t: State, pc: Pc, c: Choice, m: Move)
    requires Goes(cfg, s, a, At(t, a, pc))
    requires NextMove(cfg, At(t, a, pc), pc, c) == Some(m) && Legal(t, m.w) && !(cfg.spurious && c.Fail?)
    ensures Goes(cfg, s, a, At(Perform(t, m.w), a, m.pc))
  {
    GoesAt(cfg, t, a, pc, c, m);
    GoesOnTo(cfg, s, a, At(t, a, pc), At(Perform(t, m.w), a, m.pc));
  }

  lemma GoesKeeps(cfg: Config, s: State, a: int, t: State)
    requires Inv(cfg, s) && Goes(cfg, s, a, t)
    ensures Inv(cfg, t)
  {
    ghost var cs :| Firm(cfg, cs) && Alone(cfg, s, a, cs) == Some(t);
    AloneKeeps(cfg, s, a, cs, t);
  }

  lemma GoesReaches(cfg: Config, s: State, a: int, t: State)
    requires Reaches(cfg, s) && Goes(cfg, s, a, t)
    ensures Reaches(cfg, t)
  {
    ghost var cs :| Firm(cfg, cs) && Alone(cfg, s, a, cs) == Some(t);
    AloneReaches(cfg, s, a, cs, t);
  }

  /** `t` is `s` with `slot`, which was free or is new, taken by `a`; the list may have grown. */
  ghost predicate OnlyTakes(s: State, t: State, a: int, slot: Slot) {
    && t.actors == s.actors[a := Allocated(slot)]
    && t == s.(actors := t.actors, busy := t.busy, entries := t.entries)
    && slot in t.entries && PidAt(t, slot) == -1 && PidAt(s, slot) == 0
    && (forall x :: x in s.entries && x != slot ==> x in t.entries && t.entries[x] == s.entries[x])
    && (forall x :: x in t.entries && x !in s.entries && x != slot ==> PidAt(t, x) == 0)
  }

  lemma TakesRoom(cfg: Config, s: State, a: int, sec: nat) returns (slot: Slot, t: State)
    requires MemoryOk(s) && CountOk(s) && a in s.actors && s.actors[a] == Increment(sec) && HasRoom(s, sec)
    ensures Goes(cfg, s, a, t) && OnlyTakes(s, t, a, slot)
  {
    slot := RoomFound(cfg, s, a, sec);
    t := TakenBy(s, a, slot);
    ghost var cs := seq(slot.i + 2, i => Succeed);
    assert Firm(cfg, cs) && Alone(cfg, s, a, cs) == Some(t);
  }

  /** A section without room is left as it was. */
  lemma SkipsFull(cfg: Config, s: State, a: int, sec: nat)
    requires MemoryOk(s) && CountOk(s) && a in s.actors && s.actors[a] == Increment(sec) && !HasRoom(s, sec)
    ensures sec < |s.busy| && Goes(cfg, s, a, At(s, a, LoadNext(sec)))
  {
    Counts(cfg, s, a, sec, Succeed, NextMove(cfg, s, s.actors[a], Succeed).value);
    assert At(s, a, Increment(sec)) == s;
    GoesAt(cfg, s, a, Increment(sec), Succeed, Move(AddBusy(sec, 1), Undo(sec)));
    Undoes(cfg, s, a, sec);
  }

  lemma Undoes(cfg: Config, s: State, a: int, sec: nat)
    requires sec < |s.busy| && Goes(cfg, s, a, At(Up(s, sec), a, Undo(sec)))
    ensures Goes(cfg, s, a, At(s, a, LoadNext(sec)))
  {
    GoesNext(cfg, s, a, Up(s, sec), Undo(sec), Succeed, Move(AddBusy(sec, -1), LoadNext(sec)));
    DownAgain(s, sec);
  }

  lemma DownAgain(s: State, sec: nat)
    requires sec < |s.busy|
    ensures Perform(Up(s, sec), AddBusy(sec, -1)) == s
  {
    var b := s.busy[sec];
    assert s.busy[sec := b + 1][sec := b] == s.busy;
  }

  /** The new array of a fork that found no room. */
  lemma Extends(cfg: Config, s: State, a: int, sec: nat)
    requires MemoryOk(s) && sec + 1 == |s.busy| && Goes(cfg, s, a, At(s, a, LoadNext(sec)))
    ensures Goes(cfg, s, a, At(Perform(s, AppendArray), a, Increment(sec + 1)))
  {
    GoesNext(cfg, s, a, s, LoadNext(sec), Succeed, Move(Nothing, Extend(sec)));
    GoesNext(cfg, s, a, s, Extend(sec), Succeed, Move(AppendArray, Increment(sec + 1)));
  }

  lemma GoesToNew(cfg: Config, s: State, a: int, sec: nat)
    requires Inv(cfg, s) && a in s.actors && s.actors[a] == Increment(sec) && !HasRoom(s, sec) && sec + 1 == |s.busy|
    ensures var s' := At(Perform(s, AppendArray), a, Increment(sec + 1));
            Goes(cfg, s, a, s') && MemoryOk(s') && CountOk(s') && HasRoom(s', sec + 1)
  {
    SkipsFull(cfg, s, a, sec);
    Extends(cfg, s, a, sec);
    GoesKeeps(cfg, s, a, At(Perform(s, AppendArray), a, Increment(sec + 1)));
    NewHasRoom(At(Perform(s, AppendArray), a, Increment(sec + 1)), sec + 1);
  }

  lemma NewHasRoom(s: State, sec: nat)
    requires CountOk(s) && sec < |s.busy| && s.busy[sec] == 0
    ensures HasRoom(s, sec)
  {
  }

  lemma OnlyTakesAfter(s: State, pc: Pc, t: State, a: int, slot: Slot)
    requires OnlyTakes(At(s, a, pc), t, a, slot)
    ensures OnlyTakes(s, t, a, slot)
  {
    ghost var s' := At(s, a, pc);
    assert s'.actors[a := Allocated(slot)] == s.actors[a := Allocated(slot)];
    assert PidAt(s, slot) == PidAt(s', slot);
  }

  /** The entries of a new array are free. */
  lemma OnlyTakesNew(s: State, t: State, a: int, slot: Slot)
    requires ArraysWhole(s) && OnlyTakes(Perform(s, AppendArray), t, a, slot)
    ensures OnlyTakes(s, t, a, slot)
  {
    NewArrayFree(s);
  }

  lemma NewArrayFree(s: State)
    requires ArraysWhole(s)
    ensures var s' := Perform(s, AppendArray);
            && (forall x :: x in s.entries ==> x in s'.entries && s'.entries[x] == s.entries[x])
            && (forall x :: x in s'.entries && x !in s.entries ==> s'.entries[x] == Entry(0, 0))
  {
  }

  /** An undisturbed fork takes an entry, in the first section with room or in a new one. */
  lemma {:induction false} FindsEntry(cfg: Config, s: State, a: int, sec: nat) returns (slot: Slot, t: State)
    requires Inv(cfg, s) && a in s.actors && s.actors[a] == Increment(sec)
    ensures Goes(cfg, s, a, t) && OnlyTakes(s, t, a, slot)
    decreases |s.busy| - sec
  {
    assert InBounds(s, s.actors[a]);
    if HasRoom(s, sec) {
      slot, t := TakesRoom(cfg, s, a, sec);
    } else if sec + 1 < |s.busy| {
      GoesToNext(cfg, s, a, sec);
      slot, t := FindsEntry(cfg, At(s, a, Increment(sec + 1)), a, sec + 1);
      FindsLater(cfg, s, a, sec, slot, t);
    } else {
      slot, t := FindsNewEntry(cfg, s, a, sec);
    }
  }

  lemma FindsLater(cfg: Config, s: State, a: int, sec: nat, slot: Slot, t: State)
    requires Goes(cfg, s, a, At(s, a, Increment(sec + 1))) && Goes(cfg, At(s, a, Increment(sec + 1)), a, t)
    requires OnlyTakes(At(s, a, Increment(sec + 1)), t, a, slot)
    ensures Goes(cfg, s, a, t) && OnlyTakes(s, t, a, slot)
  {
    GoesOnTo(cfg, s, a, At(s, a, Increment(sec + 1)), t);
    OnlyTakesAfter(s, Increment(sec + 1), t, a, slot);
  }

  lemma GoesToNext(cfg: Config, s: State, a: int, sec: nat)
    requires Inv(cfg, s) && a in s.actors && s.actors[a] == Increment(sec) && !HasRoom(s, sec) && sec + 1 < |s.busy|
    ensures Goes(cfg, s, a, At(s, a, Increment(sec + 1))) && Inv(cfg, At(s, a, Increment(sec + 1)))
  {
    SkipsFull(cfg, s, a, sec);
    GoesNext(cfg, s, a, s, LoadNext(sec), Succeed, Move(Nothing, Increment(sec + 1)));
    GoesKeeps(cfg, s, a, At(s, a, Increment(sec + 1)));
  }

  lemma FindsNewEntry(cfg: Config, s: State, a: int, sec: nat) returns (slot: Slot, t: State)
    requires Inv(cfg, s) && a in s.actors && s.actors[a] == Increment(sec) && !HasRoom(s, sec) && sec + 1 == |s.busy|
    ensures Goes(cfg, s, a, t) && OnlyTakes(s, t, a, slot)
  {
    ghost var s' := At(Perform(s, AppendArray), a, Increment(sec + 1));
    GoesToNew(cfg, s, a, sec);
    slot, t := TakesRoom(cfg, s', a, sec + 1);
    GoesOnTo(cfg, s, a, s', t);
    TakesNew(s, sec, t, a, slot);
  }

  lemma TakesNew(s: State, sec: nat, t: State, a: int, slot: Slot)
    requires ArraysWhole(s) && OnlyTakes(At(Perform(s, AppendArray), a, Increment(sec + 1)), t, a, slot)
    ensures OnlyTakes(s, t, a, slot)
  {
    OnlyTakesAfter(Perform(s, AppendArray), Increment(sec + 1), t, a, slot);
    OnlyTakesNew(s, t, a, slot);
  }

  /** `s` with child `pid` and its pipe `p` in entry `slot`. */
  ghost function Registered(s: State, slot: Slot, p: int, pid: int): State {
    s.(entries := s.entries[slot := Entry(pid, p)], pipes := s.pipes[p := Pipe([], 0, 0)],
       children := s.children[pid := Running], forks := s.forks[pid := p], released := s.released + {pid})
  }

  /** `t` with a new pipe and a child that waits for its release. */
  ghost function WithChild(t: State, p: int, pid: int): State {
    t.(pipes := t.pipes[p := Pipe([], 0, 0)], children := t.children[pid := Held], forks := t.forks[pid := p])
  }

  lemma Registers(cfg: Config, t: State, a: int, slot: Slot, p: int, pid: int)
    requires slot in t.entries && p !in t.pipes && pid > 0 && pid !in t.children
    ensures Goes(cfg, At(t, a, Allocated(slot)), a, At(Registered(t, slot, p, pid), a, Done))
  {
    var s0 := At(t, a, Allocated(slot));
    Forks(cfg, t, a, slot, p, pid);
    Stores(cfg, s0, WithChild(t, p, pid), a, slot, p, pid);
    ghost var t' := WithChild(t, p, pid).(entries := t.entries[slot := Entry(pid, p)]);
    LetsGoOf(cfg, s0, t', a, p, pid);
    RegisteredIs(t, slot, p, pid, t');
  }

  lemma RegisteredIs(t: State, slot: Slot, p: int, pid: int, t': State)
    requires t' == WithChild(t, p, pid).(entries := t.entries[slot := Entry(pid, p)])
    ensures t'.(children := t'.children[pid := Running], released := t'.released + {pid}) == Registered(t, slot, p, pid)
  {
    assert t.children[pid := Held][pid := Running] == t.children[pid := Running];
  }

  lemma Forks(cfg: Config, t: State, a: int, slot: Slot, p: int, pid: int)
    requires p !in t.pipes && pid > 0 && pid !in t.children
    ensures Goes(cfg, At(t, a, Allocated(slot)), a, At(WithChild(t, p, pid), a, Forked(slot, p, pid)))
  {
    GoesAt(cfg, t, a, Allocated(slot), Pick(p), Move(NewPipe(p), Piped(slot, p)));
    GoesNext(cfg, At(t, a, Allocated(slot)), a, Perform(t, NewPipe(p)), Piped(slot, p), Pick(pid),
             Move(ForkChild(pid, p), Forked(slot, p, pid)));
  }

  lemma Stores(cfg: Config, s0: State, t: State, a: int, slot: Slot, p: int, pid: int)
    requires slot in t.entries && Goes(cfg, s0, a, At(t, a, Forked(slot, p, pid)))
    ensures Goes(cfg, s0, a, At(t.(entries := t.entries[slot := Entry(pid, p)]), a, Published(p, pid)))
  {
    GoesNext(cfg, s0, a, t, Forked(slot, p, pid), Succeed, Move(StorePipe(slot, p), PipeStored(slot, p, pid)));
    StoresPid(cfg, s0, t.(entries := t.entries[slot := t.entries[slot].(deathPipe := p)]), a, slot, p, pid);
    assert t.entries[slot := t.entries[slot].(deathPipe := p)][slot := Entry(pid, p)] == t.entries[slot := Entry(pid, p)];
  }

  lemma StoresPid(cfg: Config, s0: State, t: State, a: int, slot: Slot, p: int, pid: int)
    requires slot in t.entries && t.entries[slot].deathPipe == p && Goes(cfg, s0, a, At(t, a, PipeStored(slot, p, pid)))
    ensures Goes(cfg, s0, a, At(t.(entries := t.entries[slot := Entry(pid, p)]), a, Published(p, pid)))
  {
    GoesNext(cfg, s0, a, t, PipeStored(slot, p, pid), Succeed, Move(StorePid(slot, pid), Published(p, pid)));
  }

  lemma LetsGoOf(cfg: Config, s0: State, t: State, a: int, p: int, pid: int)
    requires pid in t.children && t.children[pid].Held? && Goes(cfg, s0, a, At(t, a, Published(p, pid)))
    ensures Goes(cfg, s0, a, At(t.(children := t.children[pid := Running], released := t.released + {pid}), a, Done))
  {
    GoesNext(cfg, s0, a, t, Published(p, pid), Succeed, Move(ReleaseChild(pid), Done));
  }

  /** The children in the registry. */
  ghost function InRegistry(s: State): set<int> {
    set slot | slot in s.entries && PidAt(s, slot) > 0 :: PidAt(s, slot)
  }

  /** Child `pid` was added to the registry by actor `a`, with its pipe and running; everything that
      was there is as it was. */
  ghost predicate Added(s: State, t: State, a: int, p: int, pid: int) {
    && InRegistry(t) == InRegistry(s) + {pid}
    && (exists slot :: slot in t.entries && t.entries[slot] == Entry(pid, p) && PidAt(s, slot) == 0)
    && (forall x :: x in s.entries && PidAt(s, x) != 0 ==> x in t.entries && t.entries[x] == s.entries[x])
    && t.forks == s.forks[pid := p] && t.children == s.children[pid := Running] && t.pipes == s.pipes[p := Pipe([], 0, 0)]
    && t.actors == s.actors[a := Done]
  }

  lemma AddedBy(s: State, t: State, a: int, slot: Slot, p: int, pid: int)
    requires OnlyTakes(s, t, a, slot) && pid > 0
    ensures Added(s, At(Registered(t, slot, p, pid), a, Done), a, p, pid)
  {
    var u := At(Registered(t, slot, p, pid), a, Done);
    assert u.entries[slot] == Entry(pid, p);
    forall x | x in s.entries && PidAt(s, x) != 0 ensures x in u.entries && u.entries[x] == s.entries[x] {
      assert x != slot;
    }
    AddedPids(s, t, a, slot, p, pid, u);
    assert u.actors == s.actors[a := Done];
  }

  lemma AddedPids(s: State, t: State, a: int, slot: Slot, p: int, pid: int, u: State)
    requires OnlyTakes(s, t, a, slot) && pid > 0 && u.entries == t.entries[slot := Entry(pid, p)]
    ensures InRegistry(u) == InRegistry(s) + {pid}
  {
    forall q ensures q in InRegistry(u) <==> q in InRegistry(s) + {pid} {
      if q in InRegistry(u) {
        var x :| x in u.entries && PidAt(u, x) > 0 && PidAt(u, x) == q;
        if x != slot { assert x in s.entries && PidAt(s, x) == q; }
      }
      if q in InRegistry(s) {
        var x :| x in s.entries && PidAt(s, x) > 0 && PidAt(s, x) == q;
        assert x != slot && PidAt(u, x) == q;
      }
      if q == pid { assert PidAt(u, slot) == pid; }
    }
  }

  lemma Enters(cfg: Config, s: State, a: int, p: int, pid: int) returns (t: State)
    requires Inv(cfg, s) && a in s.actors && s.actors[a] == Increment(0) && p !in s.pipes && pid > 0 && pid !in s.children
    ensures Goes(cfg, s, a, t) && Added(s, t, a, p, pid)
  {
    var slot, mid := FindsEntry(cfg, s, a, 0);
    t := EntersAt(cfg, s, mid, a, slot, p, pid);
    GoesOnTo(cfg, s, a, mid, t);
  }

  lemma EntersAt(cfg: Config, s: State, mid: State, a: int, slot: Slot, p: int, pid: int) returns (t: State)
    requires OnlyTakes(s, mid, a, slot) && p !in s.pipes && pid > 0 && pid !in s.children
    ensures Goes(cfg, mid, a, t) && Added(s, t, a, p, pid)
  {
    assert At(mid, a, Allocated(slot)) == mid;
    Registers(cfg, mid, a, slot, p, pid);
    t := At(Registered(mid, slot, p, pid), a, Done);
    AddedBy(s, mid, a, slot, p, pid);
  }

  /** From any state that can be reached, a fork that is not disturbed and gets a pipe, a process and,
      where there is no room, memory, adds its child to the registry. */
  lemma ForkSucceeds(cfg: Config, s: State, a: int, p: int, pid: int) returns (t: State)
    requires Reaches(cfg, s) && a !in s.actors && p !in s.pipes && pid > 0 && pid !in s.children
    ensures Goes(cfg, At(s, a, Increment(0)), a, t) && Reaches(cfg, t) && Added(s, t, a, p, pid)
  {
    ghost var s0 := At(s, a, Increment(0));
    ReachStep(cfg, s, StartFork(a), s0);
    ReachedInv(cfg, s0);
    t := Enters(cfg, s0, a, p, pid);
    GoesReaches(cfg, s0, a, t);
    AddedToo(s, a, t, p, pid);
  }

  lemma AddedToo(s: State, a: int, t: State, p: int, pid: int)
    requires Added(At(s, a, Increment(0)), t, a, p, pid)
    ensures Added(s, t, a, p, pid)
  {
    ghost var s0 := At(s, a, Increment(0));
    assert InRegistry(s0) == InRegistry(s) by { assert forall x :: PidAt(s0, x) == PidAt(s, x); }
    assert s0.actors[a := Done] == s.actors[a := Done];
    ghost var slot :| slot in t.entries && t.entries[slot] == Entry(pid, p) && PidAt(s0, slot) == 0;
    assert PidAt(s, slot) == 0;
  }

  /** Any number of children can be in the registry at once. */
  lemma {:induction false} HoldsAnyNumber(cfg: Config, n: nat) returns (s: State)
    ensures Reaches(cfg, s) && |InRegistry(s)| == n
    ensures forall a :: a in s.actors || a in s.pipes || a in s.children ==> 0 < a <= n
    ensures forall pid :: pid in InRegistry(s) ==> pid in s.children
  {
    if n == 0 {
      s := Init;
      ReachInit(cfg);
      assert InRegistry(Init) == {};
    } else {
      var before := HoldsAnyNumber(cfg, n - 1);
      s := ForkSucceeds(cfg, before, n, n, n);
      assert n !in InRegistry(before);
    }
  }

  // ---------------------------------------------------------------------------------------------
  // A handler finds the child it looks for
  // ---------------------------------------------------------------------------------------------

  /** Entry `x` holds child `pid`, and no other entry does. */
  ghost predicate OnlyIn(s: State, x: Slot, pid: int) {
    x in s.entries && forall y :: y in s.entries ==> (PidAt(s, y) == pid <==> y == x)
  }

  predicate NotAfter(slot: Slot, x: Slot) {
    slot.sec < x.sec || (slot.sec == x.sec && slot.i <= x.i)
  }

  /** The state in which the handler has swapped the child out. */
  ghost function SwappedOut(s: State, a: int, x: Slot, pid: int): State
    requires x in s.entries
  {
    At(Perform(s, StorePid(x, -1)), a, Owned(x, pid, SearchAgain))
  }

  lemma {:induction false} FindsChild(cfg: Config, s: State, a: int, pid: int, x: Slot, slot: Slot)
    requires ArraysWhole(s) && OnlyIn(s, x, pid) && slot in s.entries && NotAfter(slot, x)
    ensures Goes(cfg, At(s, a, Match(pid, slot)), a, SwappedOut(s, a, x, pid))
    decreases x.sec - slot.sec, Capacity(slot.sec) - slot.i
  {
    if slot == x {
      GoesAt(cfg, s, a, Match(pid, x), Succeed, Move(StorePid(x, -1), Owned(x, pid, SearchAgain)));
    } else {
      assert PidAt(s, slot) != pid;
      ghost var next := NextSlot(slot);
      PassesOver(cfg, s, a, pid, slot);
      FindsChild(cfg, s, a, pid, x, next);
      GoesOnTo(cfg, At(s, a, Match(pid, slot)), a, At(s, a, Match(pid, next)), SwappedOut(s, a, x, pid));
    }
  }

  function NextSlot(slot: Slot): Slot {
    if slot.i + 1 < Capacity(slot.sec) then Slot(slot.sec, slot.i + 1) else Slot(slot.sec + 1, 0)
  }

  lemma PassesOver(cfg: Config, s: State, a: int, pid: int, slot: Slot)
    requires ArraysWhole(s) && slot in s.entries && NextSlot(slot) in s.entries && PidAt(s, slot) != pid
    ensures Goes(cfg, At(s, a, Match(pid, slot)), a, At(s, a, Match(pid, NextSlot(slot))))
  {
    GoesAt(cfg, s, a, Match(pid, slot), Succeed, Move(Nothing, AfterMatch(pid, slot)));
    if slot.i + 1 >= Capacity(slot.sec) {
      GoesNext(cfg, At(s, a, Match(pid, slot)), a, s, MatchNext(pid, slot.sec), Succeed, Move(Nothing, Match(pid, NextSlot(slot))));
    }
  }

  lemma OnlyOneEntry(s: State, x: Slot)
    requires PublishedOk(s) && x in s.entries && PidAt(s, x) > 0
    ensures OnlyIn(s, x, PidAt(s, x))
  {
  }

  /** A handler that is told of a child in the registry, and is not disturbed, finds its entry. */
  lemma SearchFinds(cfg: Config, run: seq<State>, k: nat, a: int, pid: int, x: Slot)
    requires IsRun(cfg, run) && k < |run| && a in run[k].actors && run[k].actors[a] == Match(pid, Slot(0, 0))
    requires pid > 0 && x in run[k].entries && PidAt(run[k], x) == pid
    ensures Goes(cfg, run[k], a, SwappedOut(run[k], a, x, pid))
  {
    RunKeepsInv(cfg, run, k);
    OnlyOneEntry(run[k], x);
    assert At(run[k], a, Match(pid, Slot(0, 0))) == run[k];
    FindsChild(cfg, run[k], a, pid, x, Slot(0, 0));
  }

  // ---------------------------------------------------------------------------------------------
  // A handler comes to its end
  // ---------------------------------------------------------------------------------------------

  ghost function Zombies(s: State): set<int> {
    set pid | pid in s.children && s.children[pid].Zombie?
  }

  /** How far a slot is from the end of `n` arrays. */
  function Ahead(n: nat, slot: Slot): int {
    2570 * (n - slot.sec) - 10 * slot.i
  }

  function AheadOfSection(n: nat, sec: nat): int {
    2570 * (n - sec - 1) + 15
  }

  /** The steps of a scan over `n` arrays, and of a search and the scan after it. */
  function ScanSize(n: nat): nat {
    2570 * n + 20
  }

  function SearchSize(n: nat): nat {
    2 * ScanSize(n) + 20
  }

  /** How much is left to do for a handler with `n` arrays, before it reaps another child. */
  function Left(n: nat, pc: Pc): int {
    match pc
    case Search => SearchSize(n) - 6
    case Match(_, slot) => ScanSize(n) + Ahead(n, slot) + 9
    case MatchNext(_, sec) => ScanSize(n) + AheadOfSection(n, sec)
    case ScanLoad(slot) => Ahead(n, slot) + 9
    case ScanReady(slot, _) => Ahead(n, slot) + 8
    case ScanSwap(slot, _) => Ahead(n, slot) + 7
    case ScanNext(sec) => AheadOfSection(n, sec)
    case Owned(slot, _, k) => if k.ScanAfter? then Ahead(n, k.slot) + 6 else ScanSize(n) + Ahead(n, slot) + 6
    case Reaped(_, _, _, k) => LeftAfter(n, k) + 5
    case Notified(_, _, _, k) => LeftAfter(n, k) + 4
    case ClearPipe(_, k) => LeftAfter(n, k) + 3
    case ClearPid(_, k) => LeftAfter(n, k) + 2
    case Decrement(_, k) => LeftAfter(n, k) + 1
    case _ => 0
  }

  function LeftAfter(n: nat, k: Cont): int {
    match k
    case Return => 0
    case SearchAgain => SearchSize(n) - 6
    case ScanAfter(slot) => Ahead(n, slot)
  }

  /** In a handler, or freeing an entry. */
  predicate Winding(pc: Pc) {
    Handling(pc) || pc.ClearPipe? || pc.ClearPid? || pc.Decrement?
  }

  lemma LeftBounds(s: State, pc: Pc)
    requires ArraysWhole(s) && InBounds(s, pc)
    ensures 0 <= Left(|s.busy|, pc) < SearchSize(|s.busy|)
    ensures Winding(pc) ==> Left(|s.busy|, pc) > 0
  {
  }

  ghost predicate Closer(s: State, pc: Pc, m: Move) {
    && (Winding(m.pc) || m.pc == Done)
    && (m.w.ReapChild? || Left(|s.busy|, m.pc) < Left(|s.busy|, pc))
  }

  lemma SearchCloser(cfg: Config, s: State, pc: Pc, c: Choice, m: Move)
    requires ArraysWhole(s) && InBounds(s, pc) && SearchMove(cfg, s, pc, c) == Some(m)
    ensures Closer(s, pc, m)
  {
  }

  lemma ScanCloser(cfg: Config, s: State, pc: Pc, c: Choice, m: Move)
    requires ArraysWhole(s) && InBounds(s, pc) && ScanMove(cfg, s, pc, c) == Some(m)
    ensures Closer(s, pc, m)
  {
    if !pc.ScanNext? { AfterScanCloser(s, pc.slot); }
  }

  lemma AfterScanCloser(s: State, slot: Slot)
    requires ArraysWhole(s) && slot in s.entries
    ensures Winding(AfterScan(slot)) && Left(|s.busy|, AfterScan(slot)) < Ahead(|s.busy|, slot)
  {
  }

  lemma FreeCloser(s: State, pc: Pc, m: Move)
    requires ArraysWhole(s) && InBounds(s, pc) && FreeMove(pc) == Some(m)
    ensures Closer(s, pc, m)
  {
  }

  lemma NotifyCloser(s: State, pc: Pc, m: Move)
    requires ActorOk(s, pc) && NotifyMove(s, pc) == Some(m)
    ensures Closer(s, pc, m)
  {
  }

  /** A handler that goes on is nearer to its end, or reaps a child. */
  lemma MoveCloser(cfg: Config, s: State, pc: Pc, c: Choice, m: Move)
    requires ArraysWhole(s) && InBounds(s, pc) && ActorOk(s, pc) && Winding(pc) && NextMove(cfg, s, pc, c) == Some(m)
    ensures Closer(s, pc, m)
  {
    if SearchMove(cfg, s, pc, c) == Some(m) { SearchCloser(cfg, s, pc, c, m); }
    else if ScanMove(cfg, s, pc, c) == Some(m) { ScanCloser(cfg, s, pc, c, m); }
    else if FreeMove(pc) == Some(m) { FreeCloser(s, pc, m); }
    else { NotifyCloser(s, pc, m); }
  }

  /** All that is left to do for a handler. */
  ghost function AllLeft(s: State, pc: Pc): int {
    |Zombies(s)| * SearchSize(|s.busy|) + Left(|s.busy|, pc)
  }

  lemma ZombiesAfter(s: State, w: Write)
    requires Legal(s, w)
    ensures w.ReapChild? ==> |Zombies(Perform(s, w))| == |Zombies(s)| - 1
    ensures !w.ReapChild? ==> Zombies(Perform(s, w)) <= Zombies(s)
  {
    if w.ReapChild? {
      assert Zombies(Perform(s, w)) == Zombies(s) - {w.child};
    }
  }

  lemma SameLength(cfg: Config, s: State, pc: Pc, c: Choice, m: Move)
    requires NextMove(cfg, s, pc, c) == Some(m) && Winding(pc) && Legal(s, m.w)
    ensures |Perform(s, m.w).busy| == |s.busy|
  {
    OnlyAppendGrows(s, m.w);
  }

  lemma Product(a: nat, b: nat, n: nat, x: int, y: int)
    requires (a <= b && x < y) || (a + 1 == b && x < n && y >= 0)
    ensures a * n + x < b * n + y
  {
    if a <= b && x < y {
      assert a * n <= b * n;
    } else {
      assert b * n == a * n + n;
    }
  }

  lemma StepCloser(cfg: Config, s: State, a: int, c: Choice, t: State)
    requires MemoryOk(s) && a in s.actors && ActorOk(s, s.actors[a]) && Winding(s.actors[a]) && ActorStep(cfg, s, a, c) == Some(t)
    ensures a in t.actors && (Winding(t.actors[a]) || t.actors[a] == Done)
    ensures AllLeft(t, t.actors[a]) < AllLeft(s, s.actors[a])
  {
    ghost var pc := s.actors[a];
    ghost var m := NextMove(cfg, s, pc, c).value;
    assert InBounds(s, pc);
    MoveCloser(cfg, s, pc, c, m);
    SameLength(cfg, s, pc, c, m);
    MoveInBounds(cfg, s, pc, c);
    LeftBounds(s, pc);
    LessLeft(s, pc, m, t);
  }

  lemma LessLeft(s: State, pc: Pc, m: Move, t: State)
    requires Legal(s, m.w) && Closer(s, pc, m) && |Perform(s, m.w).busy| == |s.busy| && t == Perform(s, m.w).(actors := t.actors)
    requires ArraysWhole(s) && InBounds(s, m.pc) && Left(|s.busy|, pc) >= 0
    ensures AllLeft(t, m.pc) < AllLeft(s, pc)
  {
    LeftBounds(s, m.pc);
    FewerZombies(s, m.w, t);
    Product(|Zombies(t)|, |Zombies(s)|, SearchSize(|s.busy|), Left(|s.busy|, m.pc), Left(|s.busy|, pc));
  }

  lemma FewerZombies(s: State, w: Write, t: State)
    requires Legal(s, w) && t == Perform(s, w).(actors := t.actors)
    ensures |Zombies(t)| <= |Zombies(s)| && (w.ReapChild? ==> |Zombies(t)| + 1 == |Zombies(s)|)
  {
    ZombiesAfter(s, w);
    assert Zombies(t) == Zombies(Perform(s, w));
    if !w.ReapChild? { SubsetSize(Zombies(t), Zombies(s)); }
  }

  /** Whatever is left open, actor `a` alone comes to its end within `n` steps. */
  ghost predicate EndsWithin(cfg: Config, s: State, a: int, n: nat)
    decreases n
  {
    && a in s.actors
    && (s.actors[a] != Done ==>
          && n > 0 && (exists c :: ActorStep(cfg, s, a, c).Some?)
          && forall t :: Follows(cfg, s, a, t) ==> EndsWithin(cfg, t, a, n - 1))
  }

  ghost predicate Follows(cfg: Config, s: State, a: int, t: State)
    requires a in s.actors
  {
    exists c :: ActorStep(cfg, s, a, c) == Some(t)
  }

  /** There is always something a handler can do. */
  lemma CanStep(cfg: Config, s: State, a: int) returns (c: Choice)
    requires MemoryOk(s) && a in s.actors && ActorOk(s, s.actors[a]) && Winding(s.actors[a])
    ensures ActorStep(cfg, s, a, c).Some?
  {
    ghost var pc := s.actors[a];
    c := Succeed;
    if pc.Search? {
      if pid :| pid in s.children && s.children[pid].Zombie? { c := Pick(pid); }
    }
    assert InBounds(s, pc);
    HasMove(cfg, s, pc, c);
    HandlerLegal(cfg, s, pc, c, NextMove(cfg, s, pc, c).value);
  }

  lemma HasMove(cfg: Config, s: State, pc: Pc, c: Choice)
    requires Winding(pc)
    requires pc.Search? ==> if c.Pick? then IsZombie(s, c.n) else forall pid :: pid in s.children ==> !s.children[pid].Zombie?
    ensures NextMove(cfg, s, pc, c).Some?
  {
  }

  /** In every state of a run, whatever is left open, a handler that is not disturbed comes to its end. */
  lemma HandlerEnds(cfg: Config, run: seq<State>, k: nat, a: int)
    requires IsRun(cfg, run) && k < |run| && a in run[k].actors && Winding(run[k].actors[a])
    ensures exists n :: EndsWithin(cfg, run[k], a, n)
  {
    RunKeepsInv(cfg, run, k);
    ghost var n := EndsSomewhere(cfg, run[k], a);
  }

  lemma EndsSomewhere(cfg: Config, s: State, a: int) returns (n: nat)
    requires Inv(cfg, s) && a in s.actors && Winding(s.actors[a])
    ensures EndsWithin(cfg, s, a, n)
  {
    NotNegative(cfg, s, a);
    n := AllLeft(s, s.actors[a]);
    Ends(cfg, s, a, n);
  }

  lemma {:induction false} Ends(cfg: Config, s: State, a: int, n: nat)
    requires Inv(cfg, s) && a in s.actors && (Winding(s.actors[a]) || s.actors[a] == Done) && AllLeft(s, s.actors[a]) <= n
    ensures EndsWithin(cfg, s, a, n)
    decreases n
  {
    if s.actors[a] != Done {
      var c0 := StepsOn(cfg, s, a);
      forall t | Follows(cfg, s, a, t) ensures n > 0 && EndsWithin(cfg, t, a, n - 1) {
        OneCloser(cfg, s, a, t);
        Ends(cfg, t, a, n - 1);
      }
      assert Follows(cfg, s, a, ActorStep(cfg, s, a, c0).value);
    }
  }

  lemma StepsOn(cfg: Config, s: State, a: int) returns (c0: Choice)
    requires Inv(cfg, s) && a in s.actors && Winding(s.actors[a])
    ensures ActorStep(cfg, s, a, c0).Some?
  {
    assert ActorOk(s, s.actors[a]);
    c0 := CanStep(cfg, s, a);
  }

  lemma OneCloser(cfg: Config, s: State, a: int, t: State)
    requires Inv(cfg, s) && a in s.actors && Winding(s.actors[a]) && Follows(cfg, s, a, t)
    ensures Inv(cfg, t) && a in t.actors && (Winding(t.actors[a]) || t.actors[a] == Done)
    ensures 0 <= AllLeft(t, t.actors[a]) < AllLeft(s, s.actors[a])
  {
    ghost var c :| ActorStep(cfg, s, a, c) == Some(t);
    InvKept(cfg, s, Act(a, c), t);
    ActorIsOk(cfg, s, a);
    StepCloser(cfg, s, a, c, t);
    NotNegative(cfg, t, a);
  }

  lemma ActorIsOk(cfg: Config, s: State, a: int)
    requires Inv(cfg, s) && a in s.actors
    ensures ActorOk(s, s.actors[a])
  {
  }

  lemma NotNegative(cfg: Config, s: State, a: int)
    requires Inv(cfg, s) && a in s.actors
    ensures AllLeft(s, s.actors[a]) >= 0
  {
    assert InBounds(s, s.actors[a]);
    LeftBounds(s, s.actors[a]);
  }

  /** When the only handler has come to its end alone, and no signal is pending, every child that died
      after its release has been reported. */
  lemma HandlerReports(cfg: Config, run: seq<State>, k: nat, a: int, cs: seq<Choice>, t: State, pid: int)
    requires !cfg.spurious && IsRun(cfg, run) && k < |run| && a in run[k].actors && !run[k].pending
    requires forall b :: b in run[k].actors && b != a ==> !Handling(run[k].actors[b])
    requires Alone(cfg, run[k], a, cs) == Some(t) && a in t.actors && t.actors[a] == Done
    requires pid in t.forks && Dead(t, pid) && pid in t.released
    ensures Reported(t, pid)
  {
    KeepsAlone(cfg, run, k, a, cs, t);
    OthersStay(cfg, run[k], a, cs, t);
    DeathReported(cfg, t, pid);
  }

  lemma KeepsAlone(cfg: Config, run: seq<State>, k: nat, a: int, cs: seq<Choice>, t: State)
    requires IsRun(cfg, run) && k < |run| && Alone(cfg, run[k], a, cs) == Some(t)
    ensures Inv(cfg, t)
  {
    RunKeepsInv(cfg, run, k);
    AloneKeeps(cfg, run[k], a, cs, t);
  }

  lemma {:induction false} OthersStay(cfg: Config, s: State, a: int, cs: seq<Choice>, t: State)
    requires a in s.actors && Alone(cfg, s, a, cs) == Some(t)
    ensures t.pending == s.pending && a in t.actors && t.actors == s.actors[a := t.actors[a]]
    decreases |cs|
  {
    if cs != [] {
      ghost var next := ActorStep(cfg, s, a, cs[0]).value;
      PendingStays(s, NextMove(cfg, s, s.actors[a], cs[0]).value.w);
      OthersStay(cfg, next, a, cs[1..], t);
    } else {
      assert s.actors == s.actors[a := s.actors[a]];
    }
  }

  lemma PendingStays(s: State, w: Write)
    requires Legal(s, w)
    ensures Perform(s, w).pending == s.pending
  {
  }
}
