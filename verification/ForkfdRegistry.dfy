/** The lock-free child registry of forkfd as a step system.

    Any number of actors run at once: threads inside forkfd_fork_fallback and SIGCHLD handlers
    inside reapChildProcesses. An actor's program counter says which atomic access comes next, so
    a step is one access to shared memory or one system call, and a run is any interleaving.
    Atomics are sequentially consistent. Process ids and pipe descriptors are never reused.
 */
module ForkfdRegistry {

  // Slots in the static array and in every array added by calloc.
  const SMALL_ARRAY := 16
  const BIG_ARRAY := 256

  function Capacity(sec: nat): nat {
    if sec == 0 then SMALL_ARRAY else BIG_ARRAY
  }

  /** A ProcessInfo: `pid` is 0 when free, -1 while some party is working on it, else a child. */
  datatype Entry = Entry(pid: int, deathPipe: int)

  /** `entries[i]` of the `sec`-th array of the list; section 0 is the static array. */
  datatype Slot = Slot(sec: nat, i: nat)

  datatype ExitStatus = ExitStatus(code: int, status: int)

  datatype Child =
    | Held                        // forked, blocked in read(2) until the parent releases it
    | Running
    | Zombie(exit: ExitStatus)    // dead, not yet waited for
    | Collected(exit: ExitStatus) // waited for

  /** A death pipe: everything ever written to it, how often its write end was closed in this
      process, and how many payloads forkfd_wait4 has taken out. */
  datatype Pipe = Pipe(written: seq<ExitStatus>, closes: nat, taken: nat)

  /** What a handler does after freeInfo: return, search again, or go on scanning after a slot. */
  datatype Cont = Return | SearchAgain | ScanAfter(slot: Slot)

  datatype Pc =
    // allocateInfo and tryAllocateInSection
    | Increment(sec: nat)
    | TakeFree(slot: Slot)
    | Undo(sec: nat)
    | LoadNext(sec: nat)
    | Extend(sec: nat)
    | NullArray                   // continues with a null array pointer: undefined behaviour
    // the rest of forkfd_fork_fallback
    | Allocated(slot: Slot)
    | Piped(slot: Slot, pipe: int)
    | Forked(slot: Slot, pipe: int, pid: int)
    | PipeStored(slot: Slot, pipe: int, pid: int)
    | Published(pipe: int, pid: int)
    // freeInfo, on behalf of either party
    | ClearPipe(slot: Slot, cont: Cont)
    | ClearPid(slot: Slot, cont: Cont)
    | Decrement(sec: nat, cont: Cont)
    // reapChildProcesses, first part: look for the child reported by waitid(P_ALL)
    | Search
    | Match(pid: int, slot: Slot)
    | MatchNext(pid: int, sec: nat)
    // an entry was swapped to -1 by a handler
    | Owned(slot: Slot, pid: int, cont: Cont)
    | Reaped(slot: Slot, pid: int, exit: ExitStatus, cont: Cont)
    | Notified(slot: Slot, pid: int, exit: ExitStatus, cont: Cont)
    // reapChildProcesses, second part: try every entry
    | ScanLoad(slot: Slot)
    | ScanReady(slot: Slot, pid: int)
    | ScanSwap(slot: Slot, pid: int)
    | ScanNext(sec: nat)
    | Done

  /** `busy[sec]` is the section's busyCount. A section's nextArray is null iff it is the last.
      `forks` remembers which death pipe each forked child was given, and `released` which of them
      were alive when their parent let them go on. `pending` is the pending SIGCHLD. */
  datatype State = State(
    busy: seq<int>,
    entries: map<Slot, Entry>,
    children: map<int, Child>,
    pipes: map<int, Pipe>,
    forks: map<int, int>,
    actors: map<int, Pc>,
    pending: bool,
    released: set<int>)

  /** `spurious`: the compare-exchange may fail although the expected value was there (the GCC
      builtin is asked for the weak form, the C11 header for the strong one).
      `earlyDeath`: a child may be killed while it still waits for the parent's release. */
  datatype Config = Config(spurious: bool, earlyDeath: bool)

  /** The outcome of whatever the current access leaves open. */
  datatype Choice = Succeed | Fail | Pick(n: int)

  datatype Step =
    | StartFork(a: int)
    | StartHandler(a: int)
    | Act(a: int, c: Choice)
    | Die(pid: int, exit: ExitStatus)
    | SpawnForeign(pid: int)
    | ReapForeign(pid: int)
    | Wait4(pipe: int)

  datatype Option<+T> = None | Some(value: T)

  function FreshEntries(sec: nat): map<Slot, Entry> {
    map i: nat | i < Capacity(sec) :: Slot(sec, i) := Entry(0, 0)
  }

  const Init: State := State([0], FreshEntries(0), map[], map[], map[], map[], false, {})

  // ---------------------------------------------------------------------------------------------
  // Steps
  // ---------------------------------------------------------------------------------------------

  /** The single change of shared state that one step makes. */
  datatype Write =
    | Nothing
    | AddBusy(sec: nat, d: int)
    | StorePid(slot: Slot, pid: int)
    | StorePipe(slot: Slot, pipe: int)
    | AppendArray
    | NewPipe(p: int)
    | WritePipe(p: int, exit: ExitStatus)
    | ClosePipe(p: int)
    | ForkChild(child: int, p: int)
    | ReleaseChild(child: int)
    | ReapChild(child: int)

  /** The write refers to memory, descriptors and processes that exist. */
  predicate Legal(s: State, w: Write) {
    match w
    case Nothing => true
    case AddBusy(sec, _) => sec < |s.busy|
    case StorePid(slot, _) => slot in s.entries
    case StorePipe(slot, _) => slot in s.entries
    case AppendArray => true
    case NewPipe(p) => p !in s.pipes
    case WritePipe(p, _) => p in s.pipes
    case ClosePipe(p) => p in s.pipes
    case ForkChild(pid, _) => pid > 0 && pid !in s.children
    case ReleaseChild(pid) => pid in s.children
    case ReapChild(pid) => IsZombie(s, pid)
  }

  function Perform(s: State, w: Write): State
    requires Legal(s, w)
  {
    match w
    case Nothing => s
    case AddBusy(sec, d) => s.(busy := s.busy[sec := s.busy[sec] + d])
    case StorePid(slot, pid) => s.(entries := s.entries[slot := s.entries[slot].(pid := pid)])
    case StorePipe(slot, p) => s.(entries := s.entries[slot := s.entries[slot].(deathPipe := p)])
    case AppendArray => s.(busy := s.busy + [0], entries := s.entries + FreshEntries(|s.busy|))
    case NewPipe(p) => s.(pipes := s.pipes[p := Pipe([], 0, 0)])
    case WritePipe(p, exit) => s.(pipes := s.pipes[p := s.pipes[p].(written := s.pipes[p].written + [exit])])
    case ClosePipe(p) => s.(pipes := s.pipes[p := s.pipes[p].(closes := s.pipes[p].closes + 1)])
    case ForkChild(pid, p) => s.(children := s.children[pid := Held], forks := s.forks[pid := p])
    case ReleaseChild(pid) =>
      if s.children[pid].Held? then s.(children := s.children[pid := Running], released := s.released + {pid}) else s
    case ReapChild(pid) => s.(children := s.children[pid := Collected(s.children[pid].exit)])
  }

  predicate IsZombie(s: State, pid: int) {
    pid in s.children && s.children[pid].Zombie?
  }

  /** What an entry holds; reading outside the arrays is ruled out by ForkfdBounds.MemoryKept. */
  function PidAt(s: State, slot: Slot): int {
    if slot in s.entries then s.entries[slot].pid else 0
  }

  function PipeAt(s: State, slot: Slot): int {
    if slot in s.entries then s.entries[slot].deathPipe else 0
  }

  /** A compare-exchange of entry->pid finds `expected`. */
  predicate Swaps(cfg: Config, s: State, slot: Slot, expected: int, c: Choice) {
    PidAt(s, slot) == expected && !(cfg.spurious && c.Fail?)
  }

  datatype Move = Move(w: Write, pc: Pc)

  function AfterTakeFree(slot: Slot): Pc {
    if slot.i + 1 < Capacity(slot.sec) then TakeFree(Slot(slot.sec, slot.i + 1)) else Undo(slot.sec)
  }

  function AfterMatch(pid: int, slot: Slot): Pc {
    if slot.i + 1 < Capacity(slot.sec) then Match(pid, Slot(slot.sec, slot.i + 1)) else MatchNext(pid, slot.sec)
  }

  function AfterScan(slot: Slot): Pc {
    if slot.i + 1 < Capacity(slot.sec) then ScanLoad(Slot(slot.sec, slot.i + 1)) else ScanNext(slot.sec)
  }

  function Resume(cont: Cont): Pc {
    match cont
    case Return => Done
    case SearchAgain => Search
    case ScanAfter(slot) => AfterScan(slot)
  }

  /** tryAllocateInSection and allocateInfo. */
  function AllocMove(cfg: Config, s: State, pc: Pc, c: Choice): Option<Move> {
    match pc
    case Increment(sec) =>
      var room := sec < |s.busy| && s.busy[sec] + 1 <= Capacity(sec);
      Some(Move(AddBusy(sec, 1), if room then TakeFree(Slot(sec, 0)) else Undo(sec)))
    case TakeFree(slot) =>
      if Swaps(cfg, s, slot, 0, c) then Some(Move(StorePid(slot, -1), Allocated(slot)))
      else Some(Move(Nothing, AfterTakeFree(slot)))
    case Undo(sec) => Some(Move(AddBusy(sec, -1), LoadNext(sec)))
    case LoadNext(sec) =>
      if sec + 1 < |s.busy| then Some(Move(Nothing, Increment(sec + 1)))
      else if c.Fail? then Some(Move(Nothing, Done))  // calloc failed: ENOMEM
      else Some(Move(Nothing, Extend(sec)))
    case Extend(sec) =>
      if sec + 1 < |s.busy| then Some(Move(Nothing, Increment(sec + 1)))
      else if cfg.spurious && c.Fail? then Some(Move(Nothing, NullArray))
      else Some(Move(AppendArray, Increment(sec + 1)))
    case _ => None
  }

  /** The rest of forkfd_fork_fallback. */
  function ForkMove(s: State, pc: Pc, c: Choice): Option<Move> {
    match pc
    case Allocated(slot) =>
      if c.Pick? then Some(Move(NewPipe(c.n), Piped(slot, c.n)))
      else Some(Move(Nothing, ClearPipe(slot, Return)))  // no death pipe
    case Piped(slot, p) =>
      if c.Pick? then Some(Move(ForkChild(c.n, p), Forked(slot, p, c.n)))
      else Some(Move(ClosePipe(p), ClearPipe(slot, Return)))  // neither eventfd nor pipe, or no fork
    case Forked(slot, p, pid) => Some(Move(StorePipe(slot, p), PipeStored(slot, p, pid)))
    case PipeStored(slot, p, pid) => Some(Move(StorePid(slot, pid), Published(p, pid)))
    case Published(p, pid) => Some(Move(ReleaseChild(pid), Done))
    case _ => None
  }

  function FreeMove(pc: Pc): Option<Move> {
    match pc
    case ClearPipe(slot, k) => Some(Move(StorePipe(slot, -1), ClearPid(slot, k)))
    case ClearPid(slot, k) => Some(Move(StorePid(slot, 0), Decrement(slot.sec, k)))
    case Decrement(sec, k) => Some(Move(AddBusy(sec, -1), Resume(k)))
    case _ => None
  }

  /** waitid(P_ALL) and the search for the child it reports. */
  function SearchMove(cfg: Config, s: State, pc: Pc, c: Choice): Option<Move> {
    match pc
    case Search =>
      if c.Pick? then
        if IsZombie(s, c.n) then Some(Move(Nothing, Match(c.n, Slot(0, 0)))) else None
      else if forall pid | pid in s.children :: !s.children[pid].Zombie? then Some(Move(Nothing, Done))
      else None
    case Match(pid, slot) =>
      if Swaps(cfg, s, slot, pid, c) then Some(Move(StorePid(slot, -1), Owned(slot, pid, SearchAgain)))
      else Some(Move(Nothing, AfterMatch(pid, slot)))
    case MatchNext(pid, sec) =>
      Some(Move(Nothing, if sec + 1 < |s.busy| then Match(pid, Slot(sec + 1, 0)) else ScanLoad(Slot(0, 0))))
    case _ => None
  }

  /** tryReaping, then the write and the close of notifyAndFreeInfo. */
  function NotifyMove(s: State, pc: Pc): Option<Move> {
    match pc
    case Owned(slot, pid, k) =>
      if IsZombie(s, pid) then Some(Move(ReapChild(pid), Reaped(slot, pid, s.children[pid].exit, k)))
      else Some(Move(Nothing, Resume(k)))  // tryReaping returned 0: the entry stays at -1
    case Reaped(slot, pid, exit, k) => Some(Move(WritePipe(PipeAt(s, slot), exit), Notified(slot, pid, exit, k)))
    case Notified(slot, pid, exit, k) => Some(Move(ClosePipe(PipeAt(s, slot)), ClearPipe(slot, k)))
    case _ => None
  }

  /** The second part of reapChildProcesses, which tries every entry. */
  function ScanMove(cfg: Config, s: State, pc: Pc, c: Choice): Option<Move> {
    match pc
    case ScanLoad(slot) =>
      var pid := PidAt(s, slot);
      Some(Move(Nothing, if pid <= 0 then AfterScan(slot) else ScanReady(slot, pid)))
    case ScanReady(slot, pid) =>
      Some(Move(Nothing, if IsZombie(s, pid) then ScanSwap(slot, pid) else AfterScan(slot)))
    case ScanSwap(slot, pid) =>
      if Swaps(cfg, s, slot, pid, c) then Some(Move(StorePid(slot, -1), Owned(slot, pid, ScanAfter(slot))))
      else Some(Move(Nothing, AfterScan(slot)))
    case ScanNext(sec) =>
      Some(Move(Nothing, if sec + 1 < |s.busy| then ScanLoad(Slot(sec + 1, 0)) else Done))
    case _ => None
  }

  /** The next access of an actor at `pc`, and where it leads. */
  function NextMove(cfg: Config, s: State, pc: Pc, c: Choice): Option<Move> {
    match pc
    case Increment(_) | TakeFree(_) | Undo(_) | LoadNext(_) | Extend(_) => AllocMove(cfg, s, pc, c)
    case Allocated(_) | Piped(_, _) | Forked(_, _, _) | PipeStored(_, _, _) | Published(_, _) => ForkMove(s, pc, c)
    case ClearPipe(_, _) | ClearPid(_, _) | Decrement(_, _) => FreeMove(pc)
    case Search | Match(_, _) | MatchNext(_, _) => SearchMove(cfg, s, pc, c)
    case Owned(_, _, _) | Reaped(_, _, _, _) | Notified(_, _, _, _) => NotifyMove(s, pc)
    case ScanLoad(_) | ScanReady(_, _) | ScanSwap(_, _) | ScanNext(_) => ScanMove(cfg, s, pc, c)
    case NullArray | Done => None
  }

  function ActorStep(cfg: Config, s: State, a: int, c: Choice): Option<State>
    requires a in s.actors
  {
    match NextMove(cfg, s, s.actors[a], c)
    case None => None
    case Some(m) =>
      if Legal(s, m.w) then Some(Perform(s, m.w).(actors := s.actors[a := m.pc])) else None
  }

  /** Steps of the processes and of the kernel around the registry. */
  function WorldStep(cfg: Config, s: State, st: Step): Option<State>
    requires !st.Act?
  {
    match st
    case StartFork(a) =>
      if a in s.actors then None else Some(s.(actors := s.actors[a := Increment(0)]))
    case StartHandler(a) =>
      if a in s.actors then None else Some(s.(actors := s.actors[a := Search], pending := false))
    case Die(pid, exit) =>
      if pid in s.children && (s.children[pid].Running? || (cfg.earlyDeath && s.children[pid].Held?)) then
        Some(s.(children := s.children[pid := Zombie(exit)], pending := true))
      else None
    case SpawnForeign(pid) =>
      if pid > 0 && pid !in s.children then Some(s.(children := s.children[pid := Running])) else None
    case ReapForeign(pid) =>
      if IsZombie(s, pid) && pid !in s.forks then Some(Perform(s, ReapChild(pid))) else None
    case Wait4(p) =>
      if p in s.pipes && s.pipes[p].taken < |s.pipes[p].written| then
        Some(s.(pipes := s.pipes[p := s.pipes[p].(taken := s.pipes[p].taken + 1)]))
      else None
  }

  function Next(cfg: Config, s: State, st: Step): Option<State> {
    if !st.Act? then WorldStep(cfg, s, st)
    else if st.a in s.actors then ActorStep(cfg, s, st.a, st.c)
    else None
  }

  ghost predicate IsRun(cfg: Config, run: seq<State>) {
    && |run| > 0
    && run[0] == Init
    && forall k :: 0 < k < |run| ==> StepsAt(cfg, run, k)
  }

  ghost predicate StepsAt(cfg: Config, run: seq<State>, k: nat)
    requires 0 < k < |run|
  {
    StepsTo(cfg, run[k - 1], run[k])
  }

  lemma StepAt(cfg: Config, run: seq<State>, k: nat) returns (st: Step)
    requires IsRun(cfg, run) && 0 < k < |run|
    ensures Next(cfg, run[k - 1], st) == Some(run[k])
  {
    assert StepsAt(cfg, run, k);
    st :| Next(cfg, run[k - 1], st) == Some(run[k]);
  }

  ghost predicate StepsTo(cfg: Config, s: State, s': State) {
    exists st :: Next(cfg, s, st) == Some(s')
  }
}
