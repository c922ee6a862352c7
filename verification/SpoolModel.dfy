/** The durable request-log spool as a transition system.

    One step is one atomic action of one thread: a compare-exchange on a reservation, a rename,
    a directory sync, one removal, one database commit.  Any interleaving of steps is a run.

    One number stands for the row id of a record and for the stem of its marker and final file
    names.  A terminal reservation draws one fresh UUID for all three; an unreserved push draws two,
    one for the row and one for the file, which nothing else uses. */
module SpoolModel {
  import opened Common

  type Id = nat

  /** One encoded log record; `bytes` is its encoded length. */
  datatype Entry = Entry(id: Id, log: string, bytes: nat)

  /** An admission marker holds either the constant write probe or an encoded fallback record. */
  datatype Marker = Probe | Fallback(entry: Entry)

  datatype Dir = Dir(markers: map<Id, Marker>, finals: map<Id, Entry>)

  /** The six source states.  `ArmLost` is the arming state of an abandoned call, which nothing but
      the destructor leaves.  `Promoting` and `Stated` are the two points inside the destructor
      between which other threads can run: final file visible, and final file size read. */
  datatype Phase =
    | Unarmed
    | Arming(fallback: Entry)
    | ArmLost
    | Armed
    | Claimed(terminal: Entry)
    | Consumed
    | Canceling
    | Promoting(size: nat)
    | Stated(size: nat)

  /** `marker`: the marker path is still held.  `target`: the reservation has a stable id and final path
      (it has none when it backs an unreserved push). */
  datatype Reservation = Reservation(
    bytes: nat, phase: Phase, armedBytes: nat, marker: bool, target: bool, probed: bool)

  /** How far the write of a push has got: its file is renamed into place, and then synced. */
  datatype Stage = Writing | Renamed | Durable

  datatype Lock =
    | Free
    | PushHolds(owner: Id, stage: Stage)
    | FlushHolds(batch: seq<Entry>, committed: bool)

  /** File operations of abandoned calls: the caller's future is gone, the blocking task is not. */
  datatype Late = LateMarker(n: Id, e: Entry) | LateFinal(n: Id, e: Entry) | LateRemove(n: Id)

  datatype Mode = Down | Recovering | Up

  /** What has happened so far: `fallbacks` and `claims` are the records that arming and claiming
      named, `startup` is what the latest start found in the directory. */
  datatype History = History(
    armed: set<Id>,
    fallbacks: map<Id, Entry>,
    claims: map<Id, Entry>,
    cancelBegun: set<Id>,
    cancelled: set<Id>,
    pushed: map<Id, Entry>,
    settled: multiset<Id>,
    startup: nat)

  /** `disk` holds every directory a crash may leave: the directory after any prefix of the
      operations since the last successful directory sync. */
  datatype System = System(
    quota: nat,
    mode: Mode,
    dir: Dir,
    disk: set<Dir>,
    db: seq<Entry>,
    admitted: nat,
    rs: map<Id, Reservation>,
    lock: Lock,
    late: set<Late>,
    next: Id,
    hist: History)

  /** Result of a best-effort marker removal. */
  datatype Removal = Removed(synced: bool) | NotRemoved

  /** Process start, startup repair of the spool directory, crash, and a detached file operation. */
  datatype BootStep =
    | Start
    | RecoverOne(marker: Id)
    | RecoverDone
    | RecoverFail
    | Crash(survivor: Dir)
    | Land(op: Late)

  /** Reserving quota, publishing the write probe, and arming the fallback. */
  datatype AdmitStep =
    | ReserveTerminal(amount: nat)
    | ReservePush(amount: nat)
    | ProbeRename
    | ProbeDone
    | ProbeFail(removed: bool)
    | ArmBegin(e: Entry)
    | ArmRename
    | ArmDone
    | ArmFail
    | ArmAbandon

  datatype PushStep =
    | Claim(e: Entry)
    | PushLock
    | PushRename
    | PushFail
    | PushAbandon
    | PushSync
    | PushConsume(removal: Removal)

  datatype CancelStep = CancelBegin | CancelAbort | CancelRemove | CancelAbandon | CancelDone

  /** The destructor. */
  datatype DropStep =
    | DropConsumed
    | DropRelease(removal: Removal)
    | DropPromote(promoted: bool)
    | PromoteStat(found: bool)
    | PromoteAccount(synced: bool)

  /** `inserted` without `reported` is a commit whose outcome the flusher never learns. */
  datatype FlushStep =
    | FlushLoad(batch: seq<Entry>)
    | FlushCommit(inserted: bool, reported: bool)
    | FlushDelete(gone: bool)
    | FlushEnd

  /** A step of the reservation with id `n`, of the flusher, or of the process itself. */
  datatype Step =
    | Boot(boot: BootStep)
    | Admit(n: Id, admit: AdmitStep)
    | Push(n: Id, push: PushStep)
    | Cancel(n: Id, cancel: CancelStep)
    | Drop(n: Id, drop: DropStep)
    | Flush(flush: FlushStep)

  // ---------------------------------------------------------------------------
  // Database rows
  // ---------------------------------------------------------------------------

  predicate HasRow(db: seq<Entry>, id: Id) {
    exists i :: 0 <= i < |db| && db[i].id == id
  }

  /** INSERT ... ON CONFLICT(id) DO NOTHING */
  function InsertRow(db: seq<Entry>, e: Entry): seq<Entry> {
    if HasRow(db, e.id) then db else db + [e]
  }

  function InsertAll(db: seq<Entry>, batch: seq<Entry>): seq<Entry>
    decreases |batch|
  {
    if batch == [] then db else InsertAll(InsertRow(db, batch[0]), batch[1..])
  }

  ghost predicate OneRowPerId(db: seq<Entry>) {
    forall i, j :: 0 <= i < j < |db| ==> db[i].id != db[j].id
  }

  // ---------------------------------------------------------------------------
  // Directory operations
  // ---------------------------------------------------------------------------

  function PutMarker(d: Dir, n: Id, m: Marker): Dir { d.(markers := d.markers[n := m]) }

  function DropMarker(d: Dir, n: Id): Dir { d.(markers := d.markers - {n}) }

  function PutFinal(d: Dir, n: Id, e: Entry): Dir { d.(finals := d.finals[n := e]) }

  function DropFinal(d: Dir, n: Id): Dir { d.(finals := d.finals - {n}) }

  /** The atomic rename of a fallback marker to its final name. */
  function Promote(d: Dir, n: Id): Dir
    requires n in d.markers && d.markers[n].Fallback?
  {
    Dir(d.markers - {n}, d.finals[n := d.markers[n].entry])
  }

  /** What startup does with one admission marker. */
  function Repair(d: Dir, n: Id): Dir
    requires n in d.markers
  {
    if d.markers[n].Probe? || n in d.finals then DropMarker(d, n) else Promote(d, n)
  }

  function SizeUpTo(d: Dir, k: nat): nat {
    if k == 0 then 0
    else SizeUpTo(d, k - 1) + if k - 1 in d.finals then d.finals[k - 1].bytes else 0
  }

  /** The directory changes and the change is not yet durable. */
  function Touch(s: System, d: Dir): System { s.(dir := d, disk := s.disk + {d}) }

  function Synced(s: System): System { s.(disk := {s.dir}) }

  function SyncedIf(s: System, ok: bool): System { if ok then Synced(s) else s }

  // ---------------------------------------------------------------------------
  // Steps
  // ---------------------------------------------------------------------------

  function SetPhase(s: System, n: Id, p: Phase): System
    requires n in s.rs
  {
    s.(rs := s.rs[n := s.rs[n].(phase := p)])
  }

  /** Takes the marker path; the file goes only if the removal succeeds. */
  function RemoveMarker(s: System, n: Id, r: Removal): System
    requires n in s.rs
  {
    var s1 := s.(rs := s.rs[n := s.rs[n].(marker := false)]);
    if s.rs[n].marker && n in s.dir.markers && r.Removed? then
      SyncedIf(Touch(s1, DropMarker(s.dir, n)), r.synced)
    else s1
  }

  function Forget(s: System, n: Id): System { s.(rs := s.rs - {n}) }

  function Settle(s: System, n: Id): System { s.(hist := s.hist.(settled := s.hist.settled + multiset{n})) }

  // Process

  predicate BootEnabled(s: System, b: BootStep) {
    match b
    case Start => s.mode == Down
    case RecoverOne(n) => s.mode == Recovering && n in s.dir.markers
    case RecoverDone => s.mode == Recovering && s.dir.markers == map[]
    case RecoverFail => s.mode == Recovering
    case Crash(d) => s.mode != Down && d in s.disk
    case Land(op) => s.mode == Up && op in s.late
  }

  function BootApply(s: System, b: BootStep): System
    requires BootEnabled(s, b)
  {
    match b
    case Start => s.(mode := Recovering)
    case RecoverOne(n) => Touch(s, Repair(s.dir, n))
    case RecoverDone =>
      var found := SizeUpTo(s.dir, s.next);
      Synced(s).(mode := Up, admitted := SatAdd(0, found), hist := s.hist.(startup := found))
    case RecoverFail =>
      s.(mode := Up, admitted := 0, hist := s.hist.(startup := 0))
    case Crash(d) => s.(mode := Down, dir := d, disk := {d}, rs := map[], lock := Free, late := {}, admitted := 0)
    case Land(op) =>
      var d := match op
        case LateMarker(n, e) => PutMarker(s.dir, n, Fallback(e))
        case LateFinal(n, e) => PutFinal(s.dir, n, e)
        case LateRemove(n) => DropMarker(s.dir, n);
      Touch(s, d).(late := s.late - {op})
  }

  // Admission

  function Reserve(s: System, n: Id, amount: nat, phase: Phase, target: bool): System {
    s.(admitted := SatAdd(s.admitted, amount),
       rs := s.rs[n := Reservation(amount, phase, 0, target, target, false)],
       next := n + 1)
  }

  predicate CanReserve(s: System, n: Id, amount: nat) {
    s.mode == Up && n == s.next && 0 < amount <= s.quota && SatAdd(s.admitted, amount) <= s.quota
  }

  predicate AdmitEnabled(s: System, n: Id, a: AdmitStep) {
    match a
    case ReserveTerminal(amount) => CanReserve(s, n, amount)
    case ReservePush(amount) => CanReserve(s, n, amount)
    case ProbeRename => Unprobed(s, n)
    case ProbeDone => Unprobed(s, n) && n in s.dir.markers
    case ProbeFail(_) => Unprobed(s, n)
    case ArmBegin(e) =>
      && s.mode == Up && n in s.rs && s.rs[n].phase.Unarmed? && s.rs[n].probed && s.rs[n].marker
      && e.id == n && 0 < e.bytes <= s.rs[n].bytes
    case ArmRename => IsArming(s, n)
    case ArmDone => IsArming(s, n) && n in s.dir.markers && s.dir.markers[n] == Fallback(s.rs[n].phase.fallback)
    case ArmFail => IsArming(s, n)
    case ArmAbandon => IsArming(s, n)
  }

  predicate Unprobed(s: System, n: Id) {
    s.mode == Up && n in s.rs && s.rs[n].phase.Unarmed? && !s.rs[n].probed
  }

  predicate IsArming(s: System, n: Id) {
    s.mode == Up && n in s.rs && s.rs[n].phase.Arming?
  }

  function AdmitApply(s: System, n: Id, a: AdmitStep): System
    requires AdmitEnabled(s, n, a)
  {
    match a
    case ReserveTerminal(amount) => Reserve(s, n, amount, Unarmed, true)
    case ReservePush(amount) => Reserve(s, n, amount, Armed, false)
    case ProbeRename => Touch(s, PutMarker(s.dir, n, Probe))
    case ProbeDone => Synced(s).(rs := s.rs[n := s.rs[n].(probed := true)])
    case ProbeFail(removed) => if removed then Touch(s, DropMarker(s.dir, n)) else s
    case ArmBegin(e) => SetPhase(s, n, Arming(e))
    case ArmRename => Touch(s, PutMarker(s.dir, n, Fallback(s.rs[n].phase.fallback)))
    case ArmDone =>
      var r := s.rs[n].(phase := Armed, armedBytes := s.rs[n].phase.fallback.bytes);
      Synced(s).(rs := s.rs[n := r],
                 hist := s.hist.(armed := s.hist.armed + {n},
                                 fallbacks := s.hist.fallbacks[n := s.rs[n].phase.fallback]))
    case ArmFail => SetPhase(s, n, Unarmed)
    case ArmAbandon => SetPhase(s, n, ArmLost).(late := s.late + {LateMarker(n, s.rs[n].phase.fallback)})
  }

  // Terminal push

  predicate PushEnabled(s: System, n: Id, p: PushStep) {
    && s.mode == Up && n in s.rs
    && var r := s.rs[n];
       match p
       case Claim(e) => r.phase.Armed? && e.id == n && 0 < e.bytes <= r.bytes
       case PushLock => r.phase.Claimed? && s.lock == Free
       case PushRename => r.phase.Claimed? && s.lock == PushHolds(n, Writing)
       case PushFail => r.phase.Claimed? && (s.lock == PushHolds(n, Writing) || s.lock == PushHolds(n, Renamed))
       case PushAbandon => r.phase.Claimed? && (s.lock == PushHolds(n, Writing) || s.lock == PushHolds(n, Renamed))
       case PushSync =>
         && r.phase.Claimed? && s.lock == PushHolds(n, Renamed)
         && n in s.dir.finals && s.dir.finals[n] == r.phase.terminal
       case PushConsume(_) => r.phase.Claimed? && s.lock == PushHolds(n, Durable)
  }

  function PushApply(s: System, n: Id, p: PushStep): System
    requires PushEnabled(s, n, p)
  {
    match p
    case Claim(e) => SetPhase(s, n, Claimed(e)).(hist := s.hist.(claims := s.hist.claims[n := e]))
    case PushLock => s.(lock := PushHolds(n, Writing))
    case PushRename => Touch(s, PutFinal(s.dir, n, s.rs[n].phase.terminal)).(lock := PushHolds(n, Renamed))
    case PushFail => s.(lock := Free)
    case PushAbandon =>
      s.(lock := Free,
         late := if s.lock.stage.Writing? then s.late + {LateFinal(n, s.rs[n].phase.terminal)} else s.late)
    case PushSync =>
      Synced(s).(lock := PushHolds(n, Durable), hist := s.hist.(pushed := s.hist.pushed[n := s.rs[n].phase.terminal]))
    case PushConsume(removal) =>
      var r := s.rs[n];
      var s1 := SetPhase(RemoveMarker(s, n, removal), n, Consumed);
      Settle(s1.(lock := Free,
                 admitted := if r.bytes > r.phase.terminal.bytes
                             then WrapSub(s.admitted, r.bytes - r.phase.terminal.bytes) else s.admitted), n)
  }

  // Cancellation

  predicate CancelEnabled(s: System, n: Id, c: CancelStep) {
    && s.mode == Up && n in s.rs
    && match c
       case CancelBegin => s.rs[n].phase.Armed?
       case CancelAbort => s.rs[n].phase.Canceling? && !s.rs[n].marker
       case CancelRemove => s.rs[n].phase.Canceling? && s.rs[n].marker
       case CancelAbandon => s.rs[n].phase.Canceling? && s.rs[n].marker
       case CancelDone => s.rs[n].phase.Canceling? && s.rs[n].marker && n !in s.dir.markers
  }

  function CancelApply(s: System, n: Id, c: CancelStep): System
    requires CancelEnabled(s, n, c)
  {
    match c
    case CancelBegin => SetPhase(s, n, Canceling).(hist := s.hist.(cancelBegun := s.hist.cancelBegun + {n}))
    case CancelAbort => SetPhase(s, n, Armed)
    case CancelRemove => Touch(s, DropMarker(s.dir, n))
    case CancelAbandon => s.(late := s.late + {LateRemove(n)})
    case CancelDone =>
      var r := s.rs[n].(phase := Consumed, armedBytes := 0, marker := false);
      Settle(Synced(s).(rs := s.rs[n := r], admitted := WrapSub(s.admitted, r.bytes),
                        hist := s.hist.(cancelled := s.hist.cancelled + {n})), n)
  }

  // Destructor

  /** States in which no operation still holds a clone, apart from the plain `Unarmed` one. */
  predicate Droppable(s: System, n: Id)
    requires n in s.rs
  {
    var p := s.rs[n].phase;
    p.Armed? || p.Canceling? || (p.Claimed? && !(s.lock.PushHolds? && s.lock.owner == n))
  }

  /** The final file is visible already, or the held marker can be renamed to it. */
  predicate CanPromote(s: System, n: Id)
    requires n in s.rs
  {
    n in s.dir.finals || (s.rs[n].marker && n in s.dir.markers && s.dir.markers[n].Fallback?)
  }

  predicate DropEnabled(s: System, n: Id, d: DropStep) {
    && s.mode == Up && n in s.rs
    && var r := s.rs[n];
       match d
       case DropConsumed => r.phase.Consumed?
       case DropRelease(_) => r.phase.Unarmed? || r.phase.ArmLost? || (Droppable(s, n) && r.armedBytes == 0)
       case DropPromote(promoted) => Droppable(s, n) && r.armedBytes > 0 && (promoted ==> CanPromote(s, n))
       case PromoteStat(found) => r.phase.Promoting? && (found ==> n in s.dir.finals)
       case PromoteAccount(_) => r.phase.Stated?
  }

  function DropApply(s: System, n: Id, d: DropStep): System
    requires DropEnabled(s, n, d)
  {
    var r := s.rs[n];
    match d
    case DropConsumed => Forget(s, n)
    case DropRelease(removal) =>
      Settle(Forget(RemoveMarker(s, n, removal), n).(admitted := WrapSub(s.admitted, r.bytes)), n)
    case DropPromote(promoted) =>
      var visible := if n in s.dir.finals then s.dir.finals[n].bytes else 0;
      if !promoted then Forget(s, n)
      else if n in s.dir.finals then SetPhase(RemoveMarker(s, n, Removed(false)), n, Promoting(visible))
      else
        var r1 := r.(marker := false, phase := Promoting(s.dir.markers[n].entry.bytes));
        Touch(s, Promote(s.dir, n)).(rs := s.rs[n := r1])
    case PromoteStat(found) =>
      if found then SetPhase(s, n, Stated(s.dir.finals[n].bytes)) else Forget(s, n)
    case PromoteAccount(synced) =>
      var spare := SatSub(r.bytes, r.phase.size);
      if synced then Settle(Forget(Synced(s), n).(admitted := WrapSub(s.admitted, spare)), n)
      else Settle(Forget(s, n), n)
  }

  // Flusher

  predicate Loadable(d: Dir, batch: seq<Entry>) {
    && (forall i :: 0 <= i < |batch| ==> batch[i].id in d.finals && d.finals[batch[i].id] == batch[i])
    && (forall i, j :: 0 <= i < j < |batch| ==> batch[i].id != batch[j].id)
  }

  predicate FlushEnabled(s: System, f: FlushStep) {
    && s.mode == Up
    && match f
       case FlushLoad(batch) => s.lock == Free && batch != [] && Loadable(s.dir, batch)
       case FlushCommit(_, _) => s.lock.FlushHolds? && !s.lock.committed
       case FlushDelete(_) => s.lock.FlushHolds? && s.lock.committed && s.lock.batch != []
       case FlushEnd => s.lock.FlushHolds? && s.lock.committed && s.lock.batch == []
  }

  function FlushApply(s: System, f: FlushStep): System
    requires FlushEnabled(s, f)
  {
    match f
    case FlushLoad(batch) => s.(lock := FlushHolds(batch, false))
    case FlushCommit(inserted, reported) =>
      s.(db := if inserted then InsertAll(s.db, s.lock.batch) else s.db,
         lock := if inserted && reported then FlushHolds(s.lock.batch, true) else Free)
    case FlushDelete(gone) =>
      var e := s.lock.batch[0];
      var s1 := s.(lock := FlushHolds(s.lock.batch[1..], true));
      if gone then Touch(s1, DropFinal(s.dir, e.id)).(admitted := SatSub(s.admitted, e.bytes)) else s1
    case FlushEnd => s.(lock := Free)
  }

  // Runs

  predicate Enabled(s: System, a: Step) {
    match a
    case Boot(b) => BootEnabled(s, b)
    case Admit(n, b) => AdmitEnabled(s, n, b)
    case Push(n, b) => PushEnabled(s, n, b)
    case Cancel(n, b) => CancelEnabled(s, n, b)
    case Drop(n, b) => DropEnabled(s, n, b)
    case Flush(b) => FlushEnabled(s, b)
  }

  function Apply(s: System, a: Step): System
    requires Enabled(s, a)
  {
    match a
    case Boot(b) => BootApply(s, b)
    case Admit(n, b) => AdmitApply(s, n, b)
    case Push(n, b) => PushApply(s, n, b)
    case Cancel(n, b) => CancelApply(s, n, b)
    case Drop(n, b) => DropApply(s, n, b)
    case Flush(b) => FlushApply(s, b)
  }

  /** An installation before its first start. */
  ghost predicate Init(s: System) {
    && s.quota <= U64_MAX
    && s == System(s.quota, Down, Dir(map[], map[]), {Dir(map[], map[])}, [], 0, map[], Free, {}, 0,
                   History({}, map[], map[], {}, {}, map[], multiset{}, 0))
  }

  ghost predicate Next(s: System, t: System) {
    exists a :: Enabled(s, a) && t == Apply(s, a)
  }

  ghost predicate Linked(run: seq<System>, i: nat)
    requires i + 1 < |run|
  {
    Next(run[i], run[i + 1])
  }

  ghost predicate IsRun(run: seq<System>) {
    && |run| > 0
    && Init(run[0])
    && (forall i :: 0 <= i < |run| - 1 ==> Linked(run, i))
  }

  ghost predicate Took(run: seq<System>, i: nat, a: Step) {
    i + 1 < |run| && Enabled(run[i], a) && run[i + 1] == Apply(run[i], a)
  }

  ghost predicate Reachable(s: System) {
    exists run :: IsRun(run) && run[|run| - 1] == s
  }

  /** Each step is enabled where it is taken. */
  ghost predicate Runs(s: System, steps: seq<Step>)
    decreases |steps|
  {
    steps == [] || (Enabled(s, steps[0]) && Runs(Apply(s, steps[0]), steps[1..]))
  }

  ghost function After(s: System, steps: seq<Step>): System
    requires Runs(s, steps)
    decreases |steps|
  {
    if steps == [] then s else After(Apply(s, steps[0]), steps[1..])
  }
}
