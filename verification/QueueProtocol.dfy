/** Queues: the message count, the lock counts that defer wake-ups, and the two lists of waiting
    tasks, over all interleavings of tasks and interrupts.
 */
module QueueProtocol {
  import opened SortedLists

  // ---- The state a queue operation works on, and its critical sections ----

  const UNLOCKED: int := -1
  const LOCKED_UNMODIFIED: int := 0

  // The waiting tasks are in event-list order: an entry's key is the list item value, smaller for
  // higher priorities.
  datatype Queue = Queue(
    length: nat,
    count: nat,
    txLock: int,
    rxLock: int,
    toSend: seq<Entry>,
    toReceive: seq<Entry>)

  // The outcome of a critical section: the queue, and the tasks taken off a waiting list.
  datatype Outcome = Outcome(q: Queue, woken: seq<nat>)

  // The lock counts are signed bytes.
  function Int8(x: int): int {
    (x + 128) % 256 - 128
  }

  function Ids(s: seq<Entry>): (r: seq<nat>)
    ensures |r| == |s|
    ensures forall i :: 0 <= i < |s| ==> r[i] == s[i].id
  {
    seq(|s|, i requires 0 <= i < |s| => s[i].id)
  }

  function WakeReceiver(q: Queue): Outcome {
    if q.toReceive == [] then Outcome(q, [])
    else Outcome(q.(toReceive := q.toReceive[1..]), [q.toReceive[0].id])
  }

  function WakeSender(q: Queue): Outcome {
    if q.toSend == [] then Outcome(q, [])
    else Outcome(q.(toSend := q.toSend[1..]), [q.toSend[0].id])
  }

  predicate HasRoom(q: Queue, overwrite: bool) {
    q.count < q.length || overwrite
  }

  // The count after an item was copied in; overwriting an item does not change it.
  function CountAfterSend(q: Queue, overwrite: bool): nat {
    if overwrite && 0 < q.count then q.count else q.count + 1
  }

  function TaskSend(q: Queue, overwrite: bool): Outcome {
    WakeReceiver(q.(count := CountAfterSend(q, overwrite)))
  }

  function TaskReceive(q: Queue): Outcome
    requires 0 < q.count
  {
    WakeSender(q.(count := q.count - 1))
  }

  // The item stays, so another task waiting for it may be woken.
  function TaskPeek(q: Queue): Outcome {
    WakeReceiver(q)
  }

  // An interrupt finds the queue locked: it only counts.
  function IsrSend(q: Queue, overwrite: bool): Outcome {
    var q1 := q.(count := CountAfterSend(q, overwrite));
    if q.txLock == UNLOCKED then WakeReceiver(q1)
    else Outcome(q1.(txLock := Int8(q.txLock + 1)), [])
  }

  function IsrReceive(q: Queue): Outcome
    requires 0 < q.count
  {
    var q1 := q.(count := q.count - 1);
    if q.rxLock == UNLOCKED then WakeSender(q1)
    else Outcome(q1.(rxLock := Int8(q.rxLock + 1)), [])
  }

  function Lock(q: Queue): Queue {
    q.(rxLock := if q.rxLock == UNLOCKED then LOCKED_UNMODIFIED else q.rxLock,
       txLock := if q.txLock == UNLOCKED then LOCKED_UNMODIFIED else q.txLock)
  }

  function Deferred(lock: int, waiting: nat): nat {
    if lock <= LOCKED_UNMODIFIED then 0 else if lock < waiting then lock else waiting
  }

  // One receiver is woken for each item counted while the queue was locked.
  function UnlockTx(q: Queue): Outcome {
    var k := Deferred(q.txLock, |q.toReceive|);
    Outcome(q.(txLock := UNLOCKED, toReceive := q.toReceive[k..]), Ids(q.toReceive[..k]))
  }

  function UnlockRx(q: Queue): Outcome {
    var k := Deferred(q.rxLock, |q.toSend|);
    Outcome(q.(rxLock := UNLOCKED, toSend := q.toSend[k..]), Ids(q.toSend[..k]))
  }

  function Reset(q: Queue): Outcome {
    WakeSender(q.(count := 0, txLock := UNLOCKED, rxLock := UNLOCKED))
  }

  // ---- Tasks and interrupts around the queue ----

  datatype Op = Send | Receive | Peek

  datatype Pc =
    | Idle
    | Try(op: Op)       // about to enter the first critical section
    | Slow(op: Op)      // found no room or no item; about to suspend the scheduler
    | Waiting(op: Op)   // on a waiting list
    | Expired(op: Op)   // its time-out expired while the queue was locked

  // Where the task is that has suspended the scheduler; only interrupts run besides it.
  datatype Phase =
    | Running
    | Suspended(t: nat)
    | Locked(t: nat)
    | InTime(t: nat)
    | MustWait(t: nat)
    | Unlocking(t: nat)
    | UnlockingRx(t: nat)
    | Resuming(t: nat)

  // wokenR and wokenS: tasks taken off a waiting list by a queue event that have not looked at
  // the queue again since.
  datatype State = State(
    q: Queue,
    pc: map<nat, Pc>,
    phase: Phase,
    wokenR: set<nat>,
    wokenS: set<nat>)

  datatype Step =
    | Call(t: nat, op: Op)
    | Attempt(t: nat, overwrite: bool, noWait: bool)
    | Suspend(t: nat)
    | LockQueue
    | CheckTimeout(expired: bool)
    | CheckQueue
    | Place(priorityKey: nat)
    | UnlockFirst
    | UnlockSecond
    | Resume
    | LastCheck(t: nat)
    | InterruptSend(overwrite: bool)
    | InterruptReceive
    | Timeout(t: nat)

  predicate ReceiverOp(op: Op) {
    op != Send
  }

  predicate Serves(q: Queue, op: Op, overwrite: bool) {
    if op == Send then HasRoom(q, overwrite) else 0 < q.count
  }

  function Serve(q: Queue, op: Op, overwrite: bool): Outcome
    requires Serves(q, op, overwrite)
  {
    match op
    case Send => TaskSend(q, overwrite)
    case Receive => TaskReceive(q)
    case Peek => TaskPeek(q)
  }

  predicate MayOverwrite(q: Queue, op: Op, overwrite: bool) {
    overwrite ==> op == Send && q.length == 1
  }

  // Scheduling, and at most 127 interrupt operations while a queue is locked.
  predicate Enabled(s: State, step: Step) {
    match step
    case Call(t, op) => s.phase == Running && t in s.pc && s.pc[t] == Idle
    case Attempt(t, overwrite, noWait) =>
      s.phase == Running && t in s.pc && s.pc[t].Try? && MayOverwrite(s.q, s.pc[t].op, overwrite)
    case Suspend(t) => s.phase == Running && t in s.pc && s.pc[t].Slow?
    case LockQueue => s.phase.Suspended?
    case CheckTimeout(_) => s.phase.Locked?
    case CheckQueue => s.phase.InTime?
    case Place(_) => s.phase.MustWait?
    case UnlockFirst => s.phase.Unlocking?
    case UnlockSecond => s.phase.UnlockingRx?
    case Resume => s.phase.Resuming?
    case LastCheck(t) => s.phase == Running && t in s.pc && s.pc[t].Expired?
    case InterruptSend(overwrite) =>
      HasRoom(s.q, overwrite) && MayOverwrite(s.q, Send, overwrite) && s.q.txLock < 127
    case InterruptReceive => 0 < s.q.count && s.q.rxLock < 127
    case Timeout(t) => s.phase == Running && t in s.pc && s.pc[t].Waiting?
  }

  // Tasks taken off a waiting list will try again.
  function Rouse(pc: map<nat, Pc>, woken: seq<nat>): (r: map<nat, Pc>)
    ensures r.Keys == pc.Keys
  {
    map t | t in pc :: if t in woken && pc[t].Waiting? then Try(pc[t].op) else pc[t]
  }

  function WithReceivers(s: State, o: Outcome): State {
    s.(q := o.q, pc := Rouse(s.pc, o.woken), wokenR := s.wokenR + set t | t in o.woken)
  }

  function WithSenders(s: State, o: Outcome): State {
    s.(q := o.q, pc := Rouse(s.pc, o.woken), wokenS := s.wokenS + set t | t in o.woken)
  }

  function SetPc(s: State, t: nat, pc: Pc): State {
    s.(pc := s.pc[t := pc])
  }

  // The first critical section of send, receive, take and peek.
  function DoAttempt(s: State, t: nat, overwrite: bool, noWait: bool): State
    requires t in s.pc && s.pc[t].Try?
  {
    var op := s.pc[t].op;
    var looked := s.(wokenR := s.wokenR - {t}, wokenS := s.wokenS - {t});
    if Serves(s.q, op, overwrite) then
      var served := SetPc(looked, t, Idle);
      var o := Serve(s.q, op, overwrite);
      if op == Receive then WithSenders(served, o) else WithReceivers(served, o)
    else SetPc(looked, t, if noWait then Idle else Slow(op))
  }

  function DoPlace(s: State, t: nat, key: nat): State
    requires t in s.pc && s.pc[t].Slow?
  {
    var op, e := s.pc[t].op, Entry(t, key);
    var q := if op == Send then s.q.(toSend := InsertSorted(s.q.toSend, e))
             else s.q.(toReceive := InsertSorted(s.q.toReceive, e));
    SetPc(s, t, Waiting(op)).(q := q, phase := Unlocking(t))
  }

  function DoTimeout(s: State, t: nat): State
    requires t in s.pc && s.pc[t].Waiting?
  {
    SetPc(s, t, Try(s.pc[t].op)).(
      q := s.q.(toSend := Without(s.q.toSend, t), toReceive := Without(s.q.toReceive, t)))
  }

  // The task that has suspended the scheduler is in its slow path.
  predicate HolderOk(s: State) {
    match s.phase
    case Running => true
    case Suspended(t) => t in s.pc && s.pc[t].Slow?
    case Locked(t) => t in s.pc && s.pc[t].Slow?
    case InTime(t) => t in s.pc && s.pc[t].Slow?
    case MustWait(t) => t in s.pc && s.pc[t].Slow?
    case _ => true
  }

  function Apply(s: State, step: Step): State
    requires Enabled(s, step) && HolderOk(s)
  {
    match step
    case Call(t, op) => SetPc(s, t, Try(op))
    case Attempt(t, overwrite, noWait) => DoAttempt(s, t, overwrite, noWait)
    case Suspend(t) => s.(phase := Suspended(t))
    case LockQueue => s.(q := Lock(s.q), phase := Locked(s.phase.t))
    case CheckTimeout(expired) =>
      var t := s.phase.t;
      if expired then SetPc(s, t, Expired(s.pc[t].op)).(phase := Unlocking(t)) else s.(phase := InTime(t))
    case CheckQueue =>
      var t := s.phase.t;
      var op := s.pc[t].op;
      if (if op == Send then s.q.count == s.q.length else s.q.count == 0) then s.(phase := MustWait(t))
      else SetPc(s, t, Try(op)).(phase := Unlocking(t))
    case Place(key) => DoPlace(s, s.phase.t, key)
    case UnlockFirst => WithReceivers(s, UnlockTx(s.q)).(phase := UnlockingRx(s.phase.t))
    case UnlockSecond => WithSenders(s, UnlockRx(s.q)).(phase := Resuming(s.phase.t))
    case Resume => s.(phase := Running)
    case LastCheck(t) =>
      var op := s.pc[t].op;
      SetPc(s, t, if op == Send || s.q.count == 0 then Idle else Try(op))
    case InterruptSend(overwrite) => WithReceivers(s, IsrSend(s.q, overwrite))
    case InterruptReceive => WithSenders(s, IsrReceive(s.q))
    case Timeout(t) => DoTimeout(s, t)
  }

  // ---- The invariant ----

  // What is waiting is in a list, once; what was woken is about to try.
  ghost predicate Books(s: State) {
    && UniqueIds(s.q.toReceive) && UniqueIds(s.q.toSend)
    && (forall e :: e in s.q.toReceive ==> e.id in s.pc && s.pc[e.id].Waiting? && ReceiverOp(s.pc[e.id].op))
    && (forall e :: e in s.q.toSend ==> e.id in s.pc && s.pc[e.id] == Waiting(Send))
    && (forall t :: t in s.wokenR ==> t in s.pc && s.pc[t].Try? && ReceiverOp(s.pc[t].op))
    && (forall t :: t in s.wokenS ==> t in s.pc && s.pc[t] == Try(Send))
  }

  predicate LocksMatchPhase(s: State) {
    match s.phase
    case Running => s.q.txLock == UNLOCKED && s.q.rxLock == UNLOCKED
    case Suspended(_) => s.q.txLock == UNLOCKED && s.q.rxLock == UNLOCKED
    case UnlockingRx(_) => s.q.txLock == UNLOCKED && LOCKED_UNMODIFIED <= s.q.rxLock
    case Resuming(_) => s.q.txLock == UNLOCKED && s.q.rxLock == UNLOCKED
    case _ => LOCKED_UNMODIFIED <= s.q.txLock && LOCKED_UNMODIFIED <= s.q.rxLock
  }

  function Counted(lock: int): nat {
    if lock <= LOCKED_UNMODIFIED then 0 else lock
  }

  // No lost wake-up: as long as a task waits, every item (every free slot) is spoken for by a
  // task that was woken and has yet to look, or is counted for the unlock to deal with.
  predicate ReceiversServed(s: State) {
    s.q.toReceive != [] ==> s.q.count <= |s.wokenR| + Counted(s.q.txLock)
  }

  predicate SendersServed(s: State) {
    s.q.toSend != [] ==> s.q.length - s.q.count <= |s.wokenS| + Counted(s.q.rxLock)
  }

  // A task that has found the queue empty (full) but is not on the list yet misses nothing.
  predicate AboutToWait(s: State) {
    s.phase.MustWait? ==>
      && s.phase.t in s.pc && s.pc[s.phase.t].Slow?
      && if s.pc[s.phase.t].op == Send then s.q.length - s.q.count <= Counted(s.q.rxLock)
         else s.q.count <= Counted(s.q.txLock)
  }

  ghost predicate Inv(s: State) {
    && Books(s)
    && HolderOk(s)
    && LocksMatchPhase(s)
    && s.q.count <= s.q.length
    && ReceiversServed(s)
    && SendersServed(s)
    && AboutToWait(s)
  }
}
