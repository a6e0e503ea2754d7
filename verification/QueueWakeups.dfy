/** No wake-up is lost: the invariant of QueueProtocol over every run, and the two ways in which
    the code can break it (a queue reset, and a lock count that overflows).
 */
module QueueWakeups {
  import opened SortedLists
  import opened QueueProtocol

  // ---- Taking tasks off the front of a waiting list ----

  function IdSet(woken: seq<nat>): set<nat> {
    set t | t in woken
  }

  lemma {:induction false} CountIds(waiting: seq<Entry>, k: nat, known: set<nat>)
    requires k <= |waiting| && UniqueIds(waiting)
    requires forall e :: e in waiting ==> e.id !in known
    ensures |known + IdSet(Ids(waiting[..k]))| == |known| + k
  {
    if k == 0 {
      assert known + IdSet(Ids(waiting[..k])) == known;
    } else {
      CountIds(waiting, k - 1, known);
      OneMoreId(waiting, k, known);
    }
  }

  lemma OneMoreId(waiting: seq<Entry>, k: nat, known: set<nat>)
    requires 0 < k <= |waiting| && UniqueIds(waiting)
    requires forall e :: e in waiting ==> e.id !in known
    ensures |known + IdSet(Ids(waiting[..k]))| == |known + IdSet(Ids(waiting[..k - 1]))| + 1
  {
    var last, before := waiting[k - 1].id, Ids(waiting[..k - 1]);
    assert Ids(waiting[..k]) == before + [last];
    assert last !in known by {
      assert waiting[k - 1] in waiting;
    }
    assert last !in before;
    assert known + IdSet(before + [last]) == (known + IdSet(before)) + {last};
  }

  // What WithReceivers (WithSenders) does when the first k waiting tasks are woken.
  ghost predicate WakesReceivers(q: Queue, o: Outcome, k: nat) {
    && k <= |q.toReceive|
    && o.woken == Ids(q.toReceive[..k]) && o.q.toReceive == q.toReceive[k..]
    && o.q.toSend == q.toSend && o.q.length == q.length
  }

  ghost predicate WakesSenders(q: Queue, o: Outcome, k: nat) {
    && k <= |q.toSend|
    && o.woken == Ids(q.toSend[..k]) && o.q.toSend == q.toSend[k..]
    && o.q.toReceive == q.toReceive && o.q.length == q.length
  }

  // The woken tasks were in the list, and are not in what is left of it.
  lemma WokenIds(waiting: seq<Entry>, k: nat)
    requires k <= |waiting| && UniqueIds(waiting)
    ensures forall t :: t in Ids(waiting[..k]) ==> HasId(waiting, t)
    ensures forall e :: e in waiting[k..] ==> e in waiting && e.id !in Ids(waiting[..k])
    ensures UniqueIds(waiting[k..])
  {
    forall t | t in Ids(waiting[..k])
      ensures HasId(waiting, t)
    {
      var i :| 0 <= i < k && Ids(waiting[..k])[i] == t;
      assert waiting[i] in waiting;
    }
  }

  lemma ReceiversBooks(s: State, o: Outcome, k: nat)
    requires Books(s) && WakesReceivers(s.q, o, k)
    ensures Books(WithReceivers(s, o))
    ensures |WithReceivers(s, o).wokenR| == |s.wokenR| + k
  {
    CountIds(s.q.toReceive, k, s.wokenR);
    RoundUpReceivers(s, o, k);
  }

  lemma RoundUpReceivers(s: State, o: Outcome, k: nat)
    requires Books(s) && WakesReceivers(s.q, o, k)
    ensures Books(WithReceivers(s, o))
  {
    hide Ids, UniqueIds;
    WokenIds(s.q.toReceive, k);
  }

  lemma SendersBooks(s: State, o: Outcome, k: nat)
    requires Books(s) && WakesSenders(s.q, o, k)
    ensures Books(WithSenders(s, o))
    ensures |WithSenders(s, o).wokenS| == |s.wokenS| + k
  {
    CountIds(s.q.toSend, k, s.wokenS);
    RoundUpSenders(s, o, k);
  }

  lemma RoundUpSenders(s: State, o: Outcome, k: nat)
    requires Books(s) && WakesSenders(s.q, o, k)
    ensures Books(WithSenders(s, o))
  {
    hide Ids, UniqueIds;
    WokenIds(s.q.toSend, k);
  }

  // How many tasks the wake at the end of a critical section takes off.
  function One(waiting: seq<Entry>): nat {
    if waiting == [] then 0 else 1
  }

  lemma WakeReceiverIs(q: Queue)
    ensures WakesReceivers(q, WakeReceiver(q), One(q.toReceive))
  {
    if q.toReceive != [] {
      assert q.toReceive[..1] == [q.toReceive[0]];
    }
  }

  lemma WakeSenderIs(q: Queue)
    ensures WakesSenders(q, WakeSender(q), One(q.toSend))
  {
    if q.toSend != [] {
      assert q.toSend[..1] == [q.toSend[0]];
    }
  }

  // ---- Preservation, step by step ----

  lemma DropOne(tasks: set<nat>, t: nat)
    ensures |tasks| - 1 <= |tasks - {t}|
  {
    if t in tasks {
      assert tasks == (tasks - {t}) + {t};
    } else {
      assert tasks == tasks - {t};
    }
  }

  // The task has looked: it is no longer among the woken.
  lemma LookedBooks(s: State, t: nat, pc: Pc)
    requires Books(s) && t in s.pc && s.pc[t].Try?
    ensures var looked := SetPc(s.(wokenR := s.wokenR - {t}, wokenS := s.wokenS - {t}), t, pc);
            && Books(looked)
            && |s.wokenR| - 1 <= |looked.wokenR| && |s.wokenS| - 1 <= |looked.wokenS|
            && (s.pc[t].op == Send ==> looked.wokenR == s.wokenR)
            && (s.pc[t].op != Send ==> looked.wokenS == s.wokenS)
  {
    hide Books;
    LookedCloses(s, t, pc);
    LookedFor(s, t);
    DropOne(s.wokenR, t);
    DropOne(s.wokenS, t);
  }

  lemma LookedCloses(s: State, t: nat, pc: Pc)
    requires Books(s) && t in s.pc && s.pc[t].Try?
    ensures Books(SetPc(s.(wokenR := s.wokenR - {t}, wokenS := s.wokenS - {t}), t, pc))
  {
  }

  lemma LookedFor(s: State, t: nat)
    requires Books(s) && t in s.pc && s.pc[t].Try?
    ensures s.pc[t].op == Send ==> s.wokenR - {t} == s.wokenR
    ensures s.pc[t].op != Send ==> s.wokenS - {t} == s.wokenS
  {
  }

  lemma AttemptKeeps(s: State, t: nat, overwrite: bool, noWait: bool)
    requires Inv(s) && Enabled(s, Attempt(t, overwrite, noWait))
    ensures Inv(DoAttempt(s, t, overwrite, noWait))
  {
    var op := s.pc[t].op;
    if !Serves(s.q, op, overwrite) {
      LookedBooks(s, t, if noWait then Idle else Slow(op));
    } else {
      LookedBooks(s, t, Idle);
      ServeKeeps(s, t, overwrite, noWait);
    }
  }

  lemma ServeKeeps(s: State, t: nat, overwrite: bool, noWait: bool)
    requires Inv(s) && Enabled(s, Attempt(t, overwrite, noWait)) && Serves(s.q, s.pc[t].op, overwrite)
    ensures Inv(DoAttempt(s, t, overwrite, noWait))
  {
    var op := s.pc[t].op;
    var served := SetPc(s.(wokenR := s.wokenR - {t}, wokenS := s.wokenS - {t}), t, Idle);
    LookedBooks(s, t, Idle);
    var o := Serve(s.q, op, overwrite);
    match op
    case Send =>
      WakeReceiverIs(s.q.(count := CountAfterSend(s.q, overwrite)));
      ReceiversBooks(served, o, One(s.q.toReceive));
    case Receive =>
      WakeSenderIs(s.q.(count := s.q.count - 1));
      SendersBooks(served, o, One(s.q.toSend));
    case Peek =>
      WakeReceiverIs(s.q);
      ReceiversBooks(served, o, One(s.q.toReceive));
  }

  lemma PlaceKeeps(s: State, key: nat)
    requires Inv(s) && s.phase.MustWait?
    ensures Inv(DoPlace(s, s.phase.t, key))
  {
    var t := s.phase.t;
    var e := Entry(t, key);
    assert !HasId(s.q.toSend, t) && !HasId(s.q.toReceive, t);
    InsertKeepsUnique(s.q.toSend, e);
    InsertKeepsUnique(s.q.toReceive, e);
  }

  // Unlocking wakes one waiting receiver per item counted while locked, or all of them; each is
  // accounted for until it looks.
  lemma UnlockTxKeeps(s: State)
    requires Inv(s) && s.phase.Unlocking?
    ensures var (counted, waiting, o) := (Counted(s.q.txLock), s.q.toReceive, UnlockTx(s.q));
            && |o.woken| == (if counted < |waiting| then counted else |waiting|)
            && o.woken == Ids(waiting[..|o.woken|]) && o.q.toReceive == waiting[|o.woken|..]
            && |WithReceivers(s, o).wokenR| == |s.wokenR| + |o.woken|
    ensures Inv(WithReceivers(s, UnlockTx(s.q)).(phase := UnlockingRx(s.phase.t)))
  {
    ReceiversBooks(s, UnlockTx(s.q), Deferred(s.q.txLock, |s.q.toReceive|));
  }

  lemma UnlockRxKeeps(s: State)
    requires Inv(s) && s.phase.UnlockingRx?
    ensures var (counted, waiting, o) := (Counted(s.q.rxLock), s.q.toSend, UnlockRx(s.q));
            && |o.woken| == (if counted < |waiting| then counted else |waiting|)
            && o.woken == Ids(waiting[..|o.woken|]) && o.q.toSend == waiting[|o.woken|..]
            && |WithSenders(s, o).wokenS| == |s.wokenS| + |o.woken|
    ensures Inv(WithSenders(s, UnlockRx(s.q)).(phase := Resuming(s.phase.t)))
  {
    SendersBooks(s, UnlockRx(s.q), Deferred(s.q.rxLock, |s.q.toSend|));
  }

  lemma Int8Counts(lock: int)
    requires LOCKED_UNMODIFIED <= lock < 127
    ensures Int8(lock + 1) == lock + 1
  {
  }

  lemma InterruptSendKeeps(s: State, overwrite: bool)
    requires Inv(s) && Enabled(s, InterruptSend(overwrite))
    ensures Inv(WithReceivers(s, IsrSend(s.q, overwrite)))
  {
    if s.q.txLock == UNLOCKED {
      assert LocksMatchPhase(s) && !s.phase.MustWait?;
      WakeReceiverIs(s.q.(count := CountAfterSend(s.q, overwrite)));
      ReceiversBooks(s, IsrSend(s.q, overwrite), One(s.q.toReceive));
    } else {
      InterruptSendLocked(s, overwrite);
    }
  }

  lemma InterruptSendLocked(s: State, overwrite: bool)
    requires Inv(s) && Enabled(s, InterruptSend(overwrite)) && s.q.txLock != UNLOCKED
    ensures Inv(WithReceivers(s, IsrSend(s.q, overwrite)))
  {
    hide Int8, UniqueIds;
    Int8Counts(s.q.txLock);
    var after := WithReceivers(s, IsrSend(s.q, overwrite));
    assert after.pc == s.pc && after.wokenR == s.wokenR;
    assert after.q == s.q.(count := after.q.count, txLock := s.q.txLock + 1);
  }

  lemma InterruptReceiveKeeps(s: State)
    requires Inv(s) && Enabled(s, InterruptReceive)
    ensures Inv(WithSenders(s, IsrReceive(s.q)))
  {
    if s.q.rxLock == UNLOCKED {
      assert LocksMatchPhase(s) && !s.phase.MustWait?;
      WakeSenderIs(s.q.(count := s.q.count - 1));
      SendersBooks(s, IsrReceive(s.q), One(s.q.toSend));
    } else {
      InterruptReceiveLocked(s);
    }
  }

  lemma InterruptReceiveLocked(s: State)
    requires Inv(s) && Enabled(s, InterruptReceive) && s.q.rxLock != UNLOCKED
    ensures Inv(WithSenders(s, IsrReceive(s.q)))
  {
    hide Int8, UniqueIds;
    Int8Counts(s.q.rxLock);
    var after := WithSenders(s, IsrReceive(s.q));
    assert after.pc == s.pc && after.wokenS == s.wokenS;
    assert after.q == s.q.(count := s.q.count - 1, rxLock := s.q.rxLock + 1);
  }

  lemma TimeoutKeeps(s: State, t: nat)
    requires Inv(s) && Enabled(s, Timeout(t))
    ensures Inv(DoTimeout(s, t))
  {
    WithoutKeepsUnique(s.q.toSend, t);
    WithoutKeepsUnique(s.q.toReceive, t);
  }

  // Every step of a task, of the lock and unlock sequence, and of an interrupt keeps it.
  lemma StepKeeps(s: State, step: Step)
    requires Inv(s) && Enabled(s, step)
    ensures Inv(Apply(s, step))
  {
    hide Inv, WithReceivers, WithSenders, DoAttempt, DoPlace, DoTimeout, InsertSorted, Without;
    match step
    case Attempt(t, overwrite, noWait) => AttemptKeeps(s, t, overwrite, noWait);
    case Place(key) => PlaceKeeps(s, key);
    case UnlockFirst => UnlockTxKeeps(s);
    case UnlockSecond => UnlockRxKeeps(s);
    case InterruptSend(overwrite) => InterruptSendKeeps(s, overwrite);
    case InterruptReceive => InterruptReceiveKeeps(s);
    case Timeout(t) => TimeoutKeeps(s, t);
    case _ => InternalStepKeeps(s, step);
  }

  // The steps that wake nobody and put nobody on a list.
  lemma InternalStepKeeps(s: State, step: Step)
    requires Inv(s) && Enabled(s, step)
    requires step.Call? || step.Suspend? || step.LockQueue? || step.CheckTimeout? || step.CheckQueue? ||
             step.Resume? || step.LastCheck?
    ensures Inv(Apply(s, step))
  {
    hide UniqueIds, DoAttempt, DoPlace, DoTimeout;
  }

  // ---- Runs ----

  ghost predicate Feasible(s: State, run: seq<Step>)
    decreases |run|
  {
    run == [] || (HolderOk(s) && Enabled(s, run[0]) && Feasible(Apply(s, run[0]), run[1..]))
  }

  ghost function Exec(s: State, run: seq<Step>): State
    requires Feasible(s, run)
    decreases |run|
  {
    if run == [] then s else Exec(Apply(s, run[0]), run[1..])
  }

  // A new queue, with any number of tasks that do not use it yet.
  function Fresh(length: nat, tasks: set<nat>): State {
    State(Queue(length, 0, UNLOCKED, UNLOCKED, [], []), map t | t in tasks :: Idle, Running, {}, {})
  }

  lemma {:induction false} RunKeeps(s: State, run: seq<Step>)
    requires Inv(s) && Feasible(s, run)
    ensures Inv(Exec(s, run))
    decreases |run|
  {
    if run != [] {
      StepKeeps(s, run[0]);
      RunKeeps(Apply(s, run[0]), run[1..]);
    }
  }

  // In every reachable state no task waits for something that is there unclaimed.
  lemma NoLostWakeup(length: nat, tasks: set<nat>, run: seq<Step>)
    requires Feasible(Fresh(length, tasks), run)
    ensures var s := Exec(Fresh(length, tasks), run);
            && (s.q.toReceive != [] ==> s.q.count <= |s.wokenR| + Counted(s.q.txLock))
            && (s.q.toSend != [] ==> s.q.length - s.q.count <= |s.wokenS| + Counted(s.q.rxLock))
            && s.q.count <= s.q.length
  {
    RunKeeps(Fresh(length, tasks), run);
  }

  // In particular: once nobody holds the queue and all woken tasks have looked, a task waits to
  // receive only on an empty queue and to send only on a full one.
  lemma QuietMeansNothingMissed(s: State)
    requires Inv(s) && s.phase == Running && s.wokenR == {} && s.wokenS == {}
    ensures s.q.toReceive != [] ==> s.q.count == 0
    ensures s.q.toSend != [] ==> s.q.count == s.q.length
  {
  }

  // ---- Priorities ----

  ghost predicate InPriorityOrder(s: State) {
    Sorted(s.q.toSend) && Sorted(s.q.toReceive)
  }

  lemma StepKeepsPriorityOrder(s: State, step: Step)
    requires InPriorityOrder(s) && Enabled(s, step) && HolderOk(s)
    ensures InPriorityOrder(Apply(s, step))
  {
    hide InsertSorted, Without, Sorted, DoAttempt;
    match step
    case Place(key) =>
      InsertKeepsSorted(s.q.toSend, Entry(s.phase.t, key));
      InsertKeepsSorted(s.q.toReceive, Entry(s.phase.t, key));
    case Timeout(t) =>
      WithoutKeepsSorted(s.q.toSend, t);
      WithoutKeepsSorted(s.q.toReceive, t);
    case Attempt(t, overwrite, noWait) =>
      AttemptKeepsPriorityOrder(s, t, overwrite, noWait);
    case _ =>
      SuffixesSorted(s.q.toSend);
      SuffixesSorted(s.q.toReceive);
  }

  lemma SuffixesSorted(waiting: seq<Entry>)
    requires Sorted(waiting)
    ensures forall k :: 0 <= k <= |waiting| ==> Sorted(waiting[k..])
  {
  }

  lemma AttemptKeepsPriorityOrder(s: State, t: nat, overwrite: bool, noWait: bool)
    requires InPriorityOrder(s) && Enabled(s, Attempt(t, overwrite, noWait))
    ensures InPriorityOrder(DoAttempt(s, t, overwrite, noWait))
  {
    hide Sorted;
    SuffixesSorted(s.q.toSend);
    SuffixesSorted(s.q.toReceive);
  }

  // The tasks an unlock wakes are of no lower priority than those it leaves waiting.
  lemma UnlockWakesHighest(s: State, woken: Entry, left: Entry)
    requires InPriorityOrder(s)
    requires woken in s.q.toReceive[..Deferred(s.q.txLock, |s.q.toReceive|)]
    requires left in UnlockTx(s.q).q.toReceive
    ensures woken.key <= left.key
  {
    var k := Deferred(s.q.txLock, |s.q.toReceive|);
    var i :| 0 <= i < k && s.q.toReceive[i] == woken;
    var j :| 0 <= j < |s.q.toReceive| - k && s.q.toReceive[k..][j] == left;
    assert s.q.toReceive[k + j] == left;
  }

  // ---- Where wake-ups are lost ----

  function DoReset(s: State): State {
    WithSenders(s, Reset(s.q))
  }

  // xQueueGenericReset empties the queue but wakes one sender only: the rest of the invariant
  // survives, and the senders are served exactly when at most one was waiting or the tasks
  // woken account for every slot of the emptied queue.
  lemma ResetKeepsExactly(s: State)
    requires Inv(s) && s.phase == Running
    ensures Inv(DoReset(s)) <==> |s.q.toSend| <= 1 || s.q.length <= |s.wokenS| + 1
  {
    WakeSenderIs(s.q.(count := 0, txLock := UNLOCKED, rxLock := UNLOCKED));
    SendersBooks(s, Reset(s.q), One(s.q.toSend));
  }

  // When all woken senders have looked: exactly if at most one task waits to send, or there is
  // only one slot.
  lemma QuietResetKeepsExactly(s: State)
    requires Inv(s) && s.phase == Running && s.wokenS == {}
    ensures Inv(DoReset(s)) <==> |s.q.toSend| <= 1 || s.q.length <= 1
  {
    ResetKeepsExactly(s);
  }

  // Two tasks wait to send to a full queue of length 2; after a reset and the send of the task
  // it woke, the other still waits although there is room and nobody is left to wake it.
  lemma ResetLosesAWakeup()
    ensures var s := State(Queue(2, 2, UNLOCKED, UNLOCKED, [Entry(1, 0), Entry(2, 0)], []),
                           map[1 := Waiting(Send), 2 := Waiting(Send)], Running, {}, {});
            && Inv(s)
            && Enabled(DoReset(s), Attempt(1, false, false))
            && var t := DoAttempt(DoReset(s), 1, false, false);
               t.q.toSend == [Entry(2, 0)] && t.q.count < t.q.length && t.wokenS == {} && t.phase == Running
  {
  }

  // The lock count is a signed byte: the 128th interrupt operation on a locked queue makes it
  // negative, and the unlock then wakes nobody.  Counting stays right exactly below 127.
  lemma LockCountLimit(lock: int)
    requires LOCKED_UNMODIFIED <= lock <= 127
    ensures Counted(Int8(lock + 1)) == lock + 1 <==> lock < 127
  {
  }

  lemma LockOverflowLosesWakeups(q: Queue)
    requires q.txLock == 127 && HasRoom(q, false) && q.toReceive != []
    ensures var after := UnlockTx(IsrSend(q, false).q);
            after.woken == [] && after.q.toReceive == q.toReceive && after.q.count == q.count + 1
  {
  }
}
