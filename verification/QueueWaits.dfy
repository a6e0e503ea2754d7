/** Who waits on a queue and how that ends: a waiting task is on the list it belongs to, a wake-up
    takes tasks off the front, and a call is over exactly when it has been served or has given up.
 */
module QueueWaits {
  import opened SortedLists
  import opened QueueProtocol
  import W = QueueWakeups

  function ListFor(q: Queue, op: Op): seq<Entry> {
    if op == Send then q.toSend else q.toReceive
  }

  // A waiting task is on the list of its operation.
  ghost predicate Listed(s: State) {
    forall t :: t in s.pc && s.pc[t].Waiting? ==> HasId(ListFor(s.q, s.pc[t].op), t)
  }

  // ---- Waking ----

  // The first k entries left this list, and their tasks try again; no other task has moved.
  ghost predicate TakenOff(before: seq<Entry>, after: seq<Entry>, pc: map<nat, Pc>, pc': map<nat, Pc>, k: nat) {
    && k <= |before| && after == before[k..] && pc'.Keys == pc.Keys
    && (forall i :: 0 <= i < k ==> before[i].id in pc && pc[before[i].id].Waiting? &&
                                   pc'[before[i].id] == Try(pc[before[i].id].op))
    && (forall t :: t in pc && !HasId(before[..k], t) ==> pc'[t] == pc[t])
  }

  lemma WokenIsListed(waiting: seq<Entry>, k: nat, t: nat)
    requires k <= |waiting|
    ensures t in Ids(waiting[..k]) <==> HasId(waiting[..k], t)
  {
    if t in Ids(waiting[..k]) {
      var i :| 0 <= i < k && Ids(waiting[..k])[i] == t;
      assert waiting[..k][i] in waiting[..k];
    }
    if HasId(waiting[..k], t) {
      var e :| e in waiting[..k] && e.id == t;
      var i :| 0 <= i < k && waiting[..k][i] == e;
      assert Ids(waiting[..k])[i] == t;
    }
  }

  lemma ReceiversTaken(s: State, o: Outcome, k: nat)
    requires Books(s) && W.WakesReceivers(s.q, o, k)
    ensures var r := WithReceivers(s, o);
            TakenOff(s.q.toReceive, r.q.toReceive, s.pc, r.pc, k) && r.q.toSend == s.q.toSend
    ensures forall i :: 0 <= i < k ==> s.q.toReceive[i].id in WithReceivers(s, o).wokenR
  {
    hide UniqueIds, Ids;
    TakenAreRoused(s.q.toReceive, s.pc, o.woken, k);
  }

  lemma SendersTaken(s: State, o: Outcome, k: nat)
    requires Books(s) && W.WakesSenders(s.q, o, k)
    ensures var r := WithSenders(s, o);
            TakenOff(s.q.toSend, r.q.toSend, s.pc, r.pc, k) && r.q.toReceive == s.q.toReceive
    ensures forall i :: 0 <= i < k ==> s.q.toSend[i].id in WithSenders(s, o).wokenS
  {
    hide UniqueIds, Ids;
    TakenAreRoused(s.q.toSend, s.pc, o.woken, k);
  }

  lemma TakenAreRoused(waiting: seq<Entry>, pc: map<nat, Pc>, woken: seq<nat>, k: nat)
    requires k <= |waiting| && woken == Ids(waiting[..k])
    requires forall e :: e in waiting ==> e.id in pc && pc[e.id].Waiting?
    ensures TakenOff(waiting, waiting[k..], pc, Rouse(pc, woken), k)
    ensures forall i :: 0 <= i < k ==> waiting[i].id in woken
  {
    forall t
      ensures t in woken <==> HasId(waiting[..k], t)
    {
      WokenIsListed(waiting, k, t);
    }
    forall i | 0 <= i < k
      ensures waiting[i].id in woken && waiting[i] in waiting
    {
      assert Ids(waiting[..k])[i] == waiting[i].id;
    }
  }

  // ---- What each step does to the lists ----

  // The list has lost some entries at its front, whose tasks try again; the others still wait.
  ghost predicate FromTheFront(before: seq<Entry>, after: seq<Entry>, pc: map<nat, Pc>, pc': map<nat, Pc>) {
    && |after| <= |before| && after == before[|before| - |after|..]
    && (forall i :: 0 <= i < |before| - |after| ==>
          before[i].id in pc && before[i].id in pc' && pc[before[i].id].Waiting? &&
          pc'[before[i].id] == Try(pc[before[i].id].op))
    && (forall e :: e in after ==> e.id in pc && e.id in pc' && pc'[e.id] == pc[e.id])
  }

  ghost predicate OnlyWakes(s: State, s': State) {
    && FromTheFront(s.q.toReceive, s'.q.toReceive, s.pc, s'.pc)
    && FromTheFront(s.q.toSend, s'.q.toSend, s.pc, s'.pc)
    && (forall t :: t in s'.pc && s'.pc[t].Waiting? ==> t in s.pc && s.pc[t] == s'.pc[t])
  }

  lemma TakenFromFront(waiting: seq<Entry>, after: seq<Entry>, pc: map<nat, Pc>, pc': map<nat, Pc>, k: nat)
    requires TakenOff(waiting, after, pc, pc', k) && UniqueIds(waiting)
    requires forall e :: e in waiting ==> e.id in pc
    ensures FromTheFront(waiting, after, pc, pc')
  {
    forall e | e in after
      ensures e in waiting && !HasId(waiting[..k], e.id)
    {
      var j :| 0 <= j < |after| && after[j] == e;
      assert waiting[k + j] == e;
    }
  }

  lemma OthersFromFront(waiting: seq<Entry>, other: seq<Entry>, after: seq<Entry>, pc: map<nat, Pc>, pc': map<nat, Pc>,
                        k: nat)
    requires TakenOff(waiting, after, pc, pc', k)
    requires forall e :: e in other ==> e.id in pc && !HasId(waiting, e.id)
    ensures FromTheFront(other, other, pc, pc')
  {
    forall e | e in other
      ensures !HasId(waiting[..k], e.id)
    {
    }
  }

  // A step that leaves the lists and the waiting tasks alone.
  lemma NobodyWoken(s: State, s': State)
    requires Books(s) && s'.q.toSend == s.q.toSend && s'.q.toReceive == s.q.toReceive
    requires forall t :: t in s.pc && s.pc[t].Waiting? ==> t in s'.pc && s'.pc[t] == s.pc[t]
    requires forall t :: t in s'.pc && s'.pc[t].Waiting? ==> t in s.pc && s.pc[t].Waiting?
    ensures OnlyWakes(s, s')
  {
    hide UniqueIds;
  }

  // The lists hold different tasks.
  lemma ListsApart(s: State)
    requires Books(s)
    ensures forall e :: e in s.q.toSend ==> !HasId(s.q.toReceive, e.id)
    ensures forall e :: e in s.q.toReceive ==> !HasId(s.q.toSend, e.id)
    ensures UniqueIds(s.q.toReceive) && UniqueIds(s.q.toSend)
  {
    hide UniqueIds;
  }

  lemma WakingReceivers(s: State, o: Outcome, k: nat)
    requires Books(s) && W.WakesReceivers(s.q, o, k)
    ensures OnlyWakes(s, WithReceivers(s, o))
  {
    hide Ids, Rouse, UniqueIds;
    ReceiversTaken(s, o, k);
    ListsApart(s);
    var r := WithReceivers(s, o);
    TakenFromFront(s.q.toReceive, r.q.toReceive, s.pc, r.pc, k);
    OthersFromFront(s.q.toReceive, s.q.toSend, r.q.toReceive, s.pc, r.pc, k);
    StillWaiting(s.q.toReceive, r.q.toReceive, s.pc, r.pc, k);
  }

  lemma WakingSenders(s: State, o: Outcome, k: nat)
    requires Books(s) && W.WakesSenders(s.q, o, k)
    ensures OnlyWakes(s, WithSenders(s, o))
  {
    hide Ids, Rouse, UniqueIds;
    SendersTaken(s, o, k);
    ListsApart(s);
    var r := WithSenders(s, o);
    TakenFromFront(s.q.toSend, r.q.toSend, s.pc, r.pc, k);
    OthersFromFront(s.q.toSend, s.q.toReceive, r.q.toSend, s.pc, r.pc, k);
    StillWaiting(s.q.toSend, r.q.toSend, s.pc, r.pc, k);
  }

  lemma StillWaiting(waiting: seq<Entry>, after: seq<Entry>, pc: map<nat, Pc>, pc': map<nat, Pc>, k: nat)
    requires TakenOff(waiting, after, pc, pc', k)
    ensures forall t :: t in pc' && pc'[t].Waiting? ==> t in pc && pc[t] == pc'[t]
  {
    forall t | t in pc' && pc'[t].Waiting?
      ensures pc[t] == pc'[t]
    {
      InPrefix(waiting, k, t);
    }
  }

  lemma InPrefix(waiting: seq<Entry>, k: nat, t: nat)
    requires k <= |waiting|
    ensures HasId(waiting[..k], t) ==> exists i :: 0 <= i < k && waiting[i].id == t
  {
  }

  // A task leaves a waiting list at its front, and then tries again, or when its time expires; no
  // step but the placing puts one on.
  lemma WakesFromTheFront(s: State, step: Step)
    requires Inv(s) && Enabled(s, step) && !step.Place? && !step.Timeout?
    ensures OnlyWakes(s, Apply(s, step))
  {
    hide WithReceivers, WithSenders, OnlyWakes, Books, DoAttempt, Serve;
    assert Books(s) && HolderOk(s);
    match step
    case Attempt(t, overwrite, noWait) => AttemptWakes(s, t, overwrite, noWait);
    case UnlockFirst => UnlockTxWakes(s);
    case UnlockSecond => UnlockRxWakes(s);
    case InterruptSend(overwrite) => InterruptSendWakes(s, overwrite);
    case InterruptReceive => InterruptReceiveWakes(s);
    case Place(_) =>
    case Timeout(_) =>
    case _ => NobodyWoken(s, Apply(s, step));
  }

  lemma UnlockTxWakes(s: State)
    requires Books(s) && s.phase.Unlocking?
    ensures OnlyWakes(s, Apply(s, UnlockFirst))
  {
    WakingReceivers(s, UnlockTx(s.q), Deferred(s.q.txLock, |s.q.toReceive|));
  }

  lemma UnlockRxWakes(s: State)
    requires Books(s) && s.phase.UnlockingRx?
    ensures OnlyWakes(s, Apply(s, UnlockSecond))
  {
    WakingSenders(s, UnlockRx(s.q), Deferred(s.q.rxLock, |s.q.toSend|));
  }

  lemma InterruptSendWakes(s: State, overwrite: bool)
    requires Books(s)
    ensures OnlyWakes(s, WithReceivers(s, IsrSend(s.q, overwrite)))
  {
    hide Books;
    if s.q.txLock == UNLOCKED {
      W.WakeReceiverIs(s.q.(count := CountAfterSend(s.q, overwrite)));
      WakingReceivers(s, IsrSend(s.q, overwrite), W.One(s.q.toReceive));
    } else {
      assert s.q.toReceive[..0] == [];
      WakingReceivers(s, IsrSend(s.q, overwrite), 0);
    }
  }

  lemma InterruptReceiveWakes(s: State)
    requires Books(s) && 0 < s.q.count
    ensures OnlyWakes(s, WithSenders(s, IsrReceive(s.q)))
  {
    hide Books;
    if s.q.rxLock == UNLOCKED {
      W.WakeSenderIs(s.q.(count := s.q.count - 1));
      WakingSenders(s, IsrReceive(s.q), W.One(s.q.toSend));
    } else {
      assert s.q.toSend[..0] == [];
      WakingSenders(s, IsrReceive(s.q), 0);
    }
  }

  lemma AttemptWakes(s: State, t: nat, overwrite: bool, noWait: bool)
    requires Books(s) && t in s.pc && s.pc[t].Try?
    ensures OnlyWakes(s, DoAttempt(s, t, overwrite, noWait))
  {
    var op := s.pc[t].op;
    var looked := s.(wokenR := s.wokenR - {t}, wokenS := s.wokenS - {t});
    if !Serves(s.q, op, overwrite) {
      NobodyWoken(s, DoAttempt(s, t, overwrite, noWait));
    } else {
      var served := SetPc(looked, t, Idle);
      W.LookedBooks(s, t, Idle);
      ServeWakes(served, op, overwrite);
      AfterOwnStep(s, t, served, DoAttempt(s, t, overwrite, noWait));
    }
  }

  lemma ServeWakes(served: State, op: Op, overwrite: bool)
    requires Books(served) && Serves(served.q, op, overwrite)
    ensures var o := Serve(served.q, op, overwrite);
            OnlyWakes(served, if op == Receive then WithSenders(served, o) else WithReceivers(served, o))
  {
    hide Books, WithReceivers, WithSenders, OnlyWakes;
    var q, o := served.q, Serve(served.q, op, overwrite);
    match op
    case Send =>
      W.WakeReceiverIs(q.(count := CountAfterSend(q, overwrite)));
      WakingReceivers(served, o, W.One(q.toReceive));
    case Receive =>
      W.WakeSenderIs(q.(count := q.count - 1));
      WakingSenders(served, o, W.One(q.toSend));
    case Peek =>
      W.WakeReceiverIs(q);
      WakingReceivers(served, o, W.One(q.toReceive));
  }

  // The task that looks is on no list itself.
  lemma AfterOwnStep(s: State, t: nat, served: State, s': State)
    requires Books(s) && t in s.pc && s.pc[t].Try? && served.pc == s.pc[t := Idle]
    requires served.q.toSend == s.q.toSend && served.q.toReceive == s.q.toReceive && OnlyWakes(served, s')
    ensures OnlyWakes(s, s')
  {
    hide UniqueIds;
  }

  // ---- A waiting task is listed ----

  lemma ListedStays(s: State, s': State)
    requires Listed(s) && OnlyWakes(s, s')
    ensures Listed(s')
  {
    forall t | t in s'.pc && s'.pc[t].Waiting?
      ensures HasId(ListFor(s'.q, s'.pc[t].op), t)
    {
      var before, after := ListFor(s.q, s.pc[t].op), ListFor(s'.q, s.pc[t].op);
      var e :| e in before && e.id == t;
      var i :| 0 <= i < |before| && before[i] == e;
      assert i >= |before| - |after|;
      assert after[i - (|before| - |after|)] == e;
    }
  }

  lemma StepKeepsListed(s: State, step: Step)
    requires Inv(s) && Enabled(s, step) && Listed(s)
    ensures Listed(Apply(s, step))
  {
    hide OnlyWakes, Books, Listed, ReceiversServed, SendersServed;
    if step.Place? {
      PlaceLists(s, step.priorityKey);
    } else if step.Timeout? {
      TimeoutLists(s, step.t);
    } else {
      WakesFromTheFront(s, step);
      ListedStays(s, Apply(s, step));
    }
  }

  lemma PlaceLists(s: State, key: nat)
    requires HolderOk(s) && s.phase.MustWait? && Listed(s)
    ensures Listed(DoPlace(s, s.phase.t, key))
  {
    hide InsertSorted;
    var s', t := DoPlace(s, s.phase.t, key), s.phase.t;
    forall u | u in s'.pc && s'.pc[u].Waiting?
      ensures HasId(ListFor(s'.q, s'.pc[u].op), u)
    {
      if u == t {
        assert Entry(t, key) in ListFor(s'.q, s'.pc[u].op);
      } else {
        var e :| e in ListFor(s.q, s.pc[u].op) && e.id == u;
        assert e in ListFor(s'.q, s.pc[u].op);
      }
    }
  }

  lemma TimeoutLists(s: State, t: nat)
    requires t in s.pc && s.pc[t].Waiting? && Listed(s)
    ensures Listed(DoTimeout(s, t))
  {
    hide Without;
    var s' := DoTimeout(s, t);
    forall u | u in s'.pc && s'.pc[u].Waiting?
      ensures HasId(ListFor(s'.q, s'.pc[u].op), u)
    {
      var e :| e in ListFor(s.q, s.pc[u].op) && e.id == u;
      assert e in ListFor(s'.q, s.pc[u].op);
    }
  }

  lemma {:induction false} RunKeepsListed(s: State, run: seq<Step>)
    requires Inv(s) && W.Feasible(s, run) && Listed(s)
    ensures Listed(W.Exec(s, run))
    decreases |run|
  {
    hide Inv, Listed, Enabled, Apply;
    if run != [] {
      W.StepKeeps(s, run[0]);
      StepKeepsListed(s, run[0]);
      RunKeepsListed(Apply(s, run[0]), run[1..]);
    }
  }

  // Over every run from a new queue: a task waits exactly if it is on a waiting list, and then on
  // that of its operation and once.
  lemma WaitersAreListed(length: nat, tasks: set<nat>, run: seq<Step>, t: nat)
    requires W.Feasible(W.Fresh(length, tasks), run) && t in W.Exec(W.Fresh(length, tasks), run).pc
    ensures var s := W.Exec(W.Fresh(length, tasks), run);
            && (s.pc[t].Waiting? <==> HasId(s.q.toSend, t) || HasId(s.q.toReceive, t))
            && (s.pc[t].Waiting? ==> HasId(ListFor(s.q, s.pc[t].op), t))
            && UniqueIds(s.q.toSend) && UniqueIds(s.q.toReceive)
            && (forall e :: e in s.q.toSend ==> !HasId(s.q.toReceive, e.id))
  {
    hide W.Exec, W.Feasible, UniqueIds;
    var begin := W.Fresh(length, tasks);
    FreshOk(length, tasks);
    W.RunKeeps(begin, run);
    RunKeepsListed(begin, run);
    var s := W.Exec(begin, run);
    ListsApart(s);
  }

  lemma FreshOk(length: nat, tasks: set<nat>)
    ensures Inv(W.Fresh(length, tasks)) && Listed(W.Fresh(length, tasks))
  {
  }

  // The tasks that a step wakes have no lower priority than any that it leaves waiting.
  lemma WakesHighest(s: State, step: Step, woken: Entry, left: Entry)
    requires Inv(s) && Enabled(s, step) && W.InPriorityOrder(s) && !step.Place? && !step.Timeout?
    ensures var q := Apply(s, step).q;
            && (woken in s.q.toReceive && woken !in q.toReceive && left in q.toReceive ==> woken.key <= left.key)
            && (woken in s.q.toSend && woken !in q.toSend && left in q.toSend ==> woken.key <= left.key)
  {
    hide Apply, Books, UniqueIds;
    WakesFromTheFront(s, step);
    var q := Apply(s, step).q;
    FrontIsHighest(s.q.toReceive, q.toReceive, woken, left);
    FrontIsHighest(s.q.toSend, q.toSend, woken, left);
  }

  lemma FrontIsHighest(before: seq<Entry>, after: seq<Entry>, woken: Entry, left: Entry)
    requires Sorted(before) && |after| <= |before| && after == before[|before| - |after|..]
    ensures woken in before && woken !in after && left in after ==> woken.key <= left.key
  {
    var k := |before| - |after|;
    forall i | k <= i < |before|
      ensures before[i] in after
    {
      assert after[i - k] == before[i];
    }
    if woken in before && woken !in after && left in after {
      var i :| 0 <= i < |before| && before[i] == woken;
      var j :| 0 <= j < |after| && after[j] == left;
      assert before[k + j] == left;
    }
  }

  // ---- How a call ends ----

  // The call of t is over with this step because it was served: an item was sent, taken or looked at.
  predicate IsServed(s: State, step: Step, t: nat) {
    match step
    case Attempt(u, overwrite, _) => u == t && t in s.pc && s.pc[t].Try? && Serves(s.q, s.pc[t].op, overwrite)
    case _ => false
  }

  // It is over because it gave up: with no block time, or when its time has expired, and then a
  // receive only if the queue is empty at that moment.
  predicate GivesUp(s: State, step: Step, t: nat) {
    match step
    case Attempt(u, overwrite, noWait) =>
      u == t && noWait && t in s.pc && s.pc[t].Try? && !Serves(s.q, s.pc[t].op, overwrite)
    case LastCheck(u) => u == t && t in s.pc && s.pc[t].Expired? && (s.pc[t].op == Send || s.q.count == 0)
    case _ => false
  }

  // A call ends exactly when it is served or gives up.  One that gives up has changed nothing in the
  // queue; one that is served counted its item, and had room for it or found it.
  lemma CallEnds(s: State, step: Step, t: nat)
    requires Inv(s) && Enabled(s, step) && t in s.pc && s.pc[t] != Idle
    ensures var s' := Apply(s, step);
            && t in s'.pc && (s'.pc[t] == Idle <==> IsServed(s, step, t) || GivesUp(s, step, t))
            && (GivesUp(s, step, t) ==> s'.q == s.q)
            && (IsServed(s, step, t) && step.overwrite ==> s.q.length == 1 && s'.q.count == 1)
            && (IsServed(s, step, t) && !step.overwrite ==>
                  match s.pc[t].op
                  case Send => s.q.count < s.q.length && s'.q.count == s.q.count + 1
                  case Receive => 0 < s.q.count && s'.q.count == s.q.count - 1
                  case Peek => 0 < s.q.count && s'.q.count == s.q.count)
  {
    hide UniqueIds, Ids, InsertSorted, Without, Deferred, Int8, Books, DoAttempt;
    if step.Attempt? {
      AttemptEnds(s, step.t, step.overwrite, step.noWait, t);
    }
  }

  lemma AttemptEnds(s: State, u: nat, overwrite: bool, noWait: bool, t: nat)
    requires Enabled(s, Attempt(u, overwrite, noWait)) && t in s.pc && s.pc[t] != Idle && s.q.count <= s.q.length
    ensures var (s', step) := (DoAttempt(s, u, overwrite, noWait), Attempt(u, overwrite, noWait));
            && t in s'.pc && (s'.pc[t] == Idle <==> IsServed(s, step, t) || GivesUp(s, step, t))
            && (GivesUp(s, step, t) ==> s'.q == s.q)
            && (IsServed(s, step, t) && overwrite ==> s.q.length == 1 && s'.q.count == 1)
            && (IsServed(s, step, t) && !overwrite ==>
                  match s.pc[t].op
                  case Send => s.q.count < s.q.length && s'.q.count == s.q.count + 1
                  case Receive => 0 < s.q.count && s'.q.count == s.q.count - 1
                  case Peek => 0 < s.q.count && s'.q.count == s.q.count)
  {
    hide Ids;
  }

  // What a call that is not over does next: it enters the slow path if it may wait, waits exactly if
  // its time has not expired and the queue is (still) full, or empty, and otherwise tries again.
  lemma CallGoesOn(s: State, step: Step)
    requires Inv(s) && Enabled(s, step)
    ensures var s' := Apply(s, step);
            match step
            case Call(t, op) => s'.pc == s.pc[t := Try(op)]
            case Attempt(t, overwrite, noWait) =>
              !noWait && !Serves(s.q, s.pc[t].op, overwrite) ==> s'.pc == s.pc[t := Slow(s.pc[t].op)] && s'.q == s.q
            case CheckTimeout(expired) =>
              s.phase.t in s.pc && s.pc[s.phase.t].Slow? &&
              if expired then s'.pc == s.pc[s.phase.t := Expired(s.pc[s.phase.t].op)] && s'.phase.Unlocking?
              else s'.pc == s.pc && s'.phase == InTime(s.phase.t)
            case CheckQueue =>
              s.phase.t in s.pc && s.pc[s.phase.t].Slow? &&
              var op := s.pc[s.phase.t].op;
              if s.q.count == (if op == Send then s.q.length else 0)
              then s'.pc == s.pc && s'.phase == MustWait(s.phase.t)
              else s'.pc == s.pc[s.phase.t := Try(op)] && s'.phase.Unlocking?
            case Place(key) =>
              s.phase.t in s.pc && s.pc[s.phase.t].Slow? &&
              var op, e := s.pc[s.phase.t].op, Entry(s.phase.t, key);
              && s'.pc == s.pc[s.phase.t := Waiting(op)] && s'.phase.Unlocking?
              && s'.q.toSend == (if op == Send then InsertSorted(s.q.toSend, e) else s.q.toSend)
              && s'.q.toReceive == if op == Send then s.q.toReceive else InsertSorted(s.q.toReceive, e)
            case Timeout(t) =>
              && s'.pc == s.pc[t := Try(s.pc[t].op)] && !HasId(s'.q.toSend, t) && !HasId(s'.q.toReceive, t)
              && (forall e: Entry :: e.id != t ==> (e in s'.q.toSend <==> e in s.q.toSend))
              && (forall e: Entry :: e.id != t ==> (e in s'.q.toReceive <==> e in s.q.toReceive))
            case LastCheck(t) =>
              s.pc[t].op != Send && 0 < s.q.count ==> s'.pc == s.pc[t := Try(s.pc[t].op)] && s'.q == s.q
            case _ => true
  {
    hide UniqueIds, Ids, InsertSorted, Without, Deferred, Int8, Books;
  }
}
