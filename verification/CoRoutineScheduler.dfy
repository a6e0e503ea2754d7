/** The co-routine scheduler as it is written: a wrapping tick counter, delay lists that hold
    ticks, and lists updated in place.  Every method is tied to the steps of CoRoutineModel, and the
    scheduler's whole effect on sleeping co-routines is stated outright.

    Interrupts that fall inside a scheduler call are the subject of CoRoutineWakeups; here a call
    runs undisturbed.
 */
module CoRoutineScheduler {
  import opened Ticks
  import opened SortedLists
  import opened CoRoutineModel
  import opened CoRoutineInvariant

  // ---- What the loops compute ----

  ghost function TakeAllPending(m: Model): (r: Model)
    requires Inv(m, 0)
    ensures Inv(r, 0) && r.pending == [] && r.tick == m.tick
    decreases |m.pending|
  {
    if m.pending == [] then m
    else
      TakePendingKeeps(m, 0);
      TakeAllPending(TakePending(m))
  }

  ghost function ExpireAll(m: Model): (r: Model)
    requires Inv(m, 1)
    ensures Inv(r, 0) && r.tick == m.tick
    decreases |m.delayed|
  {
    if !HeadExpired(m) then
      NoneExpired(m);
      m
    else
      TimeOutKeeps(m);
      ExpireAll(TimeOut(m))
  }

  ghost function PassTicks(m: Model, n: nat): (r: Model)
    requires Inv(m, 0)
    ensures Inv(r, 0) && r.tick == m.tick + n
    decreases n
  {
    if n == 0 then m
    else
      CountTickKeeps(m);
      PassTicks(ExpireAll(CountTick(m)), n - 1)
  }

  lemma InvWf(m: Model, slack: nat)
    requires Inv(m, slack)
    ensures Wf(m)
  {
    hide Wf, ReadyOk, DelayedOk, EventsOk, TopBounds, TimesOk;
  }

  // One turn of each loop.
  lemma TakeTurn(m: Model)
    requires Inv(m, 0)
    ensures m.pending == [] ==> TakeAllPending(m) == m
    ensures m.pending != [] ==>
              && Wf(m) && m.pending[0].id in m.priority && Inv(TakePending(m), 0)
              && TakeAllPending(m) == TakeAllPending(TakePending(m))
  {
    hide ReadyOk, DelayedOk, EventsOk, TopBounds, TimesOk, WaitersDelayed, TakePending;
    if m.pending != [] {
      TakePendingKeeps(m, 0);
    }
  }

  lemma ExpireTurn(m: Model)
    requires Inv(m, 1)
    ensures !HeadExpired(m) ==> ExpireAll(m) == m && Inv(m, 0)
    ensures HeadExpired(m) ==>
              && Wf(m) && m.delayed[0].id in m.priority && Inv(TimeOut(m), 1)
              && ExpireAll(m) == ExpireAll(TimeOut(m))
  {
    hide ReadyOk, DelayedOk, EventsOk, TopBounds, TimesOk, WaitersDelayed, TimeOut;
    if HeadExpired(m) {
      TimeOutKeeps(m);
    } else {
      NoneExpired(m);
    }
  }

  lemma PassTurn(m: Model, n: nat)
    requires Inv(m, 0)
    ensures n == 0 ==> PassTicks(m, n) == m
    ensures 0 < n ==>
              && Wf(m) && Inv(CountTick(m), 1)
              && PassTicks(m, n) == PassTicks(ExpireAll(CountTick(m)), n - 1)
  {
    hide ReadyOk, DelayedOk, EventsOk, TopBounds, TimesOk, WaitersDelayed, CountTick;
    if 0 < n {
      CountTickKeeps(m);
    }
  }

  // ---- Which co-routines the loops wake ----

  // Exactly the co-routines whose event has occurred leave their delay list.
  lemma {:induction false} PendingWakes(m: Model, c: nat)
    requires Inv(m, 0) && c in m.place
    ensures c in TakeAllPending(m).place
    ensures TakeAllPending(m).place[c] ==
            if c in m.container && m.container[c] == PendingList && HasId(m.pending, c) then IsReady else m.place[c]
    decreases |m.pending|
  {
    hide Inv, TakePending, TakeAllPending;
    TakeTurn(m);
    if m.pending != [] {
      TakenEntries(m);
      PendingWakes(TakePending(m), c);
    }
  }

  lemma TakenEntries(m: Model)
    requires Inv(m, 0) && m.pending != []
    ensures m.pending[0].id in m.priority
    ensures var m1, head := TakePending(m), m.pending[0].id;
            && m1.pending == m.pending[1..]
            && m1.place == m.place[head := IsReady] && m1.container == m.container - {head}
            && head in m.container && m.container[head] == PendingList && HasId(m.pending, head)
            && forall c :: c != head ==> (HasId(m1.pending, c) <==> HasId(m.pending, c))
  {
    hide ReadyOk, DelayedOk, TimesOk, TopBounds;
    PendingKnown(m, 0);
    assert m.pending[0] in m.pending;
    assert m.pending == [m.pending[0]] + m.pending[1..];
  }

  // One tick iteration wakes exactly the co-routines whose tick it is.
  lemma {:induction false} ExpireWakes(m: Model, c: nat)
    requires Inv(m, 1) && c in m.place
    ensures c in ExpireAll(m).place
    ensures ExpireAll(m).place[c] == if m.place[c] == IsDelayed(m.tick) then IsReady else m.place[c]
    decreases |m.delayed|
  {
    hide Inv, TimeOut;
    if HeadExpired(m) {
      InvWf(m, 1);
      TimeOutKeeps(m);
      TimedOutHead(m);
      ExpireWakes(TimeOut(m), c);
    } else {
      NoneExpired(m);
      if m.place[c].IsDelayed? {
        NotYetDue(m, c);
      }
    }
  }

  lemma TimedOutHead(m: Model)
    requires Inv(m, 1) && HeadExpired(m)
    ensures m.delayed[0].id in m.priority
    ensures TimeOut(m).place == m.place[m.delayed[0].id := IsReady]
    ensures m.place[m.delayed[0].id] == IsDelayed(m.tick)
  {
    hide ReadyOk, EventsOk, TopBounds;
    HeadKnown(m, 1);
    assert m.delayed[0] in m.delayed;
  }

  lemma NotYetDue(m: Model, c: nat)
    requires Inv(m, 0) && c in m.place && m.place[c].IsDelayed?
    ensures m.tick < m.place[c].wake
  {
    hide ReadyOk, EventsOk, TopBounds;
    var w := m.place[c].wake;
    if Entry(c, w) in m.overflow {
      EarlierEpoch(m.tick, w);
    }
  }

  lemma CountedPlaces(m: Model)
    requires Wf(m)
    ensures CountTick(m).place == m.place
  {
  }

  // Over n ticks exactly the co-routines whose wake tick is among them become ready.
  lemma {:induction false} PassingWakes(m: Model, n: nat, c: nat)
    requires Inv(m, 0) && c in m.place
    ensures c in PassTicks(m, n).place
    ensures PassTicks(m, n).place[c] ==
            if m.place[c].IsDelayed? && m.place[c].wake <= m.tick + n then IsReady else m.place[c]
    decreases n
  {
    hide Inv;
    if m.place[c].IsDelayed? {
      NotYetDue(m, c);
    }
    if n != 0 {
      CountTickKeeps(m);
      CountedPlaces(m);
      ExpireWakes(CountTick(m), c);
      PassingWakes(ExpireAll(CountTick(m)), n - 1, c);
    }
  }

  // ---- Ticks and true times ----

  // The test for a wake time that has overflowed, and the insertion into the chosen list.
  lemma LinksByTick(m: Model, c: nat, ticks: nat)
    requires Wf(m) && TimesOk(m.delayed, m.overflow, m.tick, 0) && 0 < ticks < M
    ensures var e, wake := Entry(c, m.tick + ticks), Wrap(Tick(m.tick) + ticks);
            var r := LinkDelay(m, e);
            if wake < Tick(m.tick) then
              && r.delayed == m.delayed
              && TickList(r.overflow) == InsertSorted(TickList(m.overflow), Entry(c, wake))
            else
              && r.overflow == m.overflow
              && TickList(r.delayed) == InsertSorted(TickList(m.delayed), Entry(c, wake))
  {
    hide InsertSorted, Tick, Epoch, Wrap;
    var e := Entry(c, m.tick + ticks);
    TickOfSum(m.tick, ticks);
    Near(m.tick, m.tick + ticks);
    if Epoch(e.key) == Epoch(m.tick) {
      InsertByTick(m.delayed, e);
    } else {
      InsertByTick(m.overflow, e);
    }
  }

  lemma ExpiredByTick(m: Model, slack: nat)
    requires Inv(m, slack) && m.delayed != []
    ensures HeadExpired(m) <==> TickList(m.delayed)[0].key <= Tick(m.tick)
    ensures TickList(m.delayed)[0].id == m.delayed[0].id
    ensures TickList(m.delayed)[1..] == TickList(m.delayed[1..])
  {
    hide ReadyOk, DelayedOk, EventsOk, TopBounds;
    assert m.delayed[0] in m.delayed;
    SameEpochOrder(m.delayed[0].key, m.tick);
  }

  lemma CountByTick(t: nat)
    ensures Wrap(Tick(t) + 1) == Tick(t + 1)
  {
    TickOfSum(t, 1);
  }

  // ---- The parts of a state that each step changes ----

  predicate HasSlot(priority: map<nat, nat>, ready: seq<Ready>, c: nat) {
    c in priority && priority[c] < |ready| && ready[priority[c]].at <= |ready[priority[c]].items|
  }

  lemma TakenParts(m: Model)
    requires Wf(m) && m.pending != [] && m.pending[0].id in m.priority
    ensures HasSlot(m.priority, m.ready, m.pending[0].id)
    ensures var c, r := m.pending[0].id, TakePending(m);
            && r.tick == m.tick && r.priority == m.priority && r.container == m.container - {c}
            && r.ready == m.ready[m.priority[c] := Enqueue(m.ready[m.priority[c]], c)]
            && r.top == (if m.top < m.priority[c] then m.priority[c] else m.top)
            && r.pending == m.pending[1..] && r.events == m.events
            && TickList(r.delayed) == Without(TickList(m.delayed), c)
            && TickList(r.overflow) == Without(TickList(m.overflow), c)
  {
    hide Without, Enqueue, TickList;
    WithoutByTick(m.delayed, m.pending[0].id);
    WithoutByTick(m.overflow, m.pending[0].id);
  }

  predicate EventListKnown(m: Model, c: nat) {
    c in m.container && m.container[c].EventList? ==> m.container[c].v in m.events
  }

  lemma TimedOutParts(m: Model)
    requires Wf(m) && HeadExpired(m) && m.delayed[0].id in m.priority && EventListKnown(m, m.delayed[0].id)
    ensures HasSlot(m.priority, m.ready, m.delayed[0].id)
    ensures var c, r := m.delayed[0].id, TimeOut(m);
            && r.tick == m.tick && r.priority == m.priority && r.container == m.container - {c}
            && r.ready == m.ready[m.priority[c] := Enqueue(m.ready[m.priority[c]], c)]
            && r.top == (if m.top < m.priority[c] then m.priority[c] else m.top)
            && r.delayed == m.delayed[1..] && r.overflow == m.overflow
            && r.pending == (if c in m.container && m.container[c].PendingList?
                             then Without(m.pending, c) else m.pending)
            && r.events == (if c in m.container && m.container[c].EventList?
                            then m.events[m.container[c].v := Without(m.events[m.container[c].v], c)] else m.events)
  {
    hide Without, Enqueue;
    if m.delayed[0].id !in m.container {
      assert m.container - {m.delayed[0].id} == m.container;
    }
  }

  lemma HeadParts(m: Model)
    requires Inv(m, 1) && HeadExpired(m)
    ensures Wf(m) && m.delayed[0].id in m.priority && EventListKnown(m, m.delayed[0].id)
  {
    hide ReadyOk, DelayedOk, TopBounds, TimesOk;
    HeadKnown(m, 1);
  }

  lemma DelayFields(m: Model, c: nat, ticks: nat, event: Event)
    requires Wf(m) && ReadyAt(m, c) && (event.On? ==> event.v in m.events)
    ensures var (r, d) := (Delay(m, c, ticks, event), LinkDelay(Unready(m, c), Entry(c, m.tick + ticks)));
            var item := Entry(c, |m.ready| - m.priority[c]);
            && r.tick == m.tick && r.priority == m.priority && r.pending == m.pending && r.top == m.top
            && r.ready == m.ready[m.priority[c] := Dequeue(m.ready[m.priority[c]], c)]
            && r.delayed == d.delayed && r.overflow == d.overflow
            && Unready(m, c).delayed == m.delayed && Unready(m, c).overflow == m.overflow
            && Unready(m, c).tick == m.tick
            && r.events == (if event.On? then m.events[event.v := InsertSorted(m.events[event.v], item)] else m.events)
            && r.container == (if event.On? then m.container[c := EventList(event.v)] else m.container)
  {
    hide InsertSorted, Dequeue, Tick, Epoch;
  }

  lemma DelayedParts(m: Model, c: nat, ticks: nat, event: Event)
    requires Inv(m, 0) && ReadyAt(m, c) && 0 < ticks < M
    requires event.On? ==> event.v in m.events
    ensures HasSlot(m.priority, m.ready, c) && Wf(m) && c in m.ready[m.priority[c]].items
    ensures var r, wake := Delay(m, c, ticks, event), Wrap(Tick(m.tick) + ticks);
            var item := Entry(c, |m.ready| - m.priority[c]);
            && r.tick == m.tick && r.priority == m.priority && r.pending == m.pending && r.top == m.top
            && r.ready == m.ready[m.priority[c] := Dequeue(m.ready[m.priority[c]], c)]
            && r.events == (if event.On? then m.events[event.v := InsertSorted(m.events[event.v], item)] else m.events)
            && r.container == (if event.On? then m.container[c := EventList(event.v)] else m.container)
            && TickList(r.delayed) == (if wake < Tick(m.tick) then TickList(m.delayed)
                                       else InsertSorted(TickList(m.delayed), Entry(c, wake)))
            && TickList(r.overflow) == (if wake < Tick(m.tick) then InsertSorted(TickList(m.overflow), Entry(c, wake))
                                        else TickList(m.overflow))
  {
    hide ReadyOk, DelayedOk, EventsOk, TopBounds, TimesOk, WaitersDelayed, LinkDelay, Delay;
    hide InsertSorted, Dequeue, TickList, Tick, Epoch, Wrap;
    DelayFields(m, c, ticks, event);
    LinksByTick(Unready(m, c), c, ticks);
  }

  lemma CreatedParts(m: Model, c: nat, priority: nat)
    requires Wf(m) && c !in m.priority
    ensures var p := if |m.ready| <= priority then |m.ready| - 1 else priority;
            var (r, known) := (Create(m, c, priority), m.priority[c := p]);
            && 0 < |m.ready| && HasSlot(known, m.ready, c) && Wf(r)
            && r == m.(priority := known, place := m.place[c := IsReady],
                       ready := m.ready[p := Enqueue(m.ready[p], c)], top := if m.top < p then p else m.top)
  {
    hide Enqueue;
  }

  lemma CountedParts(m: Model)
    requires Wf(m)
    ensures var r := CountTick(m);
            && Wf(r) && Tick(r.tick) == Wrap(Tick(m.tick) + 1)
            && r == (if Wrap(Tick(m.tick) + 1) == 0
                     then m.(tick := m.tick + 1, delayed := m.overflow, overflow := m.delayed)
                     else m.(tick := m.tick + 1))
  {
    hide Tick, Wrap;
    CountByTick(m.tick);
  }

  lemma EventHead(m: Model, v: nat)
    requires Inv(m, 0) && v in m.events && m.events[v] != []
    ensures m.events[v][0].id in m.priority
  {
    hide ReadyOk, DelayedOk, TopBounds, TimesOk;
    assert m.events[v][0] in m.events[v];
  }

  // ---- The scheduler ----

  class Scheduler {
    var priority: map<nat, nat>
    var ready: seq<Ready>
    var top: nat
    var delayed: seq<Entry>
    var overflow: seq<Entry>
    var events: map<nat, seq<Entry>>
    var pending: seq<Entry>
    var container: map<nat, Container>
    var current: Choice
    var tickCount: nat
    var lastTickCount: nat
    var passedTicks: nat
    ghost var model: Model

    ghost predicate Mirrors()
      reads this
    {
      && Wf(model)
      && priority == model.priority && ready == model.ready && top == model.top
      && delayed == TickList(model.delayed) && overflow == TickList(model.overflow)
      && events == model.events && pending == model.pending && container == model.container
      && tickCount == Tick(model.tick)
    }

    ghost predicate Valid()
      reads this
    {
      Mirrors() && Inv(model, 0) && lastTickCount == tickCount
    }

    // prvInitialiseCoRoutineLists
    constructor (priorities: nat, eventLists: set<nat>)
      requires 0 < priorities
      ensures Valid() && model.priority == map[] && model.tick == 0
      ensures current == NoneReady && events.Keys == eventLists && |ready| == priorities
    {
      priority, ready, top := map[], seq(priorities, _ => Ready([], 0)), 0;
      delayed, overflow, pending := [], [], [];
      events := map v | v in eventLists :: [];
      container, current := map[], NoneReady;
      tickCount, lastTickCount, passedTicks := 0, 0, 0;
      model := Model(
        map[], seq(priorities, _ => Ready([], 0)), 0, [], [], map v | v in eventLists :: [], [], map[], map[], 0);
    }

    method AddToReadyQueue(c: nat)
      requires HasSlot(priority, ready, c)
      modifies `ready, `top
      ensures ready == old(ready)[priority[c] := Enqueue(old(ready)[priority[c]], c)]
      ensures top == if old(top) < priority[c] then priority[c] else old(top)
    {
      var p := priority[c];
      if top < p {
        top := p;
      }
      ready := ready[p := Enqueue(ready[p], c)];
    }

    method Create(c: nat, uxPriority: nat)
      requires Valid() && c !in priority
      modifies `priority, `ready, `top, `current, `model
      ensures Valid() && model == CoRoutineModel.Create(old(model), c, uxPriority)
      ensures ReadyAt(model, c) && current == if old(current).NoneReady? then Run(c) else old(current)
      ensures |ready| == |old(ready)|
      ensures priority == old(priority)[c := if uxPriority < |ready| then uxPriority else |ready| - 1]
    {
      hide Inv, Wf, Enqueue, TickList, Tick, CoRoutineModel.Create;
      CreatedParts(model, c, uxPriority);
      CreateKeeps(model, c, uxPriority);
      if current.NoneReady? {
        current := Run(c);
      }
      var p := uxPriority;
      if |ready| <= p {
        p := |ready| - 1;
      }
      priority := priority[c := p];
      AddToReadyQueue(c);
      model := CoRoutineModel.Create(model, c, uxPriority);
    }

    // The generic item goes into the list that its wake tick belongs to.
    method LinkDelayed(c: nat, timeToWake: nat)
      modifies `delayed, `overflow
      ensures delayed == if timeToWake < tickCount then old(delayed)
                         else InsertSorted(old(delayed), Entry(c, timeToWake))
      ensures overflow == if timeToWake < tickCount then InsertSorted(old(overflow), Entry(c, timeToWake))
                          else old(overflow)
    {
      if timeToWake < tickCount {
        overflow := InsertSorted(overflow, Entry(c, timeToWake));
      } else {
        delayed := InsertSorted(delayed, Entry(c, timeToWake));
      }
    }

    // The event item goes into the event list, if there is one.
    method LinkWaiter(item: Entry, event: Event)
      requires event.On? ==> event.v in events
      modifies `events, `container
      ensures events == if event.On? then old(events)[event.v := InsertSorted(old(events)[event.v], item)]
                        else old(events)
      ensures container == if event.On? then old(container)[item.id := EventList(event.v)] else old(container)
    {
      if event.On? {
        events := events[event.v := InsertSorted(events[event.v], item)];
        container := container[item.id := EventList(event.v)];
      }
    }

    method AddToDelayedList(ticksToDelay: nat, event: Event)
      requires Valid() && Wf(model) && current.Run? && ReadyAt(model, current.c) && 0 < ticksToDelay < M
      requires event.On? ==> event.v in model.events
      modifies `ready, `delayed, `overflow, `events, `container, `model
      ensures model == Delay(old(model), old(current.c), ticksToDelay, event)
      ensures Valid()
    {
      hide Inv, InsertSorted, Dequeue, TickList, Delay, Tick, Wrap, Wf, ReadyAt;
      var c := current.c;
      DelayedParts(model, c, ticksToDelay, event);
      DelayKeeps(model, c, ticksToDelay, event);
      var timeToWake := Wrap(tickCount + ticksToDelay);
      ready := ready[priority[c] := Dequeue(ready[priority[c]], c)];
      LinkDelayed(c, timeToWake);
      LinkWaiter(Entry(c, |ready| - priority[c]), event);
      model := Delay(model, c, ticksToDelay, event);
    }

    // The answer says whether the woken co-routine may run before the current one.
    method RemoveFromEventList(v: nat) returns (higher: bool)
      requires Valid() && v in events && events[v] != []
      requires current.Run? && current.c in priority
      modifies `events, `pending, `container, `model
      ensures var head := old(events)[v][0];
              && head.id in priority && (higher <==> priority[current.c] <= priority[head.id])
              && pending == old(pending) + [head] && events == old(events)[v := old(events)[v][1..]]
      ensures Valid() && model == EventOccurs(old(model), v)
    {
      hide Inv, TickList;
      InvWf(model, 0);
      EventOccursKeeps(model, v, 0);
      EventHead(model, v);
      var head := events[v][0];
      events := events[v := events[v][1..]];
      pending := pending + [head];
      container := container[head.id := PendingList];
      higher := priority[current.c] <= priority[head.id];
      model := EventOccurs(model, v);
    }

    method CheckPendingReadyList()
      requires Valid()
      modifies `pending, `container, `delayed, `overflow, `ready, `top, `model
      ensures Valid() && model == TakeAllPending(old(model))
    {
      hide Inv, Enqueue, Without, TickList, TakePending, TakeAllPending, Tick, Wf;
      while pending != []
        invariant Valid() && TakeAllPending(model) == TakeAllPending(old(model))
        decreases |pending|
      {
        TakeTurn(model);
        TakenParts(model);
        var c := pending[0].id;
        pending, container := pending[1..], container - {c};
        delayed, overflow := Without(delayed, c), Without(overflow, c);
        AddToReadyQueue(c);
        model := TakePending(model);
      }
      TakeTurn(model);
    }

    // The head of the delay list times out.
    method TimeOutHead()
      requires Mirrors() && Inv(model, 1) && HeadExpired(model)
      modifies `pending, `events, `container, `delayed, `ready, `top, `model
      ensures old(model).delayed[0].id in old(model).priority
      ensures Mirrors() && model == TimeOut(old(model)) && Inv(model, 1)
    {
      hide Inv, Enqueue, Without, TickList, TimeOut, Tick, Wf;
      ExpiredByTick(model, 1);
      HeadParts(model);
      TimedOutParts(model);
      TimeOutKeeps(model);
      var c := delayed[0].id;
      delayed := delayed[1..];
      if c in container {
        match container[c]
        case PendingList => pending := Without(pending, c);
        case EventList(v) => events := events[v := Without(events[v], c)];
      }
      container := container - {c};
      AddToReadyQueue(c);
      model := TimeOut(model);
    }

    // The inner loop of prvCheckDelayedList
    method ExpireHeads()
      requires Mirrors() && Inv(model, 1)
      modifies `pending, `events, `container, `delayed, `ready, `top, `model
      ensures Mirrors() && model == ExpireAll(old(model))
    {
      hide Inv, TimeOut, TickList, ExpireAll, Tick, Wf;
      while delayed != []
        invariant Mirrors() && Inv(model, 1) && ExpireAll(model) == ExpireAll(old(model))
        decreases |delayed|
      {
        ExpiredByTick(model, 1);
        if tickCount < delayed[0].key {
          break;
        }
        ExpireTurn(model);
        TimeOutHead();
      }
      ExpireTurn(model);
    }

    // now is xTaskGetTickCount(), the tick of the true time `trueNow`.
    method CheckDelayedList(now: nat, ghost trueNow: nat)
      requires Valid() && now == Tick(trueNow) && model.tick <= trueNow < model.tick + M
      modifies `pending, `events, `container, `delayed, `overflow
      modifies `ready, `top, `tickCount, `lastTickCount, `passedTicks, `model
      ensures Valid() && model == PassTicks(old(model), trueNow - old(model).tick) && tickCount == now
    {
      hide Inv, TickList, CountTick, ExpireAll, PassTicks, Tick, Wrap, Wf;
      Near(model.tick, trueNow);
      passedTicks := Wrap(now - lastTickCount);
      while passedTicks != 0
        invariant Mirrors() && Inv(model, 0)
        invariant passedTicks == trueNow - model.tick
        invariant PassTicks(model, passedTicks) == PassTicks(old(model), trueNow - old(model).tick)
      {
        PassTurn(model, passedTicks);
        CountOneTick();
        passedTicks := passedTicks - 1;
        ExpireHeads();
      }
      PassTurn(model, 0);
      lastTickCount := tickCount;
    }

    method CountOneTick()
      requires Mirrors() && Inv(model, 0)
      modifies `delayed, `overflow, `tickCount, `model
      ensures Wf(old(model)) && Mirrors() && model == CountTick(old(model)) && Inv(model, 1)
    {
      hide Inv, TickList, Wf, Tick, Wrap, CountTick;
      CountTickKeeps(model);
      CountedParts(model);
      tickCount := Wrap(tickCount + 1);
      if tickCount == 0 {
        delayed, overflow := overflow, delayed;
      }
      model := CountTick(model);
    }

    // vCoRoutineSchedule: `chosen` is the co-routine it calls, if any is ready.
    method Schedule(now: nat, ghost trueNow: nat) returns (chosen: Choice)
      requires Valid() && now == Tick(trueNow) && model.tick <= trueNow < model.tick + M
      modifies this
      ensures Valid() && tickCount == now
      ensures var m := PassTicks(TakeAllPending(old(model)), trueNow - old(model).tick);
              model == Select(m) && chosen == Chosen(m)
      ensures current == if chosen.Run? then chosen else old(current)
    {
      hide PassTicks, TakeAllPending, Inv, TickList, Select;
      CheckPendingReadyList();
      CheckDelayedList(now, trueNow);
      chosen := SelectNext();
    }

    lemma SlotsOk()
      requires Valid()
      ensures Wf(model) && top < |ready| && forall p :: 0 <= p < |ready| ==> ready[p].at <= |ready[p].items|
    {
      hide Inv;
      InvWf(model, 0);
    }

    // The end of vCoRoutineSchedule
    method SelectNext() returns (chosen: Choice)
      requires Valid()
      modifies `ready, `top, `current, `model
      ensures Valid() && Wf(old(model)) && model == Select(old(model)) && chosen == Chosen(old(model))
      ensures current == if chosen.Run? then chosen else old(current)
    {
      hide Inv, TickList, Tick, Wf, Advance;
      SlotsOk();
      SelectKeeps(model);
      model := Select(model);
      while ready[top].items == []
        invariant top < |ready| == |old(ready)| && LowerTop(ready, top) == LowerTop(ready, old(top))
        modifies `top
        decreases top
      {
        if top == 0 {
          return NoneReady;
        }
        top := top - 1;
      }
      ready := ready[top := Advance(ready[top])];
      current := Run(ready[top].items[ready[top].at - 1]);
      return current;
    }
  }

  // What one call of the scheduler does to a sleeping co-routine: it is ready afterwards exactly
  // if its event has occurred or its wake time has come; and the highest ready one is called.
  lemma ScheduleWakes(m: Model, n: nat, c: nat)
    requires Inv(m, 0) && c in m.place && m.place[c].IsDelayed?
    ensures var s := Select(PassTicks(TakeAllPending(m), n));
            c in s.place &&
            (s.place[c] == IsReady <==> HasId(m.pending, c) || m.place[c].wake <= m.tick + n)
    ensures var before := PassTicks(TakeAllPending(m), n);
            ReadyAt(before, c) ==>
              && Chosen(before).Run? && ReadyAt(before, Chosen(before).c)
              && before.priority[c] <= before.priority[Chosen(before).c]
  {
    hide ReadyOk, DelayedOk, TopBounds, TimesOk, Select, Chosen, PassTicks, TakeAllPending;
    PendingWakes(m, c);
    PassingWakes(TakeAllPending(m), n, c);
    var before := PassTicks(TakeAllPending(m), n);
    SelectedPlaces(before);
    if ReadyAt(before, c) {
      RunsTheHighest(before, c);
    }
  }

  lemma SelectedPlaces(m: Model)
    requires Wf(m)
    ensures Select(m).place == m.place
  {
  }
}
