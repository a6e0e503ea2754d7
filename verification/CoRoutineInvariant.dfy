/** What every step of the co-routine scheduler and of an interrupt keeps, and when exactly a
    delayed co-routine becomes ready.
 */
module CoRoutineInvariant {
  import opened Ticks
  import opened SortedLists
  import opened CoRoutineModel

  // ---- The invariant ----

  // The ready lists hold exactly the co-routines whose place is ready, each in the list of its
  // priority, once.
  ghost predicate ReadyOk(priority: map<nat, nat>, place: map<nat, Place>, ready: seq<Ready>) {
    && (forall p, c :: 0 <= p < |ready| && c in ready[p].items ==>
          c in priority && priority[c] == p && c in place && place[c] == IsReady)
    && (forall c :: c in priority && c in place && place[c] == IsReady && priority[c] < |ready| ==>
          c in ready[priority[c]].items)
    && (forall p :: 0 <= p < |ready| ==> Distinct(ready[p].items))
  }

  // The delay lists hold exactly the delayed co-routines, with their wake times, once.
  ghost predicate DelayedOk(place: map<nat, Place>, delayed: seq<Entry>, overflow: seq<Entry>) {
    && (forall e :: e in delayed ==> e.id in place && place[e.id] == IsDelayed(e.key))
    && (forall e :: e in overflow ==> e.id in place && place[e.id] == IsDelayed(e.key))
    && (forall c :: c in place && place[c].IsDelayed? ==>
          Entry(c, place[c].wake) in delayed || Entry(c, place[c].wake) in overflow)
    && UniqueIds(delayed) && UniqueIds(overflow)
  }

  // Nothing is ready above the top priority.
  predicate TopBounds(ready: seq<Ready>, top: nat) {
    forall p :: top < p < |ready| ==> ready[p].items == []
  }

  // The event items in a list are exactly those whose container field names it, once each.
  ghost predicate EventsOk(events: map<nat, seq<Entry>>, pending: seq<Entry>, container: map<nat, Container>) {
    && UniqueIds(pending)
    && (forall v :: v in events ==> UniqueIds(events[v]))
    && (forall e :: e in pending ==> e.id in container && container[e.id] == PendingList)
    && (forall v, e :: v in events && e in events[v] ==> e.id in container && container[e.id] == EventList(v))
    && (forall c :: c in container && container[c].EventList? ==>
          container[c].v in events && HasId(events[container[c].v], c))
    && (forall c :: c in container && container[c] == PendingList ==> HasId(pending, c))
  }

  // A co-routine whose event item is in a list is delayed.
  ghost predicate WaitersDelayed(place: map<nat, Place>, container: map<nat, Container>) {
    forall c :: c in container ==> c in place && place[c].IsDelayed?
  }

  // Both delay lists are sorted, and all wake times lie ahead, the current list's before the next
  // wrap of the tick count and the overflow list's after it.  `slack` is 1 within a tick
  // iteration, when the co-routines of this very tick may still be listed.
  ghost predicate TimesOk(delayed: seq<Entry>, overflow: seq<Entry>, tick: nat, slack: nat) {
    && Sorted(delayed) && Sorted(overflow)
    && (forall e :: e in delayed ==> tick < e.key + slack && Epoch(e.key) == Epoch(tick))
    && (forall e :: e in overflow ==> Epoch(e.key) == Epoch(tick) + 1)
  }

  ghost predicate Inv(m: Model, slack: nat) {
    && Wf(m)
    && m.priority.Keys == m.place.Keys
    && ReadyOk(m.priority, m.place, m.ready)
    && DelayedOk(m.place, m.delayed, m.overflow)
    && TopBounds(m.ready, m.top)
    && EventsOk(m.events, m.pending, m.container)
    && WaitersDelayed(m.place, m.container)
    && TimesOk(m.delayed, m.overflow, m.tick, slack)
  }

  // ---- Ready lists ----

  lemma EnqueueOne(r: Ready, c: nat)
    requires r.at <= |r.items| && c !in r.items && Distinct(r.items)
    ensures Distinct(Enqueue(r, c).items)
  {
    var p := if r.at == 0 then |r.items| else r.at - 1;
    assert Enqueue(r, c).items == r.items[..p] + [c] + r.items[p..];
  }

  lemma DequeueOne(r: Ready, c: nat)
    requires r.at <= |r.items| && c in r.items && Distinct(r.items)
    ensures Distinct(Dequeue(r, c).items)
    ensures forall x :: x in Dequeue(r, c).items <==> x in r.items && x != c
  {
    hide IndexOf;
    RemoveOne(r.items, IndexOf(r.items, c));
  }

  lemma RemoveOne(items: seq<nat>, p: nat)
    requires p < |items| && Distinct(items)
    ensures Distinct(items[..p] + items[p + 1..])
    ensures forall x :: x in items[..p] + items[p + 1..] <==> x in items && x != items[p]
  {
    assert items == items[..p] + [items[p]] + items[p + 1..];
  }

  // A co-routine that is in no ready list becomes ready.
  lemma MakeReadyKeeps(m: Model, c: nat)
    requires Wf(m) && c in m.priority && (c in m.place ==> m.place[c] != IsReady)
    requires ReadyOk(m.priority, m.place, m.ready) && TopBounds(m.ready, m.top)
    ensures var r := MakeReady(m, c);
            ReadyOk(r.priority, r.place, r.ready) && TopBounds(r.ready, r.top) && ReadyAt(r, c)
  {
    assert c !in m.ready[m.priority[c]].items;
    EnqueueOne(m.ready[m.priority[c]], c);
    EnqueueKeeps(m.priority, m.place, m.ready, c, Enqueue(m.ready[m.priority[c]], c));
  }

  lemma EnqueueKeeps(priority: map<nat, nat>, place: map<nat, Place>, ready: seq<Ready>, c: nat, r: Ready)
    requires ReadyOk(priority, place, ready) && c in priority && priority[c] < |ready|
    requires Distinct(r.items) && forall x :: x in r.items <==> x == c || x in ready[priority[c]].items
    ensures ReadyOk(priority, place[c := IsReady], ready[priority[c] := r])
  {
  }

  lemma UnreadyKeeps(m: Model, c: nat, wake: nat)
    requires Wf(m) && ReadyAt(m, c)
    requires ReadyOk(m.priority, m.place, m.ready) && TopBounds(m.ready, m.top)
    ensures var r := Unready(m, c);
            ReadyOk(r.priority, m.place[c := IsDelayed(wake)], r.ready) && TopBounds(r.ready, r.top)
  {
    hide Dequeue;
    var before := m.ready[m.priority[c]];
    DequeueOne(before, c);
    DequeueKeeps(m.priority, m.place, m.ready, c, wake, Dequeue(before, c));
  }

  lemma DequeueKeeps(priority: map<nat, nat>, place: map<nat, Place>, ready: seq<Ready>, c: nat, wake: nat, r: Ready)
    requires ReadyOk(priority, place, ready) && c in priority && priority[c] < |ready| && c in ready[priority[c]].items
    requires Distinct(r.items) && forall x :: x in r.items <==> x != c && x in ready[priority[c]].items
    ensures ReadyOk(priority, place[c := IsDelayed(wake)], ready[priority[c] := r])
  {
  }

  lemma SameItems(priority: map<nat, nat>, place: map<nat, Place>, ready: seq<Ready>, ready': seq<Ready>)
    requires |ready| == |ready'| && forall q :: 0 <= q < |ready| ==> ready'[q].items == ready[q].items
    requires ReadyOk(priority, place, ready)
    ensures ReadyOk(priority, place, ready')
  {
  }

  // ---- Delay lists ----

  lemma PopUnique(s: seq<Entry>)
    requires s != [] && UniqueIds(s)
    ensures UniqueIds(s[1..])
    ensures forall e :: e in s[1..] <==> e in s && e.id != s[0].id
  {
    assert s == [s[0]] + s[1..];
  }

  // The delay item of c is taken out of its list.
  lemma UndelayKeeps(place: map<nat, Place>, delayed: seq<Entry>, overflow: seq<Entry>, c: nat)
    requires DelayedOk(place, delayed, overflow)
    ensures DelayedOk(place[c := IsReady], Without(delayed, c), Without(overflow, c))
  {
    hide Without;
    WithoutKeepsUnique(delayed, c);
    WithoutKeepsUnique(overflow, c);
  }

  lemma UndelayTimes(delayed: seq<Entry>, overflow: seq<Entry>, tick: nat, slack: nat, c: nat)
    requires TimesOk(delayed, overflow, tick, slack)
    ensures TimesOk(Without(delayed, c), Without(overflow, c), tick, slack)
  {
    hide Without;
    WithoutKeepsSorted(delayed, c);
    WithoutKeepsSorted(overflow, c);
  }

  // The head of the delay list is taken out; the same co-routine is not in the overflow list,
  // because wake times in the two lists are in different epochs.
  lemma PopDelayed(place: map<nat, Place>, delayed: seq<Entry>, overflow: seq<Entry>, tick: nat)
    requires delayed != [] && DelayedOk(place, delayed, overflow) && TimesOk(delayed, overflow, tick, 1)
    ensures DelayedOk(place[delayed[0].id := IsReady], delayed[1..], overflow)
    ensures TimesOk(delayed[1..], overflow, tick, 1)
  {
    assert delayed[0] in delayed;
    PopUnique(delayed);
    assert forall f :: f in overflow ==> f.id != delayed[0].id;
  }

  lemma LinkDelayed(place: map<nat, Place>, delayed: seq<Entry>, overflow: seq<Entry>, e: Entry)
    requires DelayedOk(place, delayed, overflow)
    requires e.id in place ==> place[e.id] == IsReady
    ensures DelayedOk(place[e.id := IsDelayed(e.key)], InsertSorted(delayed, e), overflow)
    ensures DelayedOk(place[e.id := IsDelayed(e.key)], delayed, InsertSorted(overflow, e))
  {
    hide InsertSorted;
    InsertKeepsUnique(delayed, e);
    InsertKeepsUnique(overflow, e);
  }

  // ---- Steps ----

  // -- prvCheckPendingReadyList

  lemma PendingKnown(m: Model, slack: nat)
    requires Inv(m, slack) && m.pending != []
    ensures m.pending[0].id in m.priority && m.place[m.pending[0].id].IsDelayed?
    ensures !ReadyAt(m, m.pending[0].id)
  {
    hide DelayedOk, TimesOk, TopBounds;
    assert m.pending[0] in m.pending;
  }

  lemma TakePendingKeeps(m: Model, slack: nat)
    requires Inv(m, slack) && m.pending != []
    ensures m.pending[0].id in m.priority && Inv(TakePending(m), slack)
    ensures ReadyAt(TakePending(m), m.pending[0].id)
  {
    hide ReadyOk, DelayedOk, EventsOk, TimesOk, TopBounds, WaitersDelayed, Without, MakeReady;
    PendingKnown(m, slack);
    var c := m.pending[0].id;
    WokenWaits(m.place, m.container, c);
    MakeReadyKeeps(Undelay(m.(pending := m.pending[1..], container := m.container - {c}), c), c);
    UndelayKeeps(m.place, m.delayed, m.overflow, c);
    UndelayTimes(m.delayed, m.overflow, m.tick, slack, c);
    TakeFromPending(m.events, m.pending, m.container);
  }

  lemma TakeFromPending(events: map<nat, seq<Entry>>, pending: seq<Entry>, container: map<nat, Container>)
    requires EventsOk(events, pending, container) && pending != []
    ensures EventsOk(events, pending[1..], container - {pending[0].id})
  {
    assert pending[0] in pending;
    PopUnique(pending);
  }

  // -- prvCheckDelayedList

  lemma HeadKnown(m: Model, slack: nat)
    requires Inv(m, slack) && m.delayed != []
    ensures m.delayed[0].id in m.priority && m.place[m.delayed[0].id] == IsDelayed(m.delayed[0].key)
    ensures !ReadyAt(m, m.delayed[0].id)
  {
    assert m.delayed[0] in m.delayed;
  }

  lemma TimeOutKeeps(m: Model)
    requires Inv(m, 1) && HeadExpired(m)
    ensures m.delayed[0].id in m.priority && Inv(TimeOut(m), 1)
    ensures ReadyAt(TimeOut(m), m.delayed[0].id)
  {
    hide ReadyOk, DelayedOk, EventsOk, TimesOk, TopBounds, WaitersDelayed, DropEvent, MakeReady;
    HeadKnown(m, 1);
    var c := m.delayed[0].id;
    var m0 := m.(delayed := m.delayed[1..]);
    DropEventKeeps(m0, c);
    MakeReadyKeeps(DropEvent(m0, c), c);
    PopDelayed(m.place, m.delayed, m.overflow, m.tick);
    WokenWaits(m.place, m.container, c);
  }

  lemma WokenWaits(place: map<nat, Place>, container: map<nat, Container>, c: nat)
    requires WaitersDelayed(place, container)
    ensures WaitersDelayed(place[c := IsReady], container - {c})
  {
  }

  lemma DropEventKeeps(m: Model, c: nat)
    requires Wf(m) && EventsOk(m.events, m.pending, m.container)
    ensures var r := DropEvent(m, c);
            && EventsOk(r.events, r.pending, r.container)
            && r == m.(events := r.events, pending := r.pending, container := m.container - {c})
  {
    hide Without;
    if c in m.container {
      match m.container[c]
      case PendingList => DropPending(m.events, m.pending, m.container, c);
      case EventList(v) => DropWaiter(m.events, m.pending, m.container, c, v);
    } else {
      assert m.container - {c} == m.container;
    }
  }

  lemma DropPending(events: map<nat, seq<Entry>>, pending: seq<Entry>, container: map<nat, Container>, c: nat)
    requires EventsOk(events, pending, container) && c in container && container[c] == PendingList
    ensures EventsOk(events, Without(pending, c), container - {c})
  {
    hide Without;
    WithoutKeepsUnique(pending, c);
    forall d | d != c && HasId(pending, d)
      ensures HasId(Without(pending, c), d)
    {
      WithoutOthers(pending, c, d);
    }
  }

  lemma DropWaiter(events: map<nat, seq<Entry>>, pending: seq<Entry>, container: map<nat, Container>, c: nat, v: nat)
    requires EventsOk(events, pending, container) && c in container && container[c] == EventList(v)
    ensures v in events && EventsOk(events[v := Without(events[v], c)], pending, container - {c})
  {
    hide Without;
    WithoutKeepsUnique(events[v], c);
    forall d | d != c && HasId(events[v], d)
      ensures HasId(Without(events[v], c), d)
    {
      WithoutOthers(events[v], c, d);
    }
  }

  lemma WithoutOthers(s: seq<Entry>, c: nat, d: nat)
    requires d != c && HasId(s, d)
    ensures HasId(Without(s, c), d)
  {
    var e :| e in s && e.id == d;
    assert e in Without(s, c);
  }

  // Counting a tick.  If it wraps the counter, the outgoing delay list is empty.
  lemma CountTickKeeps(m: Model)
    requires Inv(m, 0)
    ensures Inv(CountTick(m), 1)
    ensures Tick(m.tick + 1) == 0 ==> m.delayed == [] && CountTick(m).overflow == []
  {
    CountTickTimes(m);
  }

  lemma CountTickTimes(m: Model)
    requires Wf(m) && TimesOk(m.delayed, m.overflow, m.tick, 0)
    ensures var r := CountTick(m); TimesOk(r.delayed, r.overflow, r.tick, 1)
    ensures Tick(m.tick + 1) == 0 ==> m.delayed == []
  {
    hide Tick, Epoch, Sorted;
    Near(m.tick, m.tick + 1);
    if Tick(m.tick + 1) == 0 {
      if m.delayed != [] {
        assert m.delayed[0] in m.delayed;
        EpochMonotone(m.tick + 1, m.delayed[0].key);
      }
      forall e | e in m.overflow
        ensures m.tick < e.key
      {
        EarlierEpoch(m.tick, e.key);
      }
    }
  }

  // The last turn of a tick iteration: nothing of this tick is listed any more.
  lemma NoneExpired(m: Model)
    requires Inv(m, 1) && !HeadExpired(m)
    ensures Inv(m, 0)
  {
    if m.delayed != [] {
      assert forall e :: e in m.delayed ==> m.delayed[0].key <= e.key;
    }
  }

  // -- vCoRoutineAddToDelayedList

  lemma DelayKeeps(m: Model, c: nat, ticks: nat, event: Event)
    requires Inv(m, 0) && ReadyAt(m, c) && 0 < ticks < M
    requires event.On? ==> event.v in m.events
    ensures Inv(Delay(m, c, ticks, event), 0)
    ensures Delay(m, c, ticks, event).place == m.place[c := IsDelayed(m.tick + ticks)]
  {
    hide ReadyOk, DelayedOk, EventsOk, TimesOk, TopBounds, InsertSorted, Dequeue;
    var e := Entry(c, m.tick + ticks);
    LinkDelayKeeps(m, c, e);
    if event.On? {
      LinkEventKeeps(LinkDelay(Unready(m, c), e), event.v, Entry(c, |m.ready| - m.priority[c]));
    }
  }

  lemma ReadyIsNotDelayed(m: Model, c: nat)
    requires Inv(m, 0) && ReadyAt(m, c)
    ensures c in m.place && m.place[c] == IsReady && c !in m.container
  {
    hide DelayedOk, EventsOk, TimesOk, TopBounds;
  }

  lemma LinkDelayKeeps(m: Model, c: nat, e: Entry)
    requires Inv(m, 0) && ReadyAt(m, c) && e.id == c && m.tick < e.key < m.tick + M
    ensures var d := LinkDelay(Unready(m, c), e);
            Inv(d, 0) && d.place == m.place[c := IsDelayed(e.key)] && c !in d.container && d.events == m.events
  {
    hide ReadyOk, DelayedOk, EventsOk, TimesOk, TopBounds, InsertSorted, Dequeue;
    var d := LinkDelay(Unready(m, c), e);
    ReadyIsNotDelayed(m, c);
    UnreadyKeeps(m, c, e.key);
    LinkDelayed(m.place, m.delayed, m.overflow, e);
    LinkDelayTimes(Unready(m, c), e);
    assert d.priority.Keys == d.place.Keys;
  }

  lemma LinkDelayTimes(m: Model, e: Entry)
    requires Wf(m) && TimesOk(m.delayed, m.overflow, m.tick, 0) && m.tick < e.key < m.tick + M
    ensures var d := LinkDelay(m, e); TimesOk(d.delayed, d.overflow, m.tick, 0)
  {
    hide InsertSorted;
    Near(m.tick, e.key);
    InsertKeepsSorted(m.delayed, e);
    InsertKeepsSorted(m.overflow, e);
  }

  // Linking an event item of a delayed co-routine that had none.
  lemma LinkEventKeeps(d: Model, v: nat, item: Entry)
    requires Inv(d, 0) && item.id in d.place && d.place[item.id].IsDelayed? && item.id !in d.container
    requires v in d.events
    ensures Inv(LinkEvent(d, v, item), 0)
  {
    hide ReadyOk, DelayedOk, EventsOk, TimesOk, TopBounds, InsertSorted;
    var r := LinkEvent(d, v, item);
    assert EventsOk(r.events, r.pending, r.container) by {
      LinkEventItem(d.events, d.pending, d.container, v, item);
    }
  }

  lemma LinkEventItem(events: map<nat, seq<Entry>>, pending: seq<Entry>, container: map<nat, Container>,
                      v: nat, item: Entry)
    requires EventsOk(events, pending, container) && v in events && item.id !in container
    ensures EventsOk(events[v := InsertSorted(events[v], item)], pending, container[item.id := EventList(v)])
  {
    hide InsertSorted;
    InsertKeepsUnique(events[v], item);
  }

  // -- xCoRoutineRemoveFromEventList

  lemma EventOccursKeeps(m: Model, v: nat, slack: nat)
    requires Inv(m, slack) && v in m.events && m.events[v] != []
    ensures Inv(EventOccurs(m, v), slack)
  {
    var r := EventOccurs(m, v);
    assert m.events[v][0] in m.events[v];
    assert EventsOk(r.events, r.pending, r.container) by {
      MoveToPending(m.events, m.pending, m.container, v);
    }
  }

  lemma AppendUnique(s: seq<Entry>, e: Entry)
    requires UniqueIds(s) && !HasId(s, e.id)
    ensures UniqueIds(s + [e])
  {
    forall i | 0 <= i < |s|
      ensures s[i].id != e.id
    {
      assert s[i] in s;
    }
  }

  lemma MoveToPending(events: map<nat, seq<Entry>>, pending: seq<Entry>, container: map<nat, Container>, v: nat)
    requires EventsOk(events, pending, container) && v in events && events[v] != []
    ensures var e := events[v][0];
            EventsOk(events[v := events[v][1..]], pending + [e], container[e.id := PendingList])
  {
    assert events[v][0] in events[v];
    PopUnique(events[v]);
    AppendUnique(pending, events[v][0]);
  }

  // -- xCoRoutineCreate

  lemma CreateKeeps(m: Model, c: nat, priority: nat)
    requires Inv(m, 0) && c !in m.priority
    ensures Inv(Create(m, c, priority), 0) && ReadyAt(Create(m, c, priority), c)
  {
    hide DelayedOk, EventsOk, TimesOk, TopBounds, ReadyOk, WaitersDelayed, MakeReady;
    var p := if |m.ready| <= priority then |m.ready| - 1 else priority;
    var m1, r := m.(priority := m.priority[c := p]), Create(m, c, priority);
    CreatedKeeps(m.priority, m.place, m.ready, c, p);
    MakeReadyKeeps(m1, c);
    CreatedDelays(m.place, m.delayed, m.overflow, c);
    CreatedWaits(m.place, m.container, c);
    assert r.priority.Keys == r.place.Keys;
  }

  lemma CreatedKeeps(priority: map<nat, nat>, place: map<nat, Place>, ready: seq<Ready>, c: nat, p: nat)
    requires ReadyOk(priority, place, ready) && c !in priority && c !in place
    ensures ReadyOk(priority[c := p], place, ready)
  {
  }

  lemma CreatedWaits(place: map<nat, Place>, container: map<nat, Container>, c: nat)
    requires WaitersDelayed(place, container) && c !in place
    ensures WaitersDelayed(place[c := IsReady], container)
  {
  }

  lemma CreatedDelays(place: map<nat, Place>, delayed: seq<Entry>, overflow: seq<Entry>, c: nat)
    requires DelayedOk(place, delayed, overflow) && c !in place
    ensures DelayedOk(place[c := IsReady], delayed, overflow)
  {
  }

  // -- The choice at the end of vCoRoutineSchedule

  lemma SelectKeeps(m: Model)
    requires Inv(m, 0)
    ensures Inv(Select(m), 0)
  {
    SameItems(m.priority, m.place, m.ready, Select(m).ready);
  }

  // The scheduler runs a co-routine that is ready, and none of a higher priority is; it runs none
  // only when none is ready.
  lemma RunsTheHighest(m: Model, c: nat)
    requires Inv(m, 0) && ReadyAt(m, c)
    ensures Chosen(m).Run?
    ensures ReadyAt(m, Chosen(m).c) && m.priority[c] <= m.priority[Chosen(m).c]
  {
    hide DelayedOk, EventsOk, TimesOk, WaitersDelayed, TopBounds, Chosen, Select, LowerTop, Distinct;
    TopIsHighest(m, c);
    ChosenFromTop(m);
  }

  lemma TopIsHighest(m: Model, c: nat)
    requires Inv(m, 0) && ReadyAt(m, c)
    ensures var p := LowerTop(m.ready, m.top); m.priority[c] <= p && m.ready[p].items != []
  {
    hide ReadyOk, DelayedOk, EventsOk, TimesOk, WaitersDelayed, LowerTop;
  }

  lemma ChosenFromTop(m: Model)
    requires Wf(m) && m.ready[LowerTop(m.ready, m.top)].items != []
    ensures Chosen(m).Run? && Chosen(m).c in m.ready[LowerTop(m.ready, m.top)].items
  {
    hide LowerTop;
    var p := LowerTop(m.ready, m.top);
    var r := Advance(m.ready[p]);
    assert r.items[r.at - 1] in m.ready[p].items;
  }
}
