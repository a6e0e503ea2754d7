/** The co-routine scheduler in true time: ready lists, two delay lists, event lists and the list
    of co-routines readied by an interrupt.  Each function is one step that interrupts may fall
    between.
 */
module CoRoutineModel {
  import opened Ticks
  import opened SortedLists
  import L = IntrusiveLists

  // A ready list and the position of its list index (0: the end marker, i + 1: item i).
  datatype Ready = Ready(items: seq<nat>, at: nat)

  // Which list holds the generic item of a co-routine, and the item value if it is a delay list.
  datatype Place = IsReady | IsDelayed(wake: nat)

  // Which list holds its event item, if any does.
  datatype Container = EventList(v: nat) | PendingList

  // Delay lists hold wake times, event lists and the pending list hold priority keys.  `tick` is
  // the number of ticks processed, whose low part is xCoRoutineTickCount.
  datatype Model = Model(
    priority: map<nat, nat>,
    ready: seq<Ready>,
    top: nat,
    delayed: seq<Entry>,
    overflow: seq<Entry>,
    events: map<nat, seq<Entry>>,
    pending: seq<Entry>,
    place: map<nat, Place>,
    container: map<nat, Container>,
    tick: nat)

  // ---- Ready lists ----

  // vListInsertEnd
  function Enqueue(r: Ready, c: nat): (r': Ready)
    requires r.at <= |r.items|
    ensures r'.at <= |r'.items|
    ensures forall x :: x in r'.items <==> x == c || x in r.items
  {
    var p := if r.at == 0 then |r.items| else r.at - 1;
    assert r.items == r.items[..p] + r.items[p..];
    Ready(r.items[..p] + [c] + r.items[p..], if r.at == 0 then 0 else r.at + 1)
  }

  function IndexOf(items: seq<nat>, c: nat): (i: nat)
    requires c in items
    ensures i < |items| && items[i] == c
  {
    if items[0] == c then 0 else 1 + IndexOf(items[1..], c)
  }

  // uxListRemove
  function Dequeue(r: Ready, c: nat): (r': Ready)
    requires r.at <= |r.items| && c in r.items
    ensures r'.at <= |r'.items|
  {
    var p := IndexOf(r.items, c);
    Ready(r.items[..p] + r.items[p + 1..], if r.at <= p then r.at else r.at - 1)
  }

  // listGET_OWNER_OF_NEXT_ENTRY
  function Advance(r: Ready): (r': Ready)
    requires r.at <= |r.items| && r.items != []
    ensures 0 < r'.at <= |r'.items| && r'.items == r.items
  {
    r.(at := L.NextAt(r.at, |r.items| + 1))
  }

  // ---- Well-formed states ----

  predicate ReadyAt(m: Model, c: nat) {
    c in m.priority && m.priority[c] < |m.ready| && c in m.ready[m.priority[c]].items
  }

  predicate Wf(m: Model) {
    && m.top < |m.ready|
    && (forall p :: 0 <= p < |m.ready| ==> m.ready[p].at <= |m.ready[p].items|)
    && (forall c :: c in m.priority ==> m.priority[c] < |m.ready|)
  }

  // ---- Steps ----

  // prvAddCoRoutineToReadyQueue
  function MakeReady(m: Model, c: nat): (r: Model)
    requires Wf(m) && c in m.priority
    ensures Wf(r) && r == m.(top := r.top, ready := r.ready, place := m.place[c := IsReady])
  {
    var p := m.priority[c];
    m.(top := if m.top < p then p else m.top,
       ready := m.ready[p := Enqueue(m.ready[p], c)],
       place := m.place[c := IsReady])
  }

  // xCoRoutineCreate: too high a priority is lowered to the highest.
  function Create(m: Model, c: nat, priority: nat): (r: Model)
    requires Wf(m) && c !in m.priority
    ensures Wf(r)
  {
    var p := if |m.ready| <= priority then |m.ready| - 1 else priority;
    MakeReady(m.(priority := m.priority[c := p]), c)
  }

  // vCoRoutineAddToDelayedList, for the running co-routine c; it may also wait for an event.
  datatype Event = NoEvent | On(v: nat)

  function Delay(m: Model, c: nat, ticks: nat, event: Event): (r: Model)
    requires Wf(m) && ReadyAt(m, c) && (event.On? ==> event.v in m.events)
    ensures Wf(r)
  {
    var d := LinkDelay(Unready(m, c), Entry(c, m.tick + ticks));
    if event.NoEvent? then d else LinkEvent(d, event.v, Entry(c, |m.ready| - m.priority[c]))
  }

  function Unready(m: Model, c: nat): (r: Model)
    requires Wf(m) && ReadyAt(m, c)
    ensures Wf(r)
  {
    var p := m.priority[c];
    m.(ready := m.ready[p := Dequeue(m.ready[p], c)])
  }

  function LinkDelay(m: Model, e: Entry): (r: Model)
    requires Wf(m)
    ensures Wf(r)
  {
    var m1 := m.(place := m.place[e.id := IsDelayed(e.key)]);
    if Epoch(e.key) == Epoch(m.tick) then m1.(delayed := InsertSorted(m.delayed, e))
    else m1.(overflow := InsertSorted(m.overflow, e))
  }

  function LinkEvent(m: Model, v: nat, item: Entry): (r: Model)
    requires Wf(m) && v in m.events
    ensures Wf(r)
  {
    m.(events := m.events[v := InsertSorted(m.events[v], item)],
       container := m.container[item.id := EventList(v)])
  }

  // xCoRoutineRemoveFromEventList, from an interrupt.
  function EventOccurs(m: Model, v: nat): (r: Model)
    requires Wf(m) && v in m.events && m.events[v] != []
    ensures Wf(r)
  {
    var e := m.events[v][0];
    m.(events := m.events[v := m.events[v][1..]],
       pending := m.pending + [e],
       container := m.container[e.id := PendingList])
  }

  function Undelay(m: Model, c: nat): (r: Model)
    requires Wf(m)
    ensures Wf(r)
  {
    m.(delayed := Without(m.delayed, c), overflow := Without(m.overflow, c))
  }

  // One turn of prvCheckPendingReadyList.
  function TakePending(m: Model): (r: Model)
    requires Wf(m) && m.pending != [] && m.pending[0].id in m.priority
    ensures Wf(r)
  {
    var c := m.pending[0].id;
    var m1 := m.(pending := m.pending[1..], container := m.container - {c});
    MakeReady(Undelay(m1, c), c)
  }

  // The head of one tick iteration of prvCheckDelayedList: count the tick and, when the counter
  // wraps, swap the delay lists.
  function CountTick(m: Model): (r: Model)
    requires Wf(m)
    ensures Wf(r) && r.tick == m.tick + 1
  {
    var m1 := m.(tick := m.tick + 1);
    if Tick(m.tick + 1) == 0 then m1.(delayed := m.overflow, overflow := m.delayed) else m1
  }

  predicate HeadExpired(m: Model) {
    m.delayed != [] && m.delayed[0].key <= m.tick
  }

  // Removes the event item of c from whatever list it is in.
  function DropEvent(m: Model, c: nat): (r: Model)
    requires Wf(m)
    ensures Wf(r)
  {
    if c !in m.container then m
    else
      var m1 := m.(container := m.container - {c});
      match m.container[c]
      case PendingList => m1.(pending := Without(m.pending, c))
      case EventList(v) => if v in m.events then m1.(events := m.events[v := Without(m.events[v], c)]) else m1
  }

  // The rest of it: the head of the delay list times out; its event item leaves the event list
  // or, if the event has just occurred, the pending list.
  function TimeOut(m: Model): (r: Model)
    requires Wf(m) && HeadExpired(m) && m.delayed[0].id in m.priority
    ensures Wf(r) && r.tick == m.tick && r.delayed == m.delayed[1..] && r.overflow == m.overflow
  {
    var c := m.delayed[0].id;
    MakeReady(DropEvent(m.(delayed := m.delayed[1..]), c), c)
  }

  function LowerTop(ready: seq<Ready>, top: nat): (r: nat)
    requires top < |ready|
    ensures r <= top
    ensures forall p :: r < p <= top ==> ready[p].items == []
    ensures ready[r].items == [] ==> r == 0
  {
    if ready[top].items != [] || top == 0 then top else LowerTop(ready, top - 1)
  }

  // The end of vCoRoutineSchedule: find the highest ready priority; Chosen names the co-routine
  // that runs next, if any.
  function Select(m: Model): (r: Model)
    requires Wf(m)
    ensures Wf(r)
  {
    var p := LowerTop(m.ready, m.top);
    var m1 := m.(top := p);
    if m.ready[p].items == [] then m1 else m1.(ready := m.ready[p := Advance(m.ready[p])])
  }

  datatype Choice = NoneReady | Run(c: nat)

  function Chosen(m: Model): Choice
    requires Wf(m)
  {
    var r := Select(m).ready[Select(m).top];
    if r.items == [] then NoneReady else Run(r.items[r.at - 1])
  }
}
