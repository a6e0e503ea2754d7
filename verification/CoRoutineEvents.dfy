/** Event lists of co-routines: they stay in priority order over every run, so an event wakes a
    co-routine of the highest priority that waits for it.
 */
module CoRoutineEvents {
  import opened SortedLists
  import opened CoRoutineModel
  import opened CoRoutineInvariant
  import opened CoRoutineWakeups

  // Item values are the number of priorities minus the priority, and every event list is sorted.
  ghost predicate ListOrdered(s: seq<Entry>, priority: map<nat, nat>, priorities: nat) {
    Sorted(s) && forall e :: e in s ==> e.id in priority && e.key + priority[e.id] == priorities
  }

  ghost predicate InPriorityOrder(m: Model) {
    forall v :: v in m.events ==> ListOrdered(m.events[v], m.priority, |m.ready|)
  }

  lemma InsertOrdered(s: seq<Entry>, priority: map<nat, nat>, priorities: nat, c: nat)
    requires ListOrdered(s, priority, priorities) && c in priority && priority[c] <= priorities
    ensures ListOrdered(InsertSorted(s, Entry(c, priorities - priority[c])), priority, priorities)
  {
    hide InsertSorted;
    InsertKeepsSorted(s, Entry(c, priorities - priority[c]));
  }

  lemma WithoutOrdered(s: seq<Entry>, priority: map<nat, nat>, priorities: nat, c: nat)
    requires ListOrdered(s, priority, priorities)
    ensures ListOrdered(Without(s, c), priority, priorities)
  {
    hide Without;
    WithoutKeepsSorted(s, c);
  }

  lemma MorePriorities(m: Model, c: nat, p: nat)
    requires InPriorityOrder(m) && c !in m.priority
    ensures InPriorityOrder(m.(priority := m.priority[c := p]))
  {
    var m1 := m.(priority := m.priority[c := p]);
    forall v | v in m1.events
      ensures ListOrdered(m1.events[v], m1.priority, |m1.ready|)
    {
      assert ListOrdered(m.events[v], m.priority, |m.ready|);
    }
  }

  // What a step may change without touching the order.
  lemma SameEvents(m: Model, r: Model)
    requires InPriorityOrder(m) && r.events == m.events && r.priority == m.priority && |r.ready| == |m.ready|
    ensures InPriorityOrder(r)
  {
    hide ListOrdered;
  }

  lemma DelayOrdered(m: Model, c: nat, ticks: nat, event: Event)
    requires Wf(m) && ReadyAt(m, c) && (event.On? ==> event.v in m.events) && InPriorityOrder(m)
    ensures InPriorityOrder(Delay(m, c, ticks, event))
  {
    hide InsertSorted, ListOrdered, Dequeue;
    var d := LinkDelay(Unready(m, c), Entry(c, m.tick + ticks));
    SameEvents(m, d);
    if event.On? {
      InsertOrdered(m.events[event.v], m.priority, |m.ready|, c);
    }
  }

  lemma EventOrdered(m: Model, v: nat)
    requires Wf(m) && v in m.events && m.events[v] != [] && InPriorityOrder(m)
    ensures InPriorityOrder(EventOccurs(m, v))
  {
    var r := EventOccurs(m, v);
    forall u | u in r.events
      ensures ListOrdered(r.events[u], r.priority, |r.ready|)
    {
      assert ListOrdered(m.events[u], m.priority, |m.ready|);
    }
  }

  lemma TimeOutOrdered(m: Model)
    requires Wf(m) && HeadExpired(m) && m.delayed[0].id in m.priority && InPriorityOrder(m)
    ensures InPriorityOrder(TimeOut(m))
  {
    hide Without, ListOrdered, MakeReady;
    var c, m0 := m.delayed[0].id, m.(delayed := m.delayed[1..]);
    var d := DropEvent(m0, c);
    if c in m.container && m.container[c].EventList? && m.container[c].v in m.events {
      WithoutOrdered(m.events[m.container[c].v], m.priority, |m.ready|, c);
    }
    assert InPriorityOrder(d);
    ReadySame(d, c);
    SameEvents(d, TimeOut(m));
  }

  lemma ReadySame(m: Model, c: nat)
    requires Wf(m) && c in m.priority
    ensures var r := MakeReady(m, c); r.events == m.events && r.priority == m.priority && |r.ready| == |m.ready|
  {
  }

  lemma StepKeepsPriorityOrder(s: State, step: Step)
    requires Enabled(s, step) && InPriorityOrder(s.m)
    ensures InPriorityOrder(Apply(s, step).m)
  {
    hide InPriorityOrder, Delay, TimeOut, EventOccurs, Without, Enqueue;
    match step
    case NewCoRoutine(c, priority) =>
      var p := if |s.m.ready| <= priority then |s.m.ready| - 1 else priority;
      MorePriorities(s.m, c, p);
      SameEvents(s.m.(priority := s.m.priority[c := p]), Create(s.m, c, priority));
    case DelayCurrent(ticks, event) => DelayOrdered(s.m, s.current.c, ticks, event);
    case MovePending => SameEvents(s.m, TakePending(s.m));
    case CountOne => SameEvents(s.m, CountTick(s.m));
    case ExpireOne => TimeOutOrdered(s.m);
    case Choose => SameEvents(s.m, Select(s.m));
    case Interrupt(v) => EventOrdered(s.m, v);
    case _ =>
  }

  lemma {:induction false} RunKeepsPriorityOrder(s: State, run: seq<Step>)
    requires Feasible(s, run) && InPriorityOrder(s.m)
    ensures InPriorityOrder(Exec(s, run).m)
    decreases |run|
  {
    hide InPriorityOrder, Enabled, Apply;
    if run != [] {
      StepKeepsPriorityOrder(s, run[0]);
      RunKeepsPriorityOrder(Apply(s, run[0]), run[1..]);
    }
  }

  // Over every run: the co-routine an event readies, the first in its list, has the highest
  // priority of those that wait for it.
  lemma EventWakesHighest(priorities: nat, events: set<nat>, run: seq<Step>, v: nat, e: Entry)
    requires 0 < priorities && Feasible(Fresh(priorities, events), run)
    requires var m := Exec(Fresh(priorities, events), run).m; v in m.events && e in m.events[v]
    ensures var m := Exec(Fresh(priorities, events), run).m;
            var woken := m.events[v][0].id;
            e.id in m.priority && woken in m.priority && m.priority[e.id] <= m.priority[woken]
  {
    hide Exec, Feasible;
    RunKeepsPriorityOrder(Fresh(priorities, events), run);
    var m := Exec(Fresh(priorities, events), run).m;
    assert ListOrdered(m.events[v], m.priority, |m.ready|);
    assert m.events[v][0] in m.events[v];
  }
}
