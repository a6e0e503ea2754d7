/** The choice at the end of a scheduler call, and the equal share of the processor that co-routines
    of one priority get over a run.
 */
module CoRoutineShares {
  import opened Ticks
  import opened SortedLists
  import opened CoRoutineModel
  import opened CoRoutineInvariant
  import opened CoRoutineWakeups
  import opened ReadyLists
  import L = IntrusiveLists

  // The co-routines of a ready list in the order in which they are next to run.
  function Order(r: Ready): (order: seq<Node>)
    requires r.at <= |r.items|
    ensures |order| == |r.items|
  {
    L.Rotation(RingOf(r), r.at)
  }

  // The scheduler runs the first in that order of the highest ready list, and this one is then the
  // last; all other ready lists, and everything else, stay as they are.
  lemma ChosenIsNext(m: Model)
    requires Wf(m) && m.ready[Select(m).top].items != []
    ensures var m1, p := Select(m), Select(m).top;
            && Chosen(m).Run? && Item(Chosen(m).c) == Order(m.ready[p])[0]
            && m1.ready[p].items == m.ready[p].items && m1.ready[p].at <= |m1.ready[p].items|
            && Order(m1.ready[p]) == Order(m.ready[p])[1..] + [Order(m.ready[p])[0]]
            && m1 == m.(top := p, ready := m.ready[p := m1.ready[p]])
  {
    hide RingOf, L.Rotation, LowerTop;
    var r := m.ready[Select(m).top];
    assert RingOf(Advance(r)) == RingOf(r) by {
      SameRing(Advance(r), r);
    }
    L.RotationNext(RingOf(r), r.at);
    ItemAt(r, Advance(r).at);
  }

  lemma SameRing(r: Ready, s: Ready)
    requires r.items == s.items
    ensures RingOf(r) == RingOf(s)
  {
  }

  lemma ItemAt(r: Ready, at: nat)
    requires 0 < at <= |r.items|
    ensures RingOf(r)[at] == Item(r.items[at - 1])
  {
  }

  // One that becomes ready is the last in the order, or the last but one if the list index stands on
  // a co-routine, which has just run.
  lemma JoinsAtEnd(m: Model, c: nat)
    requires Wf(m) && c in m.priority
    ensures var (p, r) := (m.priority[c], MakeReady(m, c));
            var (before, after) := (m.ready[p], r.ready[p]);
            && Order(after) == (if before.at == 0 then Order(before) + [Item(c)]
                                else L.InsertAt(Order(before), |before.items| - 1, Item(c)))
            && r.ready == m.ready[p := after]
  {
    hide RingOf, L.Rotation;
    var r := m.ready[m.priority[c]];
    EnqueueIsInsertEnd(r, c);
    L.RotationInsertEnd(RingOf(r), r.at, Item(c));
  }

  // One that leaves takes only itself out of the order.
  lemma LeavesOrder(m: Model, c: nat)
    requires Wf(m) && ReadyAt(m, c)
    ensures var (p, r) := (m.priority[c], Unready(m, c));
            var (before, after, i) := (m.ready[p], r.ready[p], IndexOf(m.ready[p].items, c));
            var k := if before.at <= i then i - before.at else |before.items| + i - before.at;
            && k < |before.items| && Order(before)[k] == Item(c) && Order(after) == L.DeleteAt(Order(before), k)
            && r.ready == m.ready[p := after]
  {
    hide RingOf, L.Rotation, IndexOf;
    var r := m.ready[m.priority[c]];
    var p := IndexOf(r.items, c) + 1;
    DequeueIsRemove(r, c);
    L.RotationDelete(RingOf(r), r.at, p);
    RotationPlace(RingOf(r), r.at, p);
  }

  // Where a node of the ring is in the rotation.
  lemma RotationPlace<T>(ring: seq<T>, at: nat, p: nat)
    requires at < |ring| && 0 < p < |ring|
    ensures L.Rotation(ring, at)[if at < p then p - 1 - at else |ring| - 2 - at + p] == ring[p]
  {
  }

  // What each step does to the ready lists.
  lemma StepReadies(s: State, step: Step)
    requires RunInv(s) && Enabled(s, step)
    ensures var (m, m1) := (s.m, Apply(s, step).m);
            match step
            case NewCoRoutine(c, priority) =>
              var known := m.(priority := m1.priority);
              c in m1.priority && Wf(known) && m1.ready == MakeReady(known, c).ready
            case DelayCurrent(_, _) => m1.ready == Unready(m, s.current.c).ready
            case MovePending => m1.ready == MakeReady(m, m.pending[0].id).ready
            case ExpireOne => m1.ready == MakeReady(m, m.delayed[0].id).ready
            case Choose => m1 == Select(m)
            case _ => m1.ready == m.ready
  {
    hide Enqueue, Dequeue, Without, InsertSorted, Epoch, Tick, ReadyOk, DelayedOk, EventsOk, TimesOk, LowerTop;
  }

  // ---- Whole runs ----

  ghost function Choices(s: State, run: seq<Step>): seq<Choice>
    requires Feasible(s, run)
    decreases |run|
  {
    if run == [] then []
    else (if run[0] == Choose then [Chosen(s.m)] else []) + Choices(Apply(s, run[0]), run[1..])
  }

  // In every state of the run these are the ready co-routines of priority p, and whenever the
  // scheduler chooses none of a higher priority is ready.
  ghost predicate Steady(s: State, run: seq<Step>, p: nat, items: seq<nat>)
    requires Feasible(s, run)
    decreases |run|
  {
    && p < |s.m.ready| && s.m.ready[p].items == items
    && (run != [] ==>
          && (run[0] == Choose ==> Select(s.m).top == p)
          && Steady(Apply(s, run[0]), run[1..], p, items))
  }

  lemma Lengths(r: Ready, c: nat)
    requires r.at <= |r.items|
    ensures |Enqueue(r, c).items| == |r.items| + 1
    ensures c in r.items ==> |Dequeue(r, c).items| == |r.items| - 1
  {
    hide IndexOf;
  }

  // Only a choice moves the index of a list whose co-routines stay the same.
  lemma IndexStays(s: State, step: Step, p: nat)
    requires Enabled(s, step) && step != Choose && p < |s.m.ready|
    requires p < |Apply(s, step).m.ready| && Apply(s, step).m.ready[p].items == s.m.ready[p].items
    ensures Apply(s, step).m.ready[p] == s.m.ready[p]
  {
    hide Create, Delay, TakePending, TimeOut, CountTick;
    match step
    case NewCoRoutine(c, priority) => CreateIndex(s.m, c, priority, p);
    case DelayCurrent(ticks, event) => DelayIndex(s.m, s.current.c, ticks, event, p);
    case MovePending => PendingIndex(s.m, p);
    case ExpireOne => ExpireIndex(s.m, p);
    case CountOne => CountIndex(s.m);
    case _ =>
  }

  lemma CreateIndex(m: Model, c: nat, priority: nat, p: nat)
    requires Wf(m) && c !in m.priority && p < |m.ready| && p < |Create(m, c, priority).ready|
    requires Create(m, c, priority).ready[p].items == m.ready[p].items
    ensures Create(m, c, priority).ready[p] == m.ready[p]
  {
    hide Enqueue;
    Lengths(m.ready[p], c);
  }

  lemma DelayIndex(m: Model, c: nat, ticks: nat, event: Event, p: nat)
    requires Wf(m) && ReadyAt(m, c) && (event.On? ==> event.v in m.events)
    requires p < |m.ready| && p < |Delay(m, c, ticks, event).ready|
    requires Delay(m, c, ticks, event).ready[p].items == m.ready[p].items
    ensures Delay(m, c, ticks, event).ready[p] == m.ready[p]
  {
    hide Dequeue, InsertSorted, Epoch;
    Lengths(m.ready[p], c);
  }

  lemma PendingIndex(m: Model, p: nat)
    requires Wf(m) && m.pending != [] && m.pending[0].id in m.priority && p < |m.ready|
    requires p < |TakePending(m).ready| && TakePending(m).ready[p].items == m.ready[p].items
    ensures TakePending(m).ready[p] == m.ready[p]
  {
    hide Enqueue, Without;
    Lengths(m.ready[p], m.pending[0].id);
  }

  lemma CountIndex(m: Model)
    requires Wf(m)
    ensures CountTick(m).ready == m.ready
  {
  }

  lemma ExpireIndex(m: Model, p: nat)
    requires Wf(m) && HeadExpired(m) && m.delayed[0].id in m.priority && p < |m.ready|
    requires p < |TimeOut(m).ready| && TimeOut(m).ready[p].items == m.ready[p].items
    ensures TimeOut(m).ready[p] == m.ready[p]
  {
    hide Enqueue, Without;
    Lengths(m.ready[p], m.delayed[0].id);
  }

  lemma ChosenIsVisit(m: Model)
    requires Wf(m) && m.ready[Select(m).top].items != []
    ensures var r, p := m.ready[Select(m).top], Select(m).top;
            var next := L.NextAt(r.at, |r.items| + 1);
            && Select(m).ready[p] == r.(at := next)
            && Chosen(m).Run? && RingOf(r)[next] == Item(Chosen(m).c)
  {
    hide RingOf, LowerTop;
    var r := m.ready[Select(m).top];
    ItemAt(r, L.NextAt(r.at, |r.items| + 1));
  }

  lemma VisitsFrom<T>(ring: seq<T>, at: nat, n: nat)
    requires at < |ring| && 1 < |ring| && 0 < n
    ensures L.Visits(ring, at, n) == [ring[L.NextAt(at, |ring|)]] + L.Visits(ring, L.NextAt(at, |ring|), n - 1)
  {
  }

  ghost predicate AreVisits(r: Ready, choices: seq<Choice>)
    requires r.at <= |r.items| && r.items != []
  {
    var visits := L.Visits(RingOf(r), r.at, |choices|);
    && |visits| == |choices|
    && forall k :: 0 <= k < |choices| ==> choices[k].Run? && visits[k] == Item(choices[k].c)
  }

  lemma OneMoreVisit(r: Ready, c: nat, choices: seq<Choice>)
    requires r.at <= |r.items| && r.items != []
    requires RingOf(r)[L.NextAt(r.at, |r.items| + 1)] == Item(c)
    requires AreVisits(r.(at := L.NextAt(r.at, |r.items| + 1)), choices)
    ensures AreVisits(r, [Run(c)] + choices)
  {
    hide RingOf, L.Visits;
    var next := r.(at := L.NextAt(r.at, |r.items| + 1));
    SameRing(next, r);
    VisitsFrom(RingOf(r), r.at, |choices| + 1);
  }

  // The choices of the run are the visits of a ring, from its index on.
  lemma {:induction false} ChoicesAreVisits(s: State, run: seq<Step>, p: nat, items: seq<nat>)
    requires Feasible(s, run) && Wf(s.m) && Steady(s, run, p, items) && items != []
    ensures AreVisits(s.m.ready[p], Choices(s, run))
    decreases |run|
  {
    hide Apply, Enabled, Wf, AreVisits;
    ReadyIsRing(s.m, p);
    if run == [] {
      NoVisit(s.m.ready[p]);
    } else {
      var s1 := Apply(s, run[0]);
      ChoicesAreVisits(s1, run[1..], p, items);
      ReadyIsRing(s1.m, p);
      if run[0] == Choose {
        ChoiceTaken(s, p, Choices(s1, run[1..]));
      } else {
        IndexStays(s, run[0], p);
        assert [] + Choices(s1, run[1..]) == Choices(s1, run[1..]);
      }
    }
  }

  lemma ReadyIsRing(m: Model, p: nat)
    requires Wf(m) && p < |m.ready|
    ensures m.ready[p].at <= |m.ready[p].items|
  {
  }

  lemma NoVisit(r: Ready)
    requires r.at <= |r.items| && r.items != []
    ensures AreVisits(r, [])
  {
  }

  lemma ChoiceTaken(s: State, p: nat, later: seq<Choice>)
    requires Enabled(s, Choose) && p == Select(s.m).top && p < |s.m.ready| && s.m.ready[p].items != []
    requires var m1 := Apply(s, Choose).m;
             p < |m1.ready| && m1.ready[p].at <= |m1.ready[p].items| && m1.ready[p].items == s.m.ready[p].items &&
             AreVisits(m1.ready[p], later)
    ensures AreVisits(s.m.ready[p], [Chosen(s.m)] + later)
  {
    hide AreVisits, Select, Chosen, RingOf;
    ChosenIsVisit(s.m);
    OneMoreVisit(s.m.ready[p], Chosen(s.m).c, later);
  }

  lemma {:induction false} VisitsPrefix<T>(ring: seq<T>, at: nat, k: nat, n: nat)
    requires at < |ring| && 1 < |ring| && k <= n
    ensures |L.Visits(ring, at, n)| == n
    ensures L.Visits(ring, at, n)[..k] == L.Visits(ring, at, k)
    decreases n
  {
    if 0 < n {
      var next := L.NextAt(at, |ring|);
      VisitsPrefix(ring, next, if k == 0 then 0 else k - 1, n - 1);
    }
  }

  // Equal share.  As long as the same co-routines of a priority are ready and none of a higher one
  // is when the scheduler chooses, its choices go round them in their order: whatever steps and
  // interrupts fall between, the next |items| choices run each of them once.
  lemma EqualShare(s: State, run: seq<Step>, p: nat, items: seq<nat>)
    requires Feasible(s, run) && Wf(s.m) && Steady(s, run, p, items) && items != []
    requires |items| <= |Choices(s, run)|
    ensures var choices := Choices(s, run);
            && (forall k :: 0 <= k < |items| ==> choices[k].Run? && Item(choices[k].c) == Order(s.m.ready[p])[k])
            && (forall c :: c in items ==> Run(c) in choices[..|items|])
  {
    hide Choices, Feasible, Steady, Wf, L.Visits, RingOf, L.Rotation;
    SteadyReady(s, run, p, items);
    ReadyIsRing(s.m, p);
    ChoicesAreVisits(s, run, p, items);
    var r, choices, n := s.m.ready[p], Choices(s, run), |items|;
    VisitsPrefix(RingOf(r), r.at, n, |choices|);
    L.RoundVisitsAll(RingOf(r), r.at, n);
    assert Order(r)[..n] == Order(r);
    assert forall k :: 0 <= k < n ==> L.Visits(RingOf(r), r.at, |choices|)[..n][k] == Order(r)[k];
    forall c | c in items
      ensures Run(c) in choices[..n]
    {
      var k := OrderHas(r, c);
      assert choices[..n][k] == Run(c);
    }
  }

  lemma SteadyReady(s: State, run: seq<Step>, p: nat, items: seq<nat>)
    requires Feasible(s, run) && Steady(s, run, p, items)
    ensures p < |s.m.ready| && s.m.ready[p].items == items
  {
  }

  lemma OrderHas(r: Ready, c: nat) returns (k: nat)
    requires r.at <= |r.items| && c in r.items
    ensures k < |r.items| && Order(r)[k] == Item(c)
  {
    hide RingOf, IndexOf;
    var p := IndexOf(r.items, c) + 1;
    ItemAt(r, p);
    k := if r.at < p then p - 1 - r.at else |r.items| - 1 - r.at + p;
  }
}
