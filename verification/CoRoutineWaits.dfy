/** A co-routine that waits for an event: where its event item is, from the delay to the wake-up, over
    every run with interrupts between any two steps of the scheduler.
 */
module CoRoutineWaits {
  import opened SortedLists
  import opened CoRoutineModel
  import opened CoRoutineInvariant
  import opened CoRoutineWakeups

  ghost predicate WaitsFor(m: Model, c: nat, v: nat) {
    c in m.container && m.container[c] == EventList(v) && v in m.events && HasId(m.events[v], c)
  }

  ghost predicate Called(m: Model, c: nat) {
    c in m.container && m.container[c] == PendingList && HasId(m.pending, c)
  }

  // The event occurs and finds c first on its list; c times out; the scheduler takes c from the
  // pending list.
  predicate Occurs(s: State, step: Step, c: nat, v: nat) {
    step == Interrupt(v) && v in s.m.events && s.m.events[v] != [] && s.m.events[v][0].id == c
  }

  predicate TimesOut(s: State, step: Step, c: nat) {
    step == ExpireOne && s.m.delayed != [] && s.m.delayed[0].id == c
  }

  predicate IsTaken(s: State, step: Step, c: nat) {
    step == MovePending && s.m.pending != [] && s.m.pending[0].id == c
  }

  // ---- What each step does to the containers ----

  lemma DelayContainer(m: Model, c: nat, ticks: nat, event: Event)
    requires Wf(m) && ReadyAt(m, c) && (event.On? ==> event.v in m.events)
    ensures Delay(m, c, ticks, event).container ==
              if event.On? then m.container[c := EventList(event.v)] else m.container
  {
    hide InsertSorted, Dequeue;
  }

  lemma TakePendingContainer(m: Model)
    requires Wf(m) && m.pending != [] && m.pending[0].id in m.priority
    ensures TakePending(m).container == m.container - {m.pending[0].id}
  {
    hide Without, Enqueue;
  }

  lemma TimeOutContainer(m: Model)
    requires Wf(m) && HeadExpired(m) && m.delayed[0].id in m.priority
    ensures TimeOut(m).container == m.container - {m.delayed[0].id}
  {
    hide Without, Enqueue;
    if m.delayed[0].id !in m.container {
      assert m.container - {m.delayed[0].id} == m.container;
    }
  }

  lemma CreateContainer(m: Model, c: nat, priority: nat)
    requires Wf(m) && c !in m.priority
    ensures Create(m, c, priority).container == m.container
  {
    hide Enqueue;
  }

  lemma ContainerAfter(s: State, step: Step)
    requires Enabled(s, step)
    ensures var before, after := s.m.container, Apply(s, step).m.container;
            match step
            case DelayCurrent(_, On(v)) => after == before[s.current.c := EventList(v)]
            case Interrupt(v) => after == before[s.m.events[v][0].id := PendingList]
            case MovePending => after == before - {s.m.pending[0].id}
            case ExpireOne => after == before - {s.m.delayed[0].id}
            case _ => after == before
  {
    hide Delay, TakePending, TimeOut, Create, CountTick, LowerTop;
    match step
    case DelayCurrent(ticks, event) => DelayContainer(s.m, s.current.c, ticks, event);
    case MovePending => TakePendingContainer(s.m);
    case ExpireOne => TimeOutContainer(s.m);
    case NewCoRoutine(c, priority) => CreateContainer(s.m, c, priority);
    case CountOne => CountContainer(s.m);
    case _ =>
  }

  lemma CountContainer(m: Model)
    requires Wf(m)
    ensures CountTick(m).container == m.container
  {
  }

  lemma ContainerIsList(m: Model, slack: nat, c: nat, v: nat)
    requires Inv(m, slack)
    ensures WaitsFor(m, c, v) <==> c in m.container && m.container[c] == EventList(v)
    ensures Called(m, c) <==> c in m.container && m.container[c] == PendingList
  {
    hide ReadyOk, DelayedOk, TopBounds, TimesOk, WaitersDelayed, Wf;
  }

  lemma PendingHeadIsCalled(m: Model, slack: nat)
    requires Inv(m, slack) && m.pending != []
    ensures Called(m, m.pending[0].id)
  {
    hide ReadyOk, DelayedOk, TopBounds, TimesOk, WaitersDelayed, Wf;
    assert m.pending[0] in m.pending;
  }

  lemma CurrentWaitsForNothing(m: Model, c: nat)
    requires Inv(m, 0) && ReadyAt(m, c)
    ensures c !in m.container
  {
    hide DelayedOk, TopBounds, TimesOk, EventsOk;
  }

  // ---- One step ----

  // A delay with an event puts the co-routine on the list of that event, one without on none.
  lemma DelayWaits(s: State, ticks: nat, event: Event)
    requires RunInv(s) && Enabled(s, DelayCurrent(ticks, event))
    ensures var m1, c := Apply(s, DelayCurrent(ticks, event)).m, s.current.c;
            if event.On? then WaitsFor(m1, c, event.v) else c !in m1.container
  {
    hide Inv, Apply;
    StepKeeps(s, DelayCurrent(ticks, event));
    ContainerAfter(s, DelayCurrent(ticks, event));
    CurrentWaitsForNothing(s.m, s.current.c);
    var s1 := Apply(s, DelayCurrent(ticks, event));
    if event.On? {
      ContainerIsList(s1.m, Slack(s1.phase), s.current.c, event.v);
    }
  }

  // A waiting co-routine stays on its event list, unless its event occurs while it is the first
  // there, and then it is on the pending list, or it times out, and then it is on neither.
  lemma WaitsExactly(s: State, step: Step, c: nat, v: nat)
    requires RunInv(s) && Enabled(s, step) && WaitsFor(s.m, c, v)
    ensures var m1 := Apply(s, step).m;
            if Occurs(s, step, c, v) then Called(m1, c)
            else if TimesOut(s, step, c) then c !in m1.container && ReadyAt(m1, c)
            else WaitsFor(m1, c, v)
  {
    hide Inv, Apply;
    StepKeeps(s, step);
    ContainerAfter(s, step);
    ContainerIsList(Apply(s, step).m, Slack(Apply(s, step).phase), c, v);
    match step
    case DelayCurrent(_, _) => CurrentWaitsForNothing(s.m, s.current.c);
    case MovePending => PendingHeadIsCalled(s.m, Slack(s.phase));
    case ExpireOne => TimedOutIsReady(s);
    case Interrupt(u) => FirstWaits(s.m, Slack(s.phase), u);
    case _ =>
  }

  lemma TimedOutIsReady(s: State)
    requires RunInv(s) && Enabled(s, ExpireOne)
    ensures ReadyAt(Apply(s, ExpireOne).m, s.m.delayed[0].id)
  {
    hide Inv, TimeOut;
    TimeOutKeeps(s.m);
  }

  lemma FirstWaits(m: Model, slack: nat, v: nat)
    requires Inv(m, slack) && v in m.events && m.events[v] != []
    ensures WaitsFor(m, m.events[v][0].id, v)
  {
    hide ReadyOk, DelayedOk, TopBounds, TimesOk, WaitersDelayed, Wf;
    assert m.events[v][0] in m.events[v];
  }

  // One whose event has occurred stays on the pending list until the scheduler takes it from there
  // or it times out first; either way it is then ready.
  lemma CalledExactly(s: State, step: Step, c: nat)
    requires RunInv(s) && Enabled(s, step) && Called(s.m, c)
    ensures var m1 := Apply(s, step).m;
            if IsTaken(s, step, c) || TimesOut(s, step, c) then c !in m1.container && ReadyAt(m1, c)
            else Called(m1, c)
  {
    hide Inv, Apply;
    StepKeeps(s, step);
    ContainerAfter(s, step);
    ContainerIsList(Apply(s, step).m, Slack(Apply(s, step).phase), c, 0);
    match step
    case DelayCurrent(_, _) => CurrentWaitsForNothing(s.m, s.current.c);
    case MovePending => TakenIsReady(s);
    case ExpireOne => TimedOutIsReady(s);
    case Interrupt(u) => FirstWaits(s.m, Slack(s.phase), u);
    case _ =>
  }

  lemma TakenIsReady(s: State)
    requires RunInv(s) && Enabled(s, MovePending)
    ensures ReadyAt(Apply(s, MovePending).m, s.m.pending[0].id)
  {
    hide Inv, TakePending;
    TakePendingKeeps(s.m, 0);
  }

  // ---- Whole runs ----

  // How the wait of c for v ends in a run, if it does.
  datatype End = StillWaiting | EventFirst | TimeFirst

  ghost function EndOfWait(s: State, run: seq<Step>, c: nat, v: nat): End
    requires Feasible(s, run)
    decreases |run|
  {
    if run == [] then StillWaiting
    else if Occurs(s, run[0], c, v) then EventFirst
    else if TimesOut(s, run[0], c) then TimeFirst
    else EndOfWait(Apply(s, run[0]), run[1..], c, v)
  }

  // Over every run: a waiting co-routine is on its event list, once, until an event finds it first
  // there or its time expires.
  lemma {:induction false} StaysOnItsList(s: State, run: seq<Step>, c: nat, v: nat)
    requires RunInv(s) && Feasible(s, run) && WaitsFor(s.m, c, v) && EndOfWait(s, run, c, v) == StillWaiting
    ensures WaitsFor(Exec(s, run).m, c, v) && UniqueIds(Exec(s, run).m.events[v])
    decreases |run|
  {
    hide RunInv, Enabled, Apply, WaitsFor;
    if run == [] {
      OnceOnItsList(s, c, v);
    } else {
      WaitsExactly(s, run[0], c, v);
      StepKeeps(s, run[0]);
      StaysOnItsList(Apply(s, run[0]), run[1..], c, v);
    }
  }

  lemma OnceOnItsList(s: State, c: nat, v: nat)
    requires RunInv(s) && WaitsFor(s.m, c, v)
    ensures v in s.m.events && UniqueIds(s.m.events[v])
  {
    hide ReadyOk, DelayedOk, TopBounds, TimesOk, WaitersDelayed, Wf;
  }
}
