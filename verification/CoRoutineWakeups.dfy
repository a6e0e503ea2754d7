/** Runs of the co-routine scheduler with interrupts between any two of its steps, and the tick at
    which a delayed co-routine wakes.
 */
module CoRoutineWakeups {
  import opened Ticks
  import opened SortedLists
  import opened CoRoutineModel
  import opened CoRoutineInvariant

  // Where vCoRoutineSchedule is; `left` is xPassedTicks.
  datatype Phase =
    | Resting
    | TakingPending
    | Ticking(left: nat)
    | Expiring(left: nat)

  // `current` is the co-routine the scheduler called last, if any was ready.
  datatype State = State(m: Model, phase: Phase, current: Choice)

  datatype Step =
    | NewCoRoutine(c: nat, priority: nat)
    | DelayCurrent(ticks: nat, event: Event)
    | CallScheduler
    | MovePending
    | StartTicks(passed: nat)
    | CountOne
    | ExpireOne
    | EndTick
    | Choose
    | Interrupt(v: nat)

  // Fewer than M ticks pass between two calls of the scheduler, and delays are 1..M-1 ticks.
  predicate Enabled(s: State, step: Step) {
    && Wf(s.m)
    && match step
       case NewCoRoutine(c, _) => s.phase == Resting && c !in s.m.priority
       case DelayCurrent(ticks, event) =>
         && s.phase == Resting && s.current.Run? && ReadyAt(s.m, s.current.c)
         && 0 < ticks < M && (event.On? ==> event.v in s.m.events)
       case CallScheduler => s.phase == Resting
       case MovePending => s.phase == TakingPending && s.m.pending != [] && s.m.pending[0].id in s.m.priority
       case StartTicks(passed) => s.phase == TakingPending && s.m.pending == [] && passed < M
       case CountOne => s.phase.Ticking? && 0 < s.phase.left
       case ExpireOne => s.phase.Expiring? && HeadExpired(s.m) && s.m.delayed[0].id in s.m.priority
       case EndTick => s.phase.Expiring? && !HeadExpired(s.m)
       case Choose => s.phase == Ticking(0)
       case Interrupt(v) => v in s.m.events && s.m.events[v] != []
  }

  function Apply(s: State, step: Step): (r: State)
    requires Enabled(s, step)
    ensures Wf(r.m)
  {
    match step
    case NewCoRoutine(c, priority) => s.(m := Create(s.m, c, priority))
    case DelayCurrent(ticks, event) => s.(m := Delay(s.m, s.current.c, ticks, event))
    case CallScheduler => s.(phase := TakingPending)
    case MovePending => s.(m := TakePending(s.m))
    case StartTicks(passed) => s.(phase := Ticking(passed))
    case CountOne => s.(m := CountTick(s.m), phase := Expiring(s.phase.left - 1))
    case ExpireOne => s.(m := TimeOut(s.m))
    case EndTick => s.(phase := Ticking(s.phase.left))
    case Choose => State(Select(s.m), Resting, Chosen(s.m))
    case Interrupt(v) => s.(m := EventOccurs(s.m, v))
  }

  function Slack(phase: Phase): nat {
    if phase.Expiring? then 1 else 0
  }

  ghost predicate RunInv(s: State) {
    Inv(s.m, Slack(s.phase))
  }

  lemma StepKeeps(s: State, step: Step)
    requires RunInv(s) && Enabled(s, step)
    ensures RunInv(Apply(s, step))
  {
    hide Inv, Create, Delay, TakePending, CountTick, TimeOut, Select, Chosen, EventOccurs;
    match step
    case NewCoRoutine(c, priority) => CreateKeeps(s.m, c, priority);
    case DelayCurrent(ticks, event) => DelayKeeps(s.m, s.current.c, ticks, event);
    case MovePending => TakePendingKeeps(s.m, 0);
    case CountOne => CountTickKeeps(s.m);
    case ExpireOne => TimeOutKeeps(s.m);
    case EndTick => NoneExpired(s.m);
    case Choose => SelectKeeps(s.m);
    case Interrupt(v) => EventOccursKeeps(s.m, v, Slack(s.phase));
    case CallScheduler =>
    case StartTicks(_) =>
  }

  ghost predicate Feasible(s: State, run: seq<Step>)
    decreases |run|
  {
    run == [] || (Enabled(s, run[0]) && Feasible(Apply(s, run[0]), run[1..]))
  }

  ghost function Exec(s: State, run: seq<Step>): State
    requires Feasible(s, run)
    decreases |run|
  {
    if run == [] then s else Exec(Apply(s, run[0]), run[1..])
  }

  lemma {:induction false} RunKeeps(s: State, run: seq<Step>)
    requires RunInv(s) && Feasible(s, run)
    ensures RunInv(Exec(s, run))
    decreases |run|
  {
    hide RunInv, Enabled, Apply;
    if run != [] {
      StepKeeps(s, run[0]);
      RunKeeps(Apply(s, run[0]), run[1..]);
    }
  }

  // The lists before the first co-routine is created.
  function Fresh(priorities: nat, events: set<nat>): State
    requires 0 < priorities
  {
    State(
      Model(map[], seq(priorities, _ => Ready([], 0)), 0, [], [], map v | v in events :: [], [], map[], map[], 0),
      Resting, NoneReady)
  }

  lemma FreshOk(priorities: nat, events: set<nat>)
    requires 0 < priorities
    ensures RunInv(Fresh(priorities, events))
  {
  }

  // The generic item of c is in one list only, once: the ready list of its priority, or the delay
  // list, or the overflow delay list.
  ghost predicate InOneList(m: Model, c: nat)
    requires Wf(m) && c in m.priority
  {
    var (r, d, o) := (c in m.ready[m.priority[c]].items, HasId(m.delayed, c), HasId(m.overflow, c));
    && ((r && !d && !o) || (!r && d && !o) || (!r && !d && o))
    && (forall p :: 0 <= p < |m.ready| && c in m.ready[p].items ==> p == m.priority[c])
    && (forall p :: 0 <= p < |m.ready| ==> Distinct(m.ready[p].items))
    && UniqueIds(m.delayed) && UniqueIds(m.overflow)
  }

  // The event item of c is in one list only, once, and then c is delayed.
  ghost predicate EventInOneList(m: Model, c: nat) {
    && (forall v :: v in m.events && HasId(m.events[v], c) ==>
          && (HasId(m.delayed, c) || HasId(m.overflow, c)) && !HasId(m.pending, c)
          && (forall u :: u in m.events && HasId(m.events[u], c) ==> u == v))
    && (HasId(m.pending, c) ==> HasId(m.delayed, c) || HasId(m.overflow, c))
    && UniqueIds(m.pending) && (forall v :: v in m.events ==> UniqueIds(m.events[v]))
  }

  lemma PlaceIsList(m: Model, slack: nat, c: nat)
    requires Inv(m, slack) && c in m.priority
    ensures InOneList(m, c)
    ensures m.place[c] == IsReady <==> !HasId(m.delayed, c) && !HasId(m.overflow, c)
  {
    hide EventsOk, WaitersDelayed, TopBounds, Sorted;
    if m.place[c] != IsReady {
      var e := Entry(c, m.place[c].wake);
      assert e in m.delayed ==> HasId(m.delayed, c);
      assert e in m.overflow ==> HasId(m.overflow, c);
    }
  }

  lemma EventIsWaiting(m: Model, slack: nat, c: nat)
    requires Inv(m, slack) && c in m.priority
    ensures EventInOneList(m, c)
  {
    hide ReadyOk, DelayedOk, TopBounds, TimesOk, InOneList;
    PlaceIsList(m, slack, c);
  }

  // Over every run: each co-routine is in exactly one ready or delay list, once; one whose event
  // item is in an event list or the pending list is delayed; every ready list above the top
  // priority is empty.
  lemma AlwaysInOnePlace(priorities: nat, events: set<nat>, run: seq<Step>, c: nat)
    requires 0 < priorities && Feasible(Fresh(priorities, events), run)
    ensures var m := Exec(Fresh(priorities, events), run).m;
            && Wf(m)
            && (c in m.priority ==> InOneList(m, c) && EventInOneList(m, c))
            && (forall p :: m.top < p < |m.ready| ==> m.ready[p].items == [])
  {
    FreshOk(priorities, events);
    RunKeeps(Fresh(priorities, events), run);
    var s := Exec(Fresh(priorities, events), run);
    hide Exec, Feasible, Fresh, ReadyOk, DelayedOk, EventsOk, TimesOk, InOneList, EventInOneList;
    if c in s.m.priority {
      PlaceIsList(s.m, Slack(s.phase), c);
      EventIsWaiting(s.m, Slack(s.phase), c);
    }
  }

  // ---- The tick at which a delayed co-routine wakes ----

  ghost predicate SleepsUntil(s: State, c: nat, wake: nat) {
    c in s.m.place && s.m.place[c] == IsDelayed(wake)
  }

  // It has not woken too late: its tick has not been dealt with yet.
  lemma NeverOverdue(s: State, c: nat, wake: nat)
    requires RunInv(s) && SleepsUntil(s, c, wake)
    ensures s.m.tick <= wake && (s.m.tick == wake ==> s.phase.Expiring?)
  {
    hide ReadyOk, EventsOk;
    if Entry(c, wake) in s.m.overflow {
      EarlierEpoch(s.m.tick, wake);
    }
  }

  // One step either lets the co-routine sleep on, or readies it: by a time-out, and then in the
  // iteration of exactly its wake tick, or because its event occurred.
  lemma WakesExactly(s: State, step: Step, c: nat, wake: nat)
    requires RunInv(s) && Enabled(s, step) && SleepsUntil(s, c, wake)
    ensures var s' := Apply(s, step);
            if step == ExpireOne && s.m.delayed[0].id == c then ReadyAt(s'.m, c) && s.m.tick == wake
            else if step == MovePending && s.m.pending[0].id == c then ReadyAt(s'.m, c) && s.m.tick < wake
            else SleepsUntil(s', c, wake)
  {
    hide ReadyOk, EventsOk, DelayedOk, TimesOk, TopBounds;
    hide Select, Chosen, Delay, TimeOut, TakePending, CountTick, Create, EventOccurs;
    match step
    case ExpireOne => ExpiryWakes(s, c, wake);
    case MovePending => PendingWakes(s, c, wake);
    case DelayCurrent(ticks, event) =>
      ReadyIsNotDelayed(s.m, s.current.c);
      DelayKeeps(s.m, s.current.c, ticks, event);
    case Choose => SelectPlace(s.m);
    case NewCoRoutine(d, priority) => CreatePlace(s.m, d, priority);
    case CountOne => CountPlace(s.m);
    case Interrupt(v) => EventPlace(s.m, v);
    case _ =>
  }

  lemma ExpiryWakes(s: State, c: nat, wake: nat)
    requires RunInv(s) && Enabled(s, ExpireOne) && SleepsUntil(s, c, wake)
    ensures if s.m.delayed[0].id == c then ReadyAt(TimeOut(s.m), c) && s.m.tick == wake
            else c in TimeOut(s.m).place && TimeOut(s.m).place[c] == IsDelayed(wake)
  {
    hide ReadyOk, EventsOk, DelayedOk, TimesOk, TopBounds, DropEvent, Enqueue;
    HeadKnown(s.m, 1);
    TimeOutKeeps(s.m);
    NeverOverdue(s, c, wake);
    TimeOutPlace(s.m);
  }

  lemma PendingWakes(s: State, c: nat, wake: nat)
    requires RunInv(s) && Enabled(s, MovePending) && SleepsUntil(s, c, wake)
    ensures if s.m.pending[0].id == c then ReadyAt(TakePending(s.m), c) && s.m.tick < wake
            else c in TakePending(s.m).place && TakePending(s.m).place[c] == IsDelayed(wake)
  {
    hide ReadyOk, EventsOk, DelayedOk, TimesOk, TopBounds, Without, Enqueue;
    PendingKnown(s.m, 0);
    TakePendingKeeps(s.m, 0);
    NeverOverdue(s, c, wake);
  }

  lemma TimeOutPlace(m: Model)
    requires Wf(m) && HeadExpired(m) && m.delayed[0].id in m.priority
    ensures TimeOut(m).place == m.place[m.delayed[0].id := IsReady]
  {
    hide Without, Enqueue;
  }

  lemma CreatePlace(m: Model, c: nat, priority: nat)
    requires Wf(m) && c !in m.priority
    ensures Create(m, c, priority).place == m.place[c := IsReady]
  {
    hide Enqueue;
  }

  lemma CountPlace(m: Model)
    requires Wf(m)
    ensures CountTick(m).place == m.place
  {
    hide Tick;
  }

  lemma EventPlace(m: Model, v: nat)
    requires Wf(m) && v in m.events && m.events[v] != []
    ensures EventOccurs(m, v).place == m.place
  {
  }

  lemma SelectPlace(m: Model)
    requires Wf(m)
    ensures Select(m).place == m.place
  {
  }

  datatype FirstWake = StillAsleep | TimedOut(tick: nat) | EventCame(tick: nat)

  // How and when a sleeping co-routine first wakes in a run.
  ghost function WakeIn(s: State, run: seq<Step>, c: nat): FirstWake
    requires Feasible(s, run)
    decreases |run|
  {
    if run == [] then StillAsleep
    else if run[0] == ExpireOne && s.m.delayed[0].id == c then TimedOut(s.m.tick)
    else if run[0] == MovePending && s.m.pending[0].id == c then EventCame(s.m.tick)
    else WakeIn(Apply(s, run[0]), run[1..], c)
  }

  // A co-routine that sleeps until `wake` times out, if it does, in the iteration of that tick;
  // an event can only come before; and it is asleep at the end only if that iteration is not over.
  lemma {:induction false} DelayIsExact(s: State, run: seq<Step>, c: nat, wake: nat)
    requires RunInv(s) && Feasible(s, run) && SleepsUntil(s, c, wake)
    ensures match WakeIn(s, run, c)
            case TimedOut(tick) => tick == wake
            case EventCame(tick) => tick < wake
            case StillAsleep =>
              var e := Exec(s, run);
              SleepsUntil(e, c, wake) && (e.m.tick < wake || (e.m.tick == wake && e.phase.Expiring?))
    decreases |run|
  {
    hide RunInv, Enabled, Apply, SleepsUntil;
    NeverOverdue(s, c, wake);
    if run != [] {
      WakesExactly(s, run[0], c, wake);
      StepKeeps(s, run[0]);
      if SleepsUntil(Apply(s, run[0]), c, wake) {
        DelayIsExact(Apply(s, run[0]), run[1..], c, wake);
      }
    }
  }

  lemma DelaySleeps(s: State, d: nat, event: Event)
    requires RunInv(s) && Enabled(s, DelayCurrent(d, event))
    ensures SleepsUntil(Apply(s, DelayCurrent(d, event)), s.current.c, s.m.tick + d)
  {
    hide Inv, Delay;
    DelayKeeps(s.m, s.current.c, d, event);
  }

  // So a co-routine that delays itself by d ticks at tick t is timed out in iteration t + d, in
  // which the wrapping counter reads (t + d) mod M.
  lemma DelayWakesAtItsTick(s: State, d: nat, event: Event, run: seq<Step>)
    requires RunInv(s) && Enabled(s, DelayCurrent(d, event))
    requires Feasible(Apply(s, DelayCurrent(d, event)), run)
    ensures var s1, c := Apply(s, DelayCurrent(d, event)), s.current.c;
            match WakeIn(s1, run, c)
            case TimedOut(tick) => tick == s.m.tick + d && Tick(tick) == Wrap(Tick(s.m.tick) + d)
            case EventCame(tick) => tick < s.m.tick + d
            case StillAsleep => Exec(s1, run).m.tick <= s.m.tick + d
  {
    hide RunInv, Delay, WakeIn, Exec, Feasible;
    var s1, c := Apply(s, DelayCurrent(d, event)), s.current.c;
    StepKeeps(s, DelayCurrent(d, event));
    assert SleepsUntil(s1, c, s.m.tick + d) by {
      DelaySleeps(s, d, event);
    }
    TickOfSum(s.m.tick, d);
    DelayIsExact(s1, run, c, s.m.tick + d);
  }
}
