/** The timer daemon described in true time.

    Nothing in this file wraps: expiry times, command times and the sampled time are unbounded.
    TimerDaemon shows that the daemon, which only ever sees ticks, does exactly these steps.
 */
module TimerModel {
  import opened Ticks
  import opened SortedLists

  datatype Timer = Timer(period: nat, autoReload: bool, active: bool)

  // Start stands for start, reset and the daemon's own restart (and their ISR forms); `at` is
  // the time the command carries.  Call is a pended function call (negative message ids).
  datatype Command =
    | Start(timer: nat, at: nat)
    | Stop(timer: nat)
    | ChangePeriod(timer: nat, period: nat)
    | Delete(timer: nat)
    | Call(fn: nat)

  // One callback: the expiry it stands for and the sampled time at which it ran.
  datatype Fire = Fire(timer: nat, due: nat, at: nat)

  // `now` is the last sampled time (xLastTime); `fired` is the trace of callbacks, `ran` that of
  // pended function calls.
  datatype Model = Model(
    timers: map<nat, Timer>,
    current: seq<Entry>,
    overflow: seq<Entry>,
    commands: seq<Command>,
    now: nat,
    fired: seq<Fire>,
    ran: seq<nat>)

  // ---- Well-formed states ----

  predicate CommandOk(timers: map<nat, Timer>, c: Command) {
    c.Call? || (c.timer in timers && (c.ChangePeriod? ==> 0 < c.period < M))
  }

  ghost predicate Owned(timers: map<nat, Timer>, s: seq<Entry>) {
    forall e :: e in s ==> e.id in timers
  }

  // Periods are 1..M-1, and list items and commands name existing timers.
  ghost predicate Wf(m: Model) {
    && (forall t :: t in m.timers ==> 0 < m.timers[t].period < M)
    && Owned(m.timers, m.current)
    && Owned(m.timers, m.overflow)
    && (forall c :: c in m.commands ==> CommandOk(m.timers, c))
  }

  // ---- Insertion ----

  datatype Place = Expired | CurrentList | OverflowList

  // Where a timer belongs at time `now` if it was (re)started at `base`.
  function Classify(base: nat, period: nat, now: nat): Place {
    if base + period <= now then Expired
    else if Epoch(base + period) == Epoch(now) then CurrentList
    else OverflowList
  }

  // Links the timer unless it has expired already; then the caller has to process it.
  function Insert(m: Model, t: nat, base: nat, now: nat): (r: Model)
    requires Wf(m) && t in m.timers
    ensures Wf(r) && r.timers == m.timers
    ensures r.ran == m.ran
  {
    var e := Entry(t, base + m.timers[t].period);
    match Classify(base, m.timers[t].period, now)
    case Expired => m
    case CurrentList =>
      m.(current := InsertSorted(m.current, e))
    case OverflowList =>
      m.(overflow := InsertSorted(m.overflow, e))
  }

  function Unlink(m: Model, t: nat): (r: Model)
    requires Wf(m)
    ensures Wf(r) && r.timers == m.timers
    ensures r.ran == m.ran
  {
    m.(current := Without(m.current, t), overflow := Without(m.overflow, t))
  }

  function Post(m: Model, c: Command): (r: Model)
    requires Wf(m) && CommandOk(m.timers, c)
    ensures Wf(r) && r.timers == m.timers
    ensures r.ran == m.ran
  {
    m.(commands := m.commands + [c])
  }

  function Callback(m: Model, t: nat, due: nat, at: nat): (r: Model)
    requires Wf(m)
    ensures Wf(r) && r.timers == m.timers
    ensures r.ran == m.ran
  {
    m.(fired := m.fired + [Fire(t, due, at)])
  }

  function SetActive(m: Model, t: nat, active: bool): (r: Model)
    requires Wf(m) && t in m.timers
    ensures Wf(r) && r.timers.Keys == m.timers.Keys
    ensures r.ran == m.ran
  {
    m.(timers := m.timers[t := m.timers[t].(active := active)])
  }

  function SetPeriod(m: Model, t: nat, period: nat): (r: Model)
    requires Wf(m) && t in m.timers && 0 < period < M
    ensures Wf(r) && r.timers.Keys == m.timers.Keys
    ensures r.ran == m.ran
  {
    m.(timers := m.timers[t := m.timers[t].(period := period)])
  }

  // ---- Switching the lists ----

  // One turn of the switch loop: the head of the outgoing list fires; an auto-reload timer
  // stays in that list while its next expiry is in the same epoch, otherwise a restart command
  // carrying the expiry just fired is sent.
  function DrainStep(m: Model, at: nat): (r: Model)
    requires Wf(m) && m.current != []
    ensures Wf(r) && r.timers == m.timers
    ensures r.ran == m.ran
  {
    var e := m.current[0];
    var timer := m.timers[e.id];
    var m1 := Callback(m.(current := m.current[1..]), e.id, e.key, at);
    if !timer.autoReload then m1
    else if Epoch(e.key + timer.period) == Epoch(e.key) then
      var next := Entry(e.id, e.key + timer.period);
      m1.(current := InsertSorted(m1.current, next))
    else Post(m1, Start(e.id, e.key))
  }

  // What is left to do in the switch loop: the ticks from each listed expiry to the wrap.
  function TicksLeft(s: seq<Entry>): nat {
    if s == [] then 0 else M - Tick(s[0].key) + TicksLeft(s[1..])
  }

  lemma {:induction false} TicksLeftOfConcat(s: seq<Entry>, u: seq<Entry>)
    ensures TicksLeft(s + u) == TicksLeft(s) + TicksLeft(u)
  {
    if s == [] {
      assert s + u == u;
    } else {
      assert (s + u)[1..] == s[1..] + u;
      TicksLeftOfConcat(s[1..], u);
    }
  }

  lemma TicksLeftOfInsert(s: seq<Entry>, e: Entry)
    ensures TicksLeft(InsertSorted(s, e)) == TicksLeft(s) + M - Tick(e.key)
  {
    var p := InsertPos(Keys(s), e.key);
    assert s == s[..p] + s[p..];
    TicksLeftOfConcat(s[..p], s[p..]);
    TicksLeftOfConcat(s[..p] + [e], s[p..]);
    TicksLeftOfConcat(s[..p], [e]);
  }

  lemma DrainStepDecreases(m: Model, at: nat)
    requires Wf(m) && m.current != []
    ensures TicksLeft(DrainStep(m, at).current) < TicksLeft(m.current)
  {
    hide Tick, Epoch, InsertSorted;
    var e := m.current[0];
    var rest := m.current[1..];
    assert TicksLeft(m.current) == M - Tick(e.key) + TicksLeft(rest);
    var next := Entry(e.id, e.key + m.timers[e.id].period);
    if m.timers[e.id].autoReload && Epoch(next.key) == Epoch(e.key) {
      assert DrainStep(m, at).current == InsertSorted(rest, next);
      assert Tick(e.key) < Tick(next.key) by {
        SameEpochOrder(e.key, next.key);
      }
      TicksLeftOfInsert(rest, next);
    } else {
      assert DrainStep(m, at).current == rest;
    }
  }

  function Drain(m: Model, at: nat): (r: Model)
    requires Wf(m)
    ensures Wf(r) && r.timers == m.timers && r.current == []
    ensures r.ran == m.ran
    decreases TicksLeft(m.current)
  {
    if m.current == [] then m
    else
      DrainStepDecreases(m, at);
      Drain(DrainStep(m, at), at)
  }

  function Switch(m: Model, at: nat): (r: Model)
    requires Wf(m)
    ensures Wf(r) && r.timers == m.timers
    ensures r.ran == m.ran
  {
    var d := Drain(m, at);
    d.(current := d.overflow, overflow := d.current)
  }

  // ---- The daemon's steps ----

  function Sample(m: Model, now: nat): (r: Model)
    requires Wf(m)
    ensures Wf(r) && r.timers == m.timers && r.now == now
    ensures r.ran == m.ran
  {
    (if Epoch(now) == Epoch(m.now) then m else Switch(m, now)).(now := now)
  }

  // The head of the current list has expired: reload or deactivate it, then call back.
  function ProcessExpired(m: Model): (r: Model)
    requires Wf(m) && m.current != []
    ensures Wf(r) && r.timers.Keys == m.timers.Keys
    ensures r.ran == m.ran
  {
    var e := m.current[0];
    var timer := m.timers[e.id];
    var m1 := m.(current := m.current[1..]);
    var m2 :=
      if !timer.autoReload then SetActive(m1, e.id, false)
      else if Classify(e.key, timer.period, m.now) == Expired then Post(m1, Start(e.id, e.key))
      else Insert(m1, e.id, e.key, m.now);
    Callback(m2, e.id, e.key, m.now)
  }

  // One pass of the timer task before it looks at its queue.
  function TimerPass(m: Model, now: nat): (r: Model)
    requires Wf(m)
    ensures Wf(r) && r.timers.Keys == m.timers.Keys
    ensures r.ran == m.ran
  {
    var s := Sample(m, now);
    if Epoch(now) == Epoch(m.now) && s.current != [] && s.current[0].key <= now then ProcessExpired(s)
    else s
  }

  // A start command: link the timer, or fire it now and ask for a restart at that expiry.
  function DoStart(m: Model, t: nat, at: nat): (r: Model)
    requires Wf(m) && t in m.timers
    ensures Wf(r) && r.timers.Keys == m.timers.Keys
    ensures r.ran == m.ran
  {
    var m1 := SetActive(m, t, true);
    var timer := m1.timers[t];
    if Classify(at, timer.period, m.now) != Expired then Insert(m1, t, at, m.now)
    else
      var m2 := Callback(m1, t, at + timer.period, m.now);
      if timer.autoReload then Post(m2, Start(t, at + timer.period)) else m2
  }

  // A command before it takes effect: it leaves the queue, its timer leaves its list.  A pended
  // function call is run.
  function Accept(m: Model): (r: Model)
    requires Wf(m) && m.commands != []
    ensures Wf(r) && r.timers == m.timers
  {
    var c := m.commands[0];
    var m1 := m.(commands := m.commands[1..]);
    if c.Call? then m1.(ran := m.ran + [c.fn]) else Unlink(m1, c.timer)
  }

  // A timer command takes effect at the sampled time.
  function Obey(m: Model, c: Command): (r: Model)
    requires Wf(m) && !c.Call? && CommandOk(m.timers, c)
    ensures Wf(r) && r.timers.Keys == m.timers.Keys
    ensures r.ran == m.ran
  {
    match c
    case Start(t, at) => DoStart(m, t, at)
    case Stop(t) => SetActive(m, t, false)
    case Delete(t) => SetActive(m, t, false)
    case ChangePeriod(t, p) => Insert(SetPeriod(SetActive(m, t, true), t, p), t, m.now, m.now)
  }

  // One command taken from the queue.  The time is sampled after the timer left its list.
  function CommandPass(m: Model, now: nat): (r: Model)
    requires Wf(m) && m.commands != []
    ensures Wf(r) && r.timers.Keys == m.timers.Keys
  {
    var c := m.commands[0];
    if c.Call? then Accept(m)
    else
      assert CommandOk(m.timers, c);
      Obey(Sample(Accept(m), now), c)
  }
}
