/** Whole runs of the daemon and its environment, and what they mean for one auto-reload timer:
    its callbacks run for exactly T0 + P, T0 + 2P, ..., each once, in order and never early.
 */
module TimerDrift {
  import opened Ticks
  import opened SortedLists
  import opened TimerModel
  import opened TimerInvariant
  import opened TimerSwitch

  // ---- Runs ----

  // The daemon together with the true time.
  datatype World = World(m: Model, clock: nat)

  datatype Step =
    | Advance(ticks: nat)                  // time passes
    | Request(c: Command)                  // a task or an interrupt sends a command
    | SetReload(timer: nat, on: bool)      // a task changes the reload mode
    | TimerTask                            // the daemon looks at its lists
    | CommandTask                          // the daemon takes one command from its queue

  // What the environment owes the daemon.  It is scheduled often enough: samples are less than M
  // ticks apart while a timer is listed, and a start command is taken less than M ticks after the
  // time it carries.  A request does not carry a time from the future.
  ghost predicate Enabled(w: World, s: Step)
    requires Wf(w.m)
  {
    match s
    case Advance(_) => true
    case Request(c) => CommandOk(w.m.timers, c) && (c.Start? ==> c.at <= w.clock)
    case SetReload(t, _) => t in w.m.timers
    case TimerTask => SampleInTime(w.m, w.clock)
    case CommandTask =>
      && w.m.commands != []
      && SampleInTime(Accept(w.m), w.clock)
      && (w.m.commands[0].Start? ==> w.clock < w.m.commands[0].at + M)
  }

  function WithReload(m: Model, t: nat, on: bool): (r: Model)
    requires Wf(m) && t in m.timers
    ensures Wf(r) && r.timers.Keys == m.timers.Keys
  {
    m.(timers := m.timers[t := m.timers[t].(autoReload := on)])
  }

  ghost function Apply(w: World, s: Step): (r: World)
    requires Wf(w.m) && Enabled(w, s)
    ensures Wf(r.m)
  {
    match s
    case Advance(d) => w.(clock := w.clock + d)
    case Request(c) => w.(m := Post(w.m, c))
    case SetReload(t, on) => w.(m := WithReload(w.m, t, on))
    case TimerTask => w.(m := TimerPass(w.m, w.clock))
    case CommandTask => w.(m := CommandPass(w.m, w.clock))
  }

  ghost predicate Feasible(w: World, run: seq<Step>)
    requires Wf(w.m)
    decreases |run|
  {
    run == [] || (Enabled(w, run[0]) && Feasible(Apply(w, run[0]), run[1..]))
  }

  ghost function Exec(w: World, run: seq<Step>): (r: World)
    requires Wf(w.m) && Feasible(w, run)
    ensures Wf(r.m)
    decreases |run|
  {
    if run == [] then w else Exec(Apply(w, run[0]), run[1..])
  }

  // ---- The invariant of every run ----

  ghost predicate FiresSane(fired: seq<Fire>, clock: nat) {
    forall f :: f in fired ==> f.due <= f.at <= clock
  }

  ghost predicate CommandsSane(commands: seq<Command>, clock: nat) {
    forall c :: c in commands && c.Start? ==> c.at <= clock
  }

  // Besides the list invariant: nothing fires early, and no command carries a future time.
  ghost predicate WorldInv(w: World) {
    && Inv(w.m)
    && w.m.now <= w.clock
    && FiresSane(w.m.fired, w.clock)
    && CommandsSane(w.m.commands, w.clock)
  }

  ghost predicate Sane(m: Model, clock: nat) {
    FiresSane(m.fired, clock) && CommandsSane(m.commands, clock)
  }

  lemma {:induction false} DrainSane(m: Model, clock: nat, epoch: nat)
    requires ListsInv(m, epoch) && epoch < Epoch(clock) && Sane(m, clock)
    ensures Sane(Drain(m, clock), clock)
    decreases TicksLeft(m.current)
  {
    if m.current != [] {
      var e := m.current[0];
      assert e in m.current;
      EarlierEpoch(e.key, clock);
      DrainStepDecreases(m, clock);
      DrainStepInv(m, clock, epoch);
      DrainSane(DrainStep(m, clock), clock, epoch);
    }
  }

  lemma SampleSane(m: Model, clock: nat)
    requires Inv(m) && m.now <= clock && Sane(m, clock)
    ensures Sane(Sample(m, clock), clock)
  {
    if Epoch(clock) != Epoch(m.now) {
      EpochMonotone(m.now, clock);
      DrainSane(m, clock, Epoch(m.now));
    }
  }

  lemma ObeySane(m: Model, c: Command)
    requires Wf(m) && !c.Call? && CommandOk(m.timers, c)
    requires Sane(m, m.now)
    ensures Sane(Obey(m, c), m.now) && Obey(m, c).now == m.now
  {
  }

  lemma TimerTaskKeeps(w: World)
    requires WorldInv(w) && Enabled(w, TimerTask)
    ensures WorldInv(Apply(w, TimerTask))
  {
    hide ListsInv, WithinReach, Drain, InsertSorted;
    TimerPassInv(w.m, w.clock);
    SampleSane(w.m, w.clock);
  }

  lemma CommandTaskKeeps(w: World)
    requires WorldInv(w) && Enabled(w, CommandTask)
    ensures WorldInv(Apply(w, CommandTask))
  {
    var c := w.m.commands[0];
    assert c in w.m.commands;
    CommandPassInv(w.m, w.clock);
    AcceptInv(w.m);
    assert Sane(Accept(w.m), w.clock);
    if !c.Call? {
      SampleSane(Accept(w.m), w.clock);
      ObeySane(Sample(Accept(w.m), w.clock), c);
    }
  }

  lemma StepKeepsInvariant(w: World, s: Step)
    requires WorldInv(w) && Enabled(w, s)
    ensures WorldInv(Apply(w, s))
  {
    match s
    case Advance(_) =>
    case Request(_) =>
    case SetReload(_, _) =>
    case TimerTask => TimerTaskKeeps(w);
    case CommandTask => CommandTaskKeeps(w);
  }

  // New timers, nothing linked, requested or fired.
  ghost predicate FreshWorld(w: World) {
    && w.m.current == [] && w.m.overflow == [] && w.m.commands == [] && w.m.fired == [] && w.m.now <= w.clock
    && (forall t :: t in w.m.timers ==> 0 < w.m.timers[t].period < M)
  }

  lemma FreshWorldInv(w: World)
    requires FreshWorld(w)
    ensures WorldInv(w)
  {
  }

  lemma {:induction false} RunKeepsInvariant(w: World, run: seq<Step>)
    requires WorldInv(w) && Feasible(w, run)
    ensures WorldInv(Exec(w, run))
    decreases |run|
  {
    if run != [] {
      StepKeepsInvariant(w, run[0]);
      RunKeepsInvariant(Apply(w, run[0]), run[1..]);
    }
  }

  // ---- One auto-reload timer ----

  // The n-th expiry of a timer started at t0 with period p: t0 + n * p.
  function Rung(t0: nat, p: nat, n: nat): nat {
    if n == 0 then t0 else Rung(t0, p, n - 1) + p
  }

  function Ladder(t0: nat, p: nat, n: nat): seq<nat> {
    if n == 0 then [] else Ladder(t0, p, n - 1) + [Rung(t0, p, n)]
  }

  lemma {:induction false} RungIsMultiple(t0: nat, p: nat, n: nat)
    ensures Rung(t0, p, n) == t0 + n * p
  {
    if n > 0 {
      RungIsMultiple(t0, p, n - 1);
    }
  }

  ghost predicate LinkedAt(m: Model, e: Entry) {
    e in m.current || e in m.overflow
  }

  ghost predicate NotLinked(m: Model, t: nat) {
    forall e :: LinkedAt(m, e) ==> e.id != t
  }

  // After the expiry `last`, with the commands q for the timer queued since: either it is listed for
  // last + p and no other command for it is pending, or it is in no list and exactly one more
  // command, a restart carrying `last`, is pending behind them.
  ghost predicate Armed(m: Model, t: nat, p: nat, last: nat, q: seq<Command>) {
    || (LinkedAt(m, Entry(t, last + p)) && CommandsFor(t, m.commands) == q)
    || (NotLinked(m, t) && CommandsFor(t, m.commands) == q + [Start(t, last)])
  }

  ghost predicate AutoReload(m: Model, t: nat, p: nat) {
    t in m.timers && m.timers[t].autoReload && m.timers[t].period == p
  }

  // The timer has fired n times since t0, for its first n expiries, and is armed for the next;
  // `prior` is what it fired before, and q the commands for it that have yet to be taken.
  ghost predicate OnLadder(m: Model, t: nat, p: nat, t0: nat, prior: seq<nat>, n: nat, q: seq<Command>) {
    && AutoReload(m, t, p)
    && FiresOf(t, m.fired) == prior + Ladder(t0, p, n)
    && Armed(m, t, p, Rung(t0, p, n), q)
  }

  // Nothing that concerns timer t differs.
  ghost predicate SameFor(a: Model, b: Model, t: nat) {
    && (t in a.timers <==> t in b.timers)
    && (t in a.timers ==> a.timers[t].autoReload == b.timers[t].autoReload && a.timers[t].period == b.timers[t].period)
    && FiresOf(t, a.fired) == FiresOf(t, b.fired)
    && CommandsFor(t, a.commands) == CommandsFor(t, b.commands)
    && (forall e: Entry :: e.id == t ==> (LinkedAt(a, e) <==> LinkedAt(b, e)))
  }

  lemma SameForKeeps(a: Model, b: Model, t: nat, p: nat, t0: nat, prior: seq<nat>, n: nat, q: seq<Command>)
    requires SameFor(a, b, t)
    requires OnLadder(a, t, p, t0, prior, n, q)
    ensures OnLadder(b, t, p, t0, prior, n, q)
  {
  }

  // One more callback, for the next rung.
  lemma FiredNext(a: Model, b: Model, t: nat, p: nat, t0: nat, prior: seq<nat>, n: nat, q: seq<Command>)
    requires OnLadder(a, t, p, t0, prior, n, q)
    requires AutoReload(b, t, p) && Armed(b, t, p, Rung(t0, p, n + 1), q)
    requires FiresOf(t, b.fired) == FiresOf(t, a.fired) + [Rung(t0, p, n + 1)]
    ensures OnLadder(b, t, p, t0, prior, n + 1, q)
  {
    assert prior + Ladder(t0, p, n) + [Rung(t0, p, n + 1)] == prior + Ladder(t0, p, n + 1);
  }

  // ---- The parts of a step, for the timer and for others ----

  lemma InsertOther(m: Model, u: nat, base: nat, now: nat, t: nat)
    requires Wf(m) && u in m.timers && u != t
    ensures SameFor(m, Insert(m, u, base, now), t)
  {
  }

  lemma CallbackOther(m: Model, u: nat, due: nat, at: nat, t: nat)
    requires Wf(m) && u != t
    ensures SameFor(m, Callback(m, u, due, at), t)
  {
    FireAppended(t, m.fired, Fire(u, due, at));
  }

  lemma PostOther(m: Model, c: Command, t: nat)
    requires Wf(m) && CommandOk(m.timers, c) && (c.Call? || c.timer != t)
    ensures SameFor(m, Post(m, c), t)
  {
    CommandAppended(t, m.commands, c);
  }

  lemma PopOther(m: Model, t: nat)
    requires Wf(m) && m.current != [] && m.current[0].id != t
    ensures SameFor(m, m.(current := m.current[1..]), t)
  {
    assert m.current == [m.current[0]] + m.current[1..];
  }

  // The head of the current list, when it is the timer, is listed for the next rung.
  lemma HeadIsNext(m: Model, epoch: nat, t: nat, p: nat, last: nat, q: seq<Command>)
    requires ListsInv(m, epoch) && m.current != [] && m.current[0].id == t
    requires Armed(m, t, p, last, q)
    ensures m.current[0] == Entry(t, last + p) && CommandsFor(t, m.commands) == q
    ensures NotLinked(m.(current := m.current[1..]), t)
  {
    var e := m.current[0];
    assert LinkedAt(m, e);
    PopInv(m, epoch);
    if Entry(t, last + p) in m.current {
      UniqueEntry(m.current, e, Entry(t, last + p));
    }
  }

  lemma DrainStepOther(m: Model, at: nat, t: nat)
    requires Wf(m) && m.current != [] && m.current[0].id != t
    ensures SameFor(m, DrainStep(m, at), t)
  {
    var e := m.current[0];
    var m0 := m.(current := m.current[1..]);
    var m1 := Callback(m0, e.id, e.key, at);
    PopOther(m, t);
    CallbackOther(m0, e.id, e.key, at, t);
    if m.timers[e.id].autoReload {
      if Reloads(m) {
        assert SameFor(m1, DrainStep(m, at), t);
      } else {
        PostOther(m1, Start(e.id, e.key), t);
      }
    }
  }

  lemma DrainStepOnLadder(m: Model, at: nat, epoch: nat,
                          t: nat, p: nat, t0: nat, prior: seq<nat>, n: nat, q: seq<Command>)
    returns (n': nat)
    requires ListsInv(m, epoch) && m.current != []
    requires OnLadder(m, t, p, t0, prior, n, q)
    ensures n <= n' && OnLadder(DrainStep(m, at), t, p, t0, prior, n', q)
  {
    hide FiresOf, CommandsFor, Sorted, UniqueIds, InsertSorted, Epoch;
    if m.current[0].id != t {
      DrainStepOther(m, at, t);
      SameForKeeps(m, DrainStep(m, at), t, p, t0, prior, n, q);
      n' := n;
    } else {
      var due := Rung(t0, p, n + 1);
      HeadIsNext(m, epoch, t, p, Rung(t0, p, n), q);
      FireAppended(t, m.fired, Fire(t, due, at));
      CommandAppended(t, m.commands, Start(t, due));
      if Reloads(m) {
        HeadReloads(m, at);
      } else {
        HeadLeaves(m, at);
      }
      FiredNext(m, DrainStep(m, at), t, p, t0, prior, n, q);
      n' := n + 1;
    }
  }

  lemma {:induction false} DrainOnLadder(m: Model, at: nat, epoch: nat,
                                         t: nat, p: nat, t0: nat, prior: seq<nat>, n: nat, q: seq<Command>)
    returns (n': nat)
    requires ListsInv(m, epoch)
    requires OnLadder(m, t, p, t0, prior, n, q)
    ensures n <= n' && OnLadder(Drain(m, at), t, p, t0, prior, n', q)
    decreases TicksLeft(m.current)
  {
    if m.current == [] {
      n' := n;
    } else {
      DrainStepDecreases(m, at);
      DrainStepInv(m, at, epoch);
      var n1 := DrainStepOnLadder(m, at, epoch, t, p, t0, prior, n, q);
      n' := DrainOnLadder(DrainStep(m, at), at, epoch, t, p, t0, prior, n1, q);
    }
  }

  lemma SampleOnLadder(m: Model, now: nat, t: nat, p: nat, t0: nat, prior: seq<nat>, n: nat, q: seq<Command>)
    returns (n': nat)
    requires Inv(m) && OnLadder(m, t, p, t0, prior, n, q)
    ensures n <= n' && OnLadder(Sample(m, now), t, p, t0, prior, n', q)
  {
    if Epoch(now) == Epoch(m.now) {
      n' := n;
      SameForKeeps(m, Sample(m, now), t, p, t0, prior, n, q);
    } else {
      n' := DrainOnLadder(m, now, Epoch(m.now), t, p, t0, prior, n, q);
      SameForKeeps(Drain(m, now), Sample(m, now), t, p, t0, prior, n', q);
    }
  }

  // A sample neither fires nor arms a timer that is in no list.
  lemma SampleIdle(m: Model, now: nat, t: nat)
    requires Wf(m) && NotLinked(m, t)
    ensures SameFor(m, Sample(m, now), t)
  {
    if Epoch(now) != Epoch(m.now) {
      DrainAdds(m, now);
      OthersDoNotFire(m, now, t);
      FiresOfConcat(t, m.fired, Fires(m, now));
      CommandsForConcat(t, m.commands, Restarts(m, now));
      DrainUnlinked(m, now, t);
    }
  }

  lemma ProcessExpiredOnLadder(m: Model, t: nat, p: nat, t0: nat, prior: seq<nat>, n: nat, q: seq<Command>)
    returns (n': nat)
    requires Inv(m) && m.current != [] && m.current[0].key <= m.now
    requires OnLadder(m, t, p, t0, prior, n, q)
    ensures n <= n' && OnLadder(ProcessExpired(m), t, p, t0, prior, n', q)
  {
    hide FiresOf, CommandsFor, Sorted, UniqueIds, InsertSorted, WithinReach;
    var e := m.current[0];
    var m1 := m.(current := m.current[1..]);
    if e.id != t {
      ProcessExpiredOther(m, t);
      SameForKeeps(m, ProcessExpired(m), t, p, t0, prior, n, q);
      n' := n;
    } else {
      HeadIsNext(m, Epoch(m.now), t, p, Rung(t0, p, n), q);
      FireAppended(t, m.fired, Fire(t, e.key, m.now));
      CommandAppended(t, m.commands, Start(t, e.key));
      FiredNext(m, ProcessExpired(m), t, p, t0, prior, n, q);
      n' := n + 1;
    }
  }

  lemma ProcessExpiredOther(m: Model, t: nat)
    requires Wf(m) && m.current != [] && m.current[0].id != t
    ensures SameFor(m, ProcessExpired(m), t)
  {
    var e := m.current[0];
    var m1 := m.(current := m.current[1..]);
    PopOther(m, t);
    FireAppended(t, m.fired, Fire(e.id, e.key, m.now));
    if m.timers[e.id].autoReload {
      PostOther(m1, Start(e.id, e.key), t);
      InsertOther(m1, e.id, e.key, m.now, t);
    }
  }

  lemma TimerPassOnLadder(m: Model, now: nat, t: nat, p: nat, t0: nat, prior: seq<nat>, n: nat, q: seq<Command>)
    returns (n': nat)
    requires Inv(m) && SampleInTime(m, now)
    requires OnLadder(m, t, p, t0, prior, n, q)
    ensures n <= n' && OnLadder(TimerPass(m, now), t, p, t0, prior, n', q)
  {
    var s := Sample(m, now);
    SampleInv(m, now);
    n' := SampleOnLadder(m, now, t, p, t0, prior, n, q);
    if Epoch(now) == Epoch(m.now) && s.current != [] && s.current[0].key <= now {
      n' := ProcessExpiredOnLadder(s, t, p, t0, prior, n', q);
    }
  }

  // ---- A command for another timer ----

  lemma AcceptOther(m: Model, t: nat)
    requires Wf(m) && m.commands != [] && (m.commands[0].Call? || m.commands[0].timer != t)
    ensures SameFor(m, Accept(m), t)
  {
  }

  lemma ObeyOther(m: Model, c: Command, t: nat)
    requires Wf(m) && !c.Call? && CommandOk(m.timers, c) && c.timer != t
    ensures SameFor(m, Obey(m, c), t)
  {
    hide FiresOf, CommandsFor, InsertSorted, Epoch;
    match c
    case Start(u, at) => StartOther(m, u, at, t);
    case Stop(_) =>
    case Delete(_) =>
    case ChangePeriod(u, period) => InsertOther(SetPeriod(SetActive(m, u, true), u, period), u, m.now, m.now, t);
  }

  lemma StartOther(m: Model, u: nat, at: nat, t: nat)
    requires Wf(m) && u in m.timers && u != t
    ensures SameFor(m, DoStart(m, u, at), t)
  {
    hide Wf, FiresOf, CommandsFor, Insert;
    var m1 := SetActive(m, u, true);
    var due := at + m1.timers[u].period;
    InsertOther(m1, u, at, m.now, t);
    CallbackOther(m1, u, due, m.now, t);
    PostOther(Callback(m1, u, due, m.now), Start(u, due), t);
  }

  // ---- The timer's own (re)start ----

  // Its restart is taken, with the commands q behind it.
  lemma OwnStart(m: Model, now: nat, t: nat, p: nat, t0: nat, prior: seq<nat>, n: nat, q: seq<Command>)
    returns (n': nat)
    requires Inv(m) && m.commands != [] && m.commands[0] == Start(t, Rung(t0, p, n))
    requires NotLinked(m, t) && CommandsFor(t, m.commands[1..]) == q
    requires AutoReload(m, t, p) && FiresOf(t, m.fired) == prior + Ladder(t0, p, n)
    ensures n <= n' && OnLadder(CommandPass(m, now), t, p, t0, prior, n', q)
  {
    hide FiresOf, CommandsFor, OnLadder, Sample, DoStart, Ladder;
    AcceptInv(m);
    var a := Accept(m);
    assert NotLinked(a, t);
    SampleIdle(a, now, t);
    var s := Sample(a, now);
    n' := StartArms(s, t, p, t0, prior, n, q);
  }

  lemma StartArms(s: Model, t: nat, p: nat, t0: nat, prior: seq<nat>, n: nat, q: seq<Command>) returns (n': nat)
    requires Wf(s) && AutoReload(s, t, p) && NotLinked(s, t) && CommandsFor(t, s.commands) == q
    requires FiresOf(t, s.fired) == prior + Ladder(t0, p, n)
    ensures n <= n' && OnLadder(DoStart(s, t, Rung(t0, p, n)), t, p, t0, prior, n', q)
  {
    hide FiresOf, CommandsFor, InsertSorted, Epoch;
    var last, due := Rung(t0, p, n), Rung(t0, p, n + 1);
    FireAppended(t, s.fired, Fire(t, due, s.now));
    CommandAppended(t, s.commands, Start(t, due));
    if Classify(last, p, s.now) == Expired {
      n' := n + 1;
      assert prior + Ladder(t0, p, n) + [due] == prior + Ladder(t0, p, n + 1);
    } else {
      n' := n;
    }
  }

  // ---- One step ----

  // The step is not a command or a reload-mode change for timer t.
  predicate Leaves(s: Step, t: nat) {
    match s
    case Request(c) => c.Call? || c.timer != t
    case SetReload(u, _) => u != t
    case _ => true
  }

  // The step takes a command for timer t.
  ghost predicate TakesOwn(w: World, s: Step, t: nat) {
    s == CommandTask && w.m.commands != [] && !w.m.commands[0].Call? && w.m.commands[0].timer == t
  }

  lemma StepOnLadder(w: World, s: Step, t: nat, p: nat, t0: nat, prior: seq<nat>, n: nat, q: seq<Command>)
    returns (n': nat)
    requires WorldInv(w) && Enabled(w, s) && Leaves(s, t)
    requires OnLadder(w.m, t, p, t0, prior, n, q) && (q == [] || !TakesOwn(w, s, t))
    ensures n <= n' && OnLadder(Apply(w, s).m, t, p, t0, prior, n', q)
  {
    n' := n;
    match s
    case Advance(_) =>
    case Request(c) =>
      PostOther(w.m, c, t);
      SameForKeeps(w.m, Post(w.m, c), t, p, t0, prior, n, q);
    case SetReload(u, on) => SameForKeeps(w.m, WithReload(w.m, u, on), t, p, t0, prior, n, q);
    case TimerTask => n' := TimerPassOnLadder(w.m, w.clock, t, p, t0, prior, n, q);
    case CommandTask => n' := CommandOnLadder(w.m, w.clock, t, p, t0, prior, n, q);
  }

  lemma CommandOnLadder(m: Model, now: nat, t: nat, p: nat, t0: nat, prior: seq<nat>, n: nat, q: seq<Command>)
    returns (n': nat)
    requires Inv(m) && m.commands != [] && SampleInTime(Accept(m), now)
    requires OnLadder(m, t, p, t0, prior, n, q)
    requires q == [] || m.commands[0].Call? || m.commands[0].timer != t
    ensures n <= n' && OnLadder(CommandPass(m, now), t, p, t0, prior, n', q)
  {
    var c := m.commands[0];
    if !c.Call? && c.timer == t {
      assert CommandsFor(t, m.commands)[0] == c && CommandsFor(t, m.commands)[1..] == CommandsFor(t, m.commands[1..]);
      assert q + [Start(t, Rung(t0, p, n))] == [Start(t, Rung(t0, p, n))];
      assert c == Start(t, Rung(t0, p, n));
      n' := OwnStart(m, now, t, p, t0, prior, n, q);
    } else {
      AcceptInv(m);
      AcceptOther(m, t);
      SameForKeeps(m, Accept(m), t, p, t0, prior, n, q);
      n' := n;
      if !c.Call? {
        assert CommandOk(m.timers, c);
        n' := SampleOnLadder(Accept(m), now, t, p, t0, prior, n, q);
        ObeyOther(Sample(Accept(m), now), c, t);
        SameForKeeps(Sample(Accept(m), now), CommandPass(m, now), t, p, t0, prior, n', q);
      }
    }
  }

  // ---- What every step does to the queue, and to a timer in no list ----

  lemma ProcessExpiredKeepsQueue(m: Model)
    requires Wf(m) && m.current != []
    ensures m.commands <= ProcessExpired(m).commands
  {
    hide Wf, InsertSorted, Epoch;
  }

  lemma SampleKeepsQueue(m: Model, now: nat)
    requires Wf(m)
    ensures m.commands <= Sample(m, now).commands
  {
    if Epoch(now) != Epoch(m.now) {
      DrainAdds(m, now);
    }
  }

  lemma ObeyKeepsQueue(m: Model, c: Command)
    requires Wf(m) && !c.Call? && CommandOk(m.timers, c)
    ensures m.commands <= Obey(m, c).commands
  {
    hide Wf, InsertSorted, Epoch;
  }

  // The queue loses at most its head and otherwise only grows at its end.
  lemma StepKeepsQueue(w: World, s: Step)
    requires Wf(w.m) && Enabled(w, s)
    ensures (if s == CommandTask then w.m.commands[1..] else w.m.commands) <= Apply(w, s).m.commands
  {
    hide Wf, Sample, ProcessExpired, Obey, Without;
    match s
    case TimerTask =>
      SampleKeepsQueue(w.m, w.clock);
      if Sample(w.m, w.clock).current != [] {
        ProcessExpiredKeepsQueue(Sample(w.m, w.clock));
      }
    case CommandTask => CommandKeepsQueue(w.m, w.clock);
    case _ =>
  }

  lemma CommandKeepsQueue(m: Model, now: nat)
    requires Wf(m) && m.commands != []
    ensures m.commands[1..] <= CommandPass(m, now).commands
  {
    hide Wf, Sample, Obey, Without;
    var c, a := m.commands[0], Accept(m);
    if !c.Call? {
      HeadIsOk(m);
      SampleKeepsQueue(a, now);
      ObeyKeepsQueue(Sample(a, now), c);
    }
  }

  lemma HeadIsOk(m: Model)
    requires Wf(m) && m.commands != []
    ensures CommandOk(m.timers, m.commands[0])
  {
    assert m.commands[0] in m.commands;
  }

  lemma PassIdle(m: Model, now: nat, t: nat)
    requires Wf(m) && NotLinked(m, t)
    ensures SameFor(m, TimerPass(m, now), t)
  {
    hide FiresOf, CommandsFor, Sample, ProcessExpired, Wf;
    var s := Sample(m, now);
    SampleIdle(m, now, t);
    if Epoch(now) == Epoch(m.now) && s.current != [] && s.current[0].key <= now {
      assert LinkedAt(s, s.current[0]);
      ProcessExpiredOther(s, t);
    }
  }

  lemma CommandIdle(m: Model, now: nat, t: nat)
    requires Wf(m) && m.commands != [] && NotLinked(m, t)
    requires m.commands[0].Call? || m.commands[0].timer != t
    ensures SameFor(m, CommandPass(m, now), t)
  {
    hide FiresOf, CommandsFor, Sample, Obey, Wf;
    var c, a := m.commands[0], Accept(m);
    AcceptOther(m, t);
    if !c.Call? {
      HeadIsOk(m);
      SampleIdle(a, now, t);
      ObeyOther(Sample(a, now), c, t);
    }
  }

  // Nothing changes for a timer in no list until a command for it is taken.
  lemma StepIdle(w: World, s: Step, t: nat)
    requires Wf(w.m) && Enabled(w, s) && Leaves(s, t) && NotLinked(w.m, t) && !TakesOwn(w, s, t)
    ensures SameFor(w.m, Apply(w, s).m, t)
  {
    hide FiresOf, CommandsFor, TimerPass, CommandPass, NotLinked, Wf;
    match s
    case Request(c) => PostOther(w.m, c, t);
    case TimerTask => PassIdle(w.m, w.clock, t);
    case CommandTask => CommandIdle(w.m, w.clock, t);
    case _ =>
  }

  // ---- No drift ----

  // Over every run without further commands for the timer, it fires for the next rungs of the
  // ladder and for nothing else, and stays armed for exactly the rung after the last one fired.
  lemma {:induction false} NoDrift(w: World, run: seq<Step>, t: nat, p: nat, t0: nat, prior: seq<nat>, n: nat)
    returns (n': nat)
    requires WorldInv(w) && Feasible(w, run)
    requires forall s :: s in run ==> Leaves(s, t)
    requires OnLadder(w.m, t, p, t0, prior, n, [])
    ensures n <= n' && OnLadder(Exec(w, run).m, t, p, t0, prior, n', [])
    decreases |run|
  {
    n' := n;
    if run != [] {
      var n1 := StepOnLadder(w, run[0], t, p, t0, prior, n, []);
      StepKeepsInvariant(w, run[0]);
      n' := NoDrift(Apply(w, run[0]), run[1..], t, p, t0, prior, n1);
    }
  }

  // What a timer fired, from position `from` on, is t0 + p, t0 + 2p, ... without a gap
  // (Rung(t0, p, k) is t0 + k * p by RungIsMultiple).
  ghost predicate FiredLadder(fires: seq<nat>, p: nat, t0: nat, from: nat) {
    && from <= |fires|
    && (forall i :: from <= i < |fires| ==> fires[i] == Rung(t0, p, i - from + 1))
  }

  lemma {:induction false} LadderFrom(prior: seq<nat>, p: nat, t0: nat, n: nat)
    ensures FiredLadder(prior + Ladder(t0, p, n), p, t0, |prior|)
    ensures |Ladder(t0, p, n)| == n
  {
    if n > 0 {
      LadderFrom(prior, p, t0, n - 1);
      assert prior + Ladder(t0, p, n) == (prior + Ladder(t0, p, n - 1)) + [Rung(t0, p, n)];
    }
  }

  // From `prior` on the timer has fired for exactly its first n expiries since t0, none of them
  // early; and if the daemon has nothing left to do, nothing due is missing.
  ghost predicate KeepsTime(prior: seq<nat>, w: World, t: nat, p: nat, t0: nat, n: nat) {
    var fires := FiresOf(t, w.m.fired);
    && FiredLadder(fires, p, t0, |prior|) && prior <= fires && |fires| == |prior| + n
    && FiresSane(w.m.fired, w.clock)
    && (Settled(w.m, t) ==> w.m.now < Rung(t0, p, n + 1))
  }

  lemma LadderKeepsTime(prior: seq<nat>, w: World, t: nat, p: nat, t0: nat, n: nat)
    requires WorldInv(w) && OnLadder(w.m, t, p, t0, prior, n, [])
    ensures KeepsTime(prior, w, t, p, t0, n)
  {
    hide FiresOf, CommandsFor, AutoReload, NotLinked, FiresSane, CommandsSane, Inv;
    LadderFrom(prior, p, t0, n);
    if Settled(w.m, t) {
      SettledIsUpToDate(w.m, t, Rung(t0, p, n + 1));
    }
  }

  // An idle auto-reload timer with a start command for t0 queued, then left alone: at the end of
  // every run, what it has fired since is a gapless initial part of t0 + p, t0 + 2p, ...
  lemma QueuedStartKeepsTime(w: World, run: seq<Step>, t: nat, p: nat, t0: nat) returns (n: nat)
    requires WorldInv(w) && Feasible(w, run)
    requires forall s :: s in run ==> Leaves(s, t)
    requires AutoReload(w.m, t, p) && NotLinked(w.m, t) && CommandsFor(t, w.m.commands) == [Start(t, t0)]
    ensures KeepsTime(FiresOf(t, w.m.fired), Exec(w, run), t, p, t0, n)
  {
    hide Feasible, Exec, FiresOf, CommandsFor, AutoReload, NotLinked, FiresSane, CommandsSane, KeepsTime;
    var prior := FiresOf(t, w.m.fired);
    assert Ladder(t0, p, 0) == [] && prior + [] == prior;
    n := NoDrift(w, run, t, p, t0, prior, 0);
    RunKeepsInvariant(w, run);
    LadderKeepsTime(prior, Exec(w, run), t, p, t0, n);
  }

  // The daemon has no command for the timer left and nothing in its current list has expired:
  // the state in which it blocks.
  ghost predicate Settled(m: Model, t: nat) {
    CommandsFor(t, m.commands) == [] && (m.current != [] ==> m.now < m.current[0].key)
  }

  lemma SettledIsUpToDate(m: Model, t: nat, due: nat)
    requires Inv(m) && Settled(m, t) && LinkedAt(m, Entry(t, due))
    ensures m.now < due
  {
    if Entry(t, due) in m.current {
      assert m.current[0].key <= due;
    } else {
      EarlierEpoch(m.now, due);
    }
  }
}
