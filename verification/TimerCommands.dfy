/** What commands do to their timer, linked or not, from the moment they are taken: at once, and
    for start commands over whole runs.  An auto-reload timer then keeps time from the time its
    start carries; a one-shot timer fires for its expiry once, not early, and never again.
 */
module TimerCommands {
  import opened Ticks
  import opened SortedLists
  import opened TimerModel
  import opened TimerInvariant
  import opened TimerSwitch
  import opened TimerDrift

  // ---- One command ----

  // The timer of a command leaves its list before the time is sampled, so the sample cannot fire it.
  lemma CommandedIsIdle(m: Model, now: nat)
    requires Inv(m) && m.commands != [] && !m.commands[0].Call?
    ensures var t, s := m.commands[0].timer, Sample(Accept(m), now);
            && NotLinked(s, t) && FiresOf(t, s.fired) == FiresOf(t, m.fired)
            && CommandsFor(t, s.commands) == CommandsFor(t, m.commands[1..])
  {
    var t, a := m.commands[0].timer, Accept(m);
    AcceptInv(m);
    assert NotLinked(a, t);
    SampleIdle(a, now, t);
  }

  // A stopped (or deleted) timer is inactive, in no list, and has not fired on the way.
  lemma StopStops(m: Model, now: nat)
    requires Inv(m) && m.commands != [] && (m.commands[0].Stop? || m.commands[0].Delete?)
    ensures var t, r := m.commands[0].timer, CommandPass(m, now);
            && NotLinked(r, t) && FiresOf(t, r.fired) == FiresOf(t, m.fired)
            && t in m.timers && r.timers == m.timers[t := m.timers[t].(active := false)]
            && CommandsFor(t, r.commands) == CommandsFor(t, m.commands[1..])
  {
    HeadIsOk(m);
    CommandedIsIdle(m, now);
  }

  // A new period counts from now: the timer is active and listed for exactly now + period.
  lemma PeriodCountsFromNow(m: Model, now: nat)
    requires Inv(m) && m.commands != [] && m.commands[0].ChangePeriod?
    ensures var (t, p), r := (m.commands[0].timer, m.commands[0].period), CommandPass(m, now);
            && LinkedAt(r, Entry(t, now + p)) && (forall e :: LinkedAt(r, e) && e.id == t ==> e.key == now + p)
            && t in m.timers && r.timers == m.timers[t := m.timers[t].(active := true, period := p)]
            && FiresOf(t, r.fired) == FiresOf(t, m.fired)
            && CommandsFor(t, r.commands) == CommandsFor(t, m.commands[1..])
  {
    hide Sample, Accept, FiresOf, CommandsFor, InsertSorted, Inv;
    InvIsWf(m);
    assert CommandOk(m.timers, m.commands[0]);
    CommandedIsIdle(m, now);
  }

  // A start fires at once exactly if the expiry has passed; otherwise the timer is listed for it.
  // An auto-reload timer that fired asks for a restart at the expiry just fired.
  lemma StartStarts(m: Model, now: nat)
    requires Inv(m) && m.commands != [] && m.commands[0].Start?
    ensures m.commands[0].timer in m.timers
    ensures var (t, at), r := (m.commands[0].timer, m.commands[0].at), CommandPass(m, now);
            && StartedBy(m, r, t, at + m.timers[t].period, now, CommandsFor(t, m.commands[1..]))
            && r.timers == m.timers[t := m.timers[t].(active := true)]
  {
    hide Sample, Accept, FiresOf, CommandsFor;
    var t, at := m.commands[0].timer, m.commands[0].at;
    assert CommandOk(m.timers, m.commands[0]);
    CommandedIsIdle(m, now);
    DoStartStarts(Sample(Accept(m), now), t, at);
    StartMarks(Sample(Accept(m), now), t, at);
  }

  lemma StartMarks(s: Model, t: nat, at: nat)
    requires Wf(s) && t in s.timers
    ensures DoStart(s, t, at).timers == s.timers[t := s.timers[t].(active := true)]
  {
    hide Wf, InsertSorted, Classify;
  }

  // A pass of the timer task changes the record of one timer at most: a one-shot timer that has
  // expired becomes inactive.
  lemma PassMarksOne(m: Model, now: nat)
    requires Wf(m)
    ensures var expired := Epoch(now) == Epoch(m.now) && m.current != [] && m.current[0].key <= now;
            var timers := TimerPass(m, now).timers;
            if expired && !m.timers[m.current[0].id].autoReload then
              timers == m.timers[m.current[0].id := m.timers[m.current[0].id].(active := false)]
            else timers == m.timers
  {
    hide Wf, InsertSorted, Classify, Drain, Epoch;
  }

  // The head of the current list has expired: it fires for its expiry.  An auto-reload timer is then
  // listed for its next expiry if that lies ahead, and otherwise asks for a restart at this one; a
  // one-shot timer becomes inactive.
  lemma ExpiredExactly(m: Model)
    requires Inv(m) && m.current != [] && m.current[0].key <= m.now
    ensures m.current[0].id in m.timers
    ensures var (e, r) := (m.current[0], ProcessExpired(m));
            var next := e.key + m.timers[e.id].period;
            && r.fired == m.fired + [Fire(e.id, e.key, m.now)]
            && if !m.timers[e.id].autoReload then
                 NotLinked(r, e.id) && !r.timers[e.id].active && r.commands == m.commands
               else if m.now < next then
                 && LinkedAt(r, Entry(e.id, next)) && (forall f :: LinkedAt(r, f) && f.id == e.id ==> f.key == next)
                 && r.commands == m.commands && r.timers == m.timers
               else
                 NotLinked(r, e.id) && r.commands == m.commands + [Start(e.id, e.key)] && r.timers == m.timers
  {
    hide Sorted, InsertSorted, Epoch, WithinReach;
    assert m.current[0] in m.current;
    PopInv(m, Epoch(m.now));
  }

  ghost predicate StartedBy(m: Model, r: Model, t: nat, due: nat, now: nat, pending: seq<Command>)
    requires t in m.timers
  {
    if due <= now then
      && NotLinked(r, t) && FiresOf(t, r.fired) == FiresOf(t, m.fired) + [due]
      && CommandsFor(t, r.commands) == pending + (if m.timers[t].autoReload then [Start(t, due)] else [])
    else
      && LinkedAt(r, Entry(t, due)) && FiresOf(t, r.fired) == FiresOf(t, m.fired)
      && CommandsFor(t, r.commands) == pending
  }

  lemma DoStartStarts(s: Model, t: nat, at: nat)
    requires Wf(s) && t in s.timers && NotLinked(s, t)
    ensures StartedBy(s, DoStart(s, t, at), t, at + s.timers[t].period, s.now, CommandsFor(t, s.commands))
  {
    hide Wf, FiresOf, CommandsFor, DoStart, NotLinked;
    var due, pending := at + s.timers[t].period, CommandsFor(t, s.commands);
    assert pending + [] == pending;
    if due <= s.now {
      FireAppended(t, s.fired, Fire(t, due, s.now));
      CommandAppended(t, s.commands, Start(t, due));
      StartFires(s, t, at);
    } else {
      StartLinks(s, t, at);
    }
  }

  lemma StartFires(s: Model, t: nat, at: nat)
    requires Wf(s) && t in s.timers && NotLinked(s, t) && at + s.timers[t].period <= s.now
    ensures var r, due := DoStart(s, t, at), at + s.timers[t].period;
            && NotLinked(r, t) && r.fired == s.fired + [Fire(t, due, s.now)]
            && r.commands == if s.timers[t].autoReload then s.commands + [Start(t, due)] else s.commands
  {
    hide Wf;
  }

  lemma StartLinks(s: Model, t: nat, at: nat)
    requires Wf(s) && t in s.timers && s.now < at + s.timers[t].period
    ensures var r, due := DoStart(s, t, at), at + s.timers[t].period;
            LinkedAt(r, Entry(t, due)) && r.fired == s.fired && r.commands == s.commands
  {
    hide Wf, InsertSorted;
  }

  // ---- An auto-reload timer over whole runs ----

  // Whatever the timer was doing, taking a start command puts it on the ladder of the time that
  // the command carries, with the commands for it that were queued behind yet to be taken.
  lemma StartTakenArms(w: World, t: nat, p: nat, t0: nat) returns (n: nat)
    requires WorldInv(w) && Enabled(w, CommandTask) && w.m.commands[0] == Start(t, t0)
    requires AutoReload(w.m, t, p)
    ensures OnLadder(Apply(w, CommandTask).m, t, p, t0, FiresOf(t, w.m.fired), n, CommandsFor(t, w.m.commands[1..]))
  {
    hide Sample, Accept, FiresOf, CommandsFor, NotLinked, OnLadder, DoStart;
    var prior := FiresOf(t, w.m.fired);
    CommandedIsIdle(w.m, w.clock);
    assert Ladder(t0, p, 0) == [] && prior + [] == prior;
    n := StartArms(Sample(Accept(w.m), w.clock), t, p, t0, prior, 0, CommandsFor(t, w.m.commands[1..]));
  }

  // An auto-reload timer is started or reset for t0 and then left alone, with no other command of
  // its own queued behind: from the moment the command is taken, over every run, it fires for
  // exactly t0 + p, t0 + 2p, ...
  lemma StartedTimerKeepsTime(w: World, run: seq<Step>, t: nat, p: nat, t0: nat) returns (n: nat)
    requires WorldInv(w) && Enabled(w, CommandTask) && w.m.commands[0] == Start(t, t0)
    requires AutoReload(w.m, t, p) && CommandsFor(t, w.m.commands[1..]) == []
    requires Feasible(Apply(w, CommandTask), run)
    requires forall s :: s in run ==> Leaves(s, t)
    ensures KeepsTime(FiresOf(t, w.m.fired), Exec(Apply(w, CommandTask), run), t, p, t0, n)
  {
    hide Feasible, Exec, FiresOf, CommandsFor, AutoReload, OnLadder, FiresSane, CommandsSane, KeepsTime, Apply, Enabled;
    var w1, prior := Apply(w, CommandTask), FiresOf(t, w.m.fired);
    StepKeepsInvariant(w, CommandTask);
    n := StartTakenArms(w, t, p, t0);
    n := NoDrift(w1, run, t, p, t0, prior, n);
    RunKeepsInvariant(w1, run);
    LadderKeepsTime(prior, Exec(w1, run), t, p, t0, n);
  }

  // ---- A one-shot timer over whole runs ----

  ghost predicate OneShot(m: Model, t: nat, p: nat) {
    t in m.timers && !m.timers[t].autoReload && m.timers[t].period == p
  }

  // Before it fires it is listed for t0 + p or its start command is pending; afterwards neither.
  ghost predicate FiresOnce(m: Model, t: nat, p: nat, t0: nat, prior: seq<nat>, done: bool) {
    && OneShot(m, t, p)
    && if done then NotLinked(m, t) && CommandsFor(t, m.commands) == [] && FiresOf(t, m.fired) == prior + [t0 + p]
       else Armed(m, t, p, t0, []) && FiresOf(t, m.fired) == prior
  }

  lemma SameForOnce(a: Model, b: Model, t: nat, p: nat, t0: nat, prior: seq<nat>, done: bool)
    requires SameFor(a, b, t) && FiresOnce(a, t, p, t0, prior, done)
    ensures FiresOnce(b, t, p, t0, prior, done)
  {
  }

  lemma HeadFires(m: Model, epoch: nat, t: nat, p: nat, t0: nat, prior: seq<nat>, done: bool)
    requires ListsInv(m, epoch) && m.current != [] && m.current[0].id == t
    requires FiresOnce(m, t, p, t0, prior, done)
    ensures !done && m.current[0] == Entry(t, t0 + p) && CommandsFor(t, m.commands) == []
    ensures NotLinked(m.(current := m.current[1..]), t)
  {
    assert LinkedAt(m, m.current[0]);
    if !done {
      HeadIsNext(m, epoch, t, p, t0, []);
    }
  }

  lemma {:induction false} DrainOnce(m: Model, at: nat, epoch: nat,
                                     t: nat, p: nat, t0: nat, prior: seq<nat>, done: bool)
    returns (done': bool)
    requires ListsInv(m, epoch) && FiresOnce(m, t, p, t0, prior, done)
    ensures (done ==> done') && FiresOnce(Drain(m, at), t, p, t0, prior, done')
    decreases TicksLeft(m.current)
  {
    hide FiresOf, CommandsFor, Sorted, UniqueIds, InsertSorted, Epoch, TicksLeft;
    done' := done;
    if m.current != [] {
      var m1 := DrainStep(m, at);
      DrainStepDecreases(m, at);
      DrainStepInv(m, at, epoch);
      if m.current[0].id != t {
        DrainStepOther(m, at, t);
        SameForOnce(m, m1, t, p, t0, prior, done);
      } else {
        HeadFires(m, epoch, t, p, t0, prior, done);
        FireAppended(t, m.fired, Fire(t, t0 + p, at));
        HeadLeaves(m, at);
        done' := true;
      }
      done' := DrainOnce(m1, at, epoch, t, p, t0, prior, done');
    }
  }

  lemma SampleOnce(m: Model, now: nat, t: nat, p: nat, t0: nat, prior: seq<nat>, done: bool) returns (done': bool)
    requires Inv(m) && FiresOnce(m, t, p, t0, prior, done)
    ensures (done ==> done') && FiresOnce(Sample(m, now), t, p, t0, prior, done')
  {
    hide Drain;
    done' := done;
    if Epoch(now) == Epoch(m.now) {
      SameForOnce(m, Sample(m, now), t, p, t0, prior, done);
    } else {
      done' := DrainOnce(m, now, Epoch(m.now), t, p, t0, prior, done);
      SameForOnce(Drain(m, now), Sample(m, now), t, p, t0, prior, done');
    }
  }

  lemma ProcessExpiredOnce(m: Model, t: nat, p: nat, t0: nat, prior: seq<nat>, done: bool) returns (done': bool)
    requires Inv(m) && m.current != [] && FiresOnce(m, t, p, t0, prior, done)
    ensures (done ==> done') && FiresOnce(ProcessExpired(m), t, p, t0, prior, done')
  {
    done' := done;
    if m.current[0].id != t {
      ProcessExpiredOther(m, t);
      SameForOnce(m, ProcessExpired(m), t, p, t0, prior, done);
    } else {
      HeadFires(m, Epoch(m.now), t, p, t0, prior, done);
      FireAppended(t, m.fired, Fire(t, t0 + p, m.now));
      done' := true;
    }
  }

  lemma TimerPassOnce(m: Model, now: nat, t: nat, p: nat, t0: nat, prior: seq<nat>, done: bool) returns (done': bool)
    requires Inv(m) && SampleInTime(m, now) && FiresOnce(m, t, p, t0, prior, done)
    ensures (done ==> done') && FiresOnce(TimerPass(m, now), t, p, t0, prior, done')
  {
    hide Sample, ProcessExpired, FiresOnce;
    var s := Sample(m, now);
    SampleInv(m, now);
    done' := SampleOnce(m, now, t, p, t0, prior, done);
    if Epoch(now) == Epoch(m.now) && s.current != [] && s.current[0].key <= now {
      done' := ProcessExpiredOnce(s, t, p, t0, prior, done');
    }
  }

  lemma CommandOnce(m: Model, now: nat, t: nat, p: nat, t0: nat, prior: seq<nat>, done: bool) returns (done': bool)
    requires Inv(m) && m.commands != [] && SampleInTime(Accept(m), now) && FiresOnce(m, t, p, t0, prior, done)
    ensures (done ==> done') && FiresOnce(CommandPass(m, now), t, p, t0, prior, done')
  {
    var c := m.commands[0];
    if !c.Call? && c.timer == t {
      assert CommandsFor(t, m.commands)[0] == c;
      assert c == Start(t, t0) && CommandsFor(t, m.commands[1..]) == [];
      done' := OwnStartOnce(m, now, t, p, t0, prior);
    } else {
      AcceptInv(m);
      AcceptOther(m, t);
      SameForOnce(m, Accept(m), t, p, t0, prior, done);
      done' := done;
      if !c.Call? {
        assert CommandOk(m.timers, c);
        done' := SampleOnce(Accept(m), now, t, p, t0, prior, done);
        ObeyOther(Sample(Accept(m), now), c, t);
        SameForOnce(Sample(Accept(m), now), CommandPass(m, now), t, p, t0, prior, done');
      }
    }
  }

  lemma OwnStartOnce(m: Model, now: nat, t: nat, p: nat, t0: nat, prior: seq<nat>) returns (done: bool)
    requires Inv(m) && m.commands != [] && m.commands[0] == Start(t, t0) && OneShot(m, t, p)
    requires CommandsFor(t, m.commands[1..]) == [] && FiresOf(t, m.fired) == prior
    ensures FiresOnce(CommandPass(m, now), t, p, t0, prior, done)
  {
    hide Sample, FiresOf, CommandsFor, Insert;
    StartStarts(m, now);
    done := t0 + p <= now;
  }

  lemma StepOnce(w: World, s: Step, t: nat, p: nat, t0: nat, prior: seq<nat>, done: bool) returns (done': bool)
    requires WorldInv(w) && Enabled(w, s) && Leaves(s, t) && FiresOnce(w.m, t, p, t0, prior, done)
    ensures (done ==> done') && FiresOnce(Apply(w, s).m, t, p, t0, prior, done')
  {
    done' := done;
    match s
    case Advance(_) =>
    case Request(c) =>
      PostOther(w.m, c, t);
      SameForOnce(w.m, Post(w.m, c), t, p, t0, prior, done);
    case SetReload(u, on) => SameForOnce(w.m, WithReload(w.m, u, on), t, p, t0, prior, done);
    case TimerTask => done' := TimerPassOnce(w.m, w.clock, t, p, t0, prior, done);
    case CommandTask => done' := CommandOnce(w.m, w.clock, t, p, t0, prior, done);
  }

  lemma {:induction false} RunOnce(w: World, run: seq<Step>, t: nat, p: nat, t0: nat, prior: seq<nat>, done: bool)
    returns (done': bool)
    requires WorldInv(w) && Feasible(w, run) && FiresOnce(w.m, t, p, t0, prior, done)
    requires forall s :: s in run ==> Leaves(s, t)
    ensures (done ==> done') && FiresOnce(Exec(w, run).m, t, p, t0, prior, done')
    decreases |run|
  {
    hide FiresOnce, Enabled, Apply, Leaves, FiresSane, CommandsSane;
    done' := done;
    if run != [] {
      var done1 := StepOnce(w, run[0], t, p, t0, prior, done);
      StepKeepsInvariant(w, run[0]);
      done' := RunOnce(Apply(w, run[0]), run[1..], t, p, t0, prior, done1);
    }
  }

  // From `prior` on the one-shot timer has fired at most once, for t0 + p and not early; once it
  // has, nothing of it is left; and it has, if the daemon has nothing left to do and t0 + p has passed.
  ghost predicate FiredOnce(prior: seq<nat>, w: World, t: nat, p: nat, t0: nat, done: bool) {
    && FiresOf(t, w.m.fired) == prior + (if done then [t0 + p] else [])
    && FiresSane(w.m.fired, w.clock)
    && (done ==> NotLinked(w.m, t) && CommandsFor(t, w.m.commands) == [])
    && (Settled(w.m, t) ==> done || w.m.now < t0 + p)
  }

  lemma OnceIsFiredOnce(prior: seq<nat>, w: World, t: nat, p: nat, t0: nat, done: bool)
    requires WorldInv(w) && FiresOnce(w.m, t, p, t0, prior, done)
    ensures FiredOnce(prior, w, t, p, t0, done)
  {
    hide FiresOf, CommandsFor, NotLinked, FiresSane, CommandsSane, Inv;
    if Settled(w.m, t) && !done {
      SettledIsUpToDate(w.m, t, t0 + p);
    }
  }

  // A one-shot timer is started or reset for t0 and then left alone.
  lemma OneShotFiresOnce(w: World, run: seq<Step>, t: nat, p: nat, t0: nat) returns (done: bool)
    requires WorldInv(w) && Enabled(w, CommandTask) && w.m.commands[0] == Start(t, t0)
    requires OneShot(w.m, t, p) && CommandsFor(t, w.m.commands[1..]) == []
    requires Feasible(Apply(w, CommandTask), run)
    requires forall s :: s in run ==> Leaves(s, t)
    ensures FiredOnce(FiresOf(t, w.m.fired), Exec(Apply(w, CommandTask), run), t, p, t0, done)
  {
    hide Feasible, Exec, FiresOf, CommandsFor, OneShot, FiresOnce, FiresSane, CommandsSane, FiredOnce, CommandPass;
    var w1, prior := Apply(w, CommandTask), FiresOf(t, w.m.fired);
    StepKeepsInvariant(w, CommandTask);
    done := OwnStartOnce(w.m, w.clock, t, p, t0, prior);
    done := RunOnce(w1, run, t, p, t0, prior, done);
    RunKeepsInvariant(w1, run);
    OnceIsFiredOnce(prior, Exec(w1, run), t, p, t0, done);
  }

  // An idle one-shot timer with a start command for t0 queued, then left alone.
  lemma QueuedOneShotFiresOnce(w: World, run: seq<Step>, t: nat, p: nat, t0: nat) returns (done: bool)
    requires WorldInv(w) && Feasible(w, run)
    requires forall s :: s in run ==> Leaves(s, t)
    requires OneShot(w.m, t, p) && NotLinked(w.m, t) && CommandsFor(t, w.m.commands) == [Start(t, t0)]
    ensures FiredOnce(FiresOf(t, w.m.fired), Exec(w, run), t, p, t0, done)
  {
    hide Feasible, Exec, FiresOf, CommandsFor, FiresSane, CommandsSane, FiredOnce;
    var prior := FiresOf(t, w.m.fired);
    done := RunOnce(w, run, t, p, t0, prior, false);
    RunKeepsInvariant(w, run);
    OnceIsFiredOnce(prior, Exec(w, run), t, p, t0, done);
  }
}
