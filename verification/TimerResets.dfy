/** A reset of an auto-reload timer over whole runs: how long the timer fires at the times it was
    reset to.  And inputs on which a queued restart undoes a stop and a reset.
 */
module TimerResets {
  import opened Ticks
  import opened SortedLists
  import opened TimerModel
  import opened TimerInvariant
  import opened TimerSwitch
  import opened TimerDrift
  import opened TimerCommands
  import opened TimerStops
  import opened TimerRequests

  // Since `prior` the timer has fired for its first n expiries after u, and if it is listed, it is
  // for the next one.
  ghost predicate OnRung(m: Model, t: nat, p: nat, u: nat, prior: seq<nat>, n: nat) {
    && FiresOf(t, m.fired) == prior + Ladder(u, p, n)
    && (forall e :: LinkedAt(m, e) && e.id == t ==> e.key == Rung(u, p, n + 1))
  }

  ghost predicate OnTime(m: Model, t: nat, p: nat, u: nat, prior: seq<nat>) {
    exists n: nat :: OnRung(m, t, p, u, prior, n)
  }

  ghost predicate OnTimeThroughout(w: World, run: seq<Step>, t: nat, p: nat, u: nat, prior: seq<nat>)
    requires Wf(w.m) && Feasible(w, run)
    decreases |run|
  {
    && OnTime(w.m, t, p, u, prior)
    && (run == [] || OnTimeThroughout(Apply(w, run[0]), run[1..], t, p, u, prior))
  }

  // ---- One start command ----

  lemma OneEntry(m: Model, e: Entry)
    requires Inv(m) && LinkedAt(m, e)
    ensures forall f :: LinkedAt(m, f) && f.id == e.id ==> f == e
  {
    forall f | LinkedAt(m, f) && f.id == e.id
      ensures f == e
    {
      if e in m.current && f in m.current {
        UniqueEntry(m.current, e, f);
      } else if e in m.overflow && f in m.overflow {
        UniqueEntry(m.overflow, e, f);
      }
    }
  }

  lemma LadderIsOnTime(m: Model, t: nat, p: nat, u: nat, prior: seq<nat>, n: nat, q: seq<Command>)
    requires Inv(m) && OnLadder(m, t, p, u, prior, n, q)
    ensures OnRung(m, t, p, u, prior, n)
  {
    hide Inv, FiresOf, CommandsFor, Ladder;
    if !NotLinked(m, t) {
      OneEntry(m, Entry(t, Rung(u, p, n + 1)));
    }
  }

  // The number of expiries can be read off the trace.
  lemma SameRung(prior: seq<nat>, p: nat, u: nat, n: nat, k: nat)
    requires prior + Ladder(u, p, n) == prior + Ladder(u, p, k)
    ensures n == k
  {
    LadderFrom(prior, p, u, n);
    LadderFrom(prior, p, u, k);
    assert |prior + Ladder(u, p, n)| == |prior + Ladder(u, p, k)|;
  }

  // A timer that has fired n times since u keeps to the ladder of u when a start command is taken
  // if and only if that command carries the n-th expiry.
  lemma StartHoldsExactly(w: World, t: nat, a: nat, p: nat, u: nat, prior: seq<nat>, n: nat)
    requires WorldInv(w) && Enabled(w, CommandTask) && w.m.commands[0] == Start(t, a)
    requires AutoReload(w.m, t, p) && FiresOf(t, w.m.fired) == prior + Ladder(u, p, n)
    ensures OnTime(Apply(w, CommandTask).m, t, p, u, prior) <==> a == Rung(u, p, n)
  {
    hide FiresOf, CommandsFor, Ladder, CommandPass, Inv, OnRung, NotLinked, FiresSane, CommandsSane;
    InvIsWf(w.m);
    var m1 := Apply(w, CommandTask).m;
    StartStarts(w.m, w.clock);
    StepKeepsInvariant(w, CommandTask);
    if a == Rung(u, p, n) {
      StartOnRung(w.m, m1, t, p, u, prior, n, w.clock, CommandsFor(t, w.m.commands[1..]));
    }
    if OnTime(m1, t, p, u, prior) {
      var k :| OnRung(m1, t, p, u, prior, k);
      RungOfStart(w.m, m1, t, a, p, u, prior, n, k, w.clock, CommandsFor(t, w.m.commands[1..]));
    }
  }

  lemma StartOnRung(m: Model, m1: Model, t: nat, p: nat, u: nat, prior: seq<nat>, n: nat, now: nat, q: seq<Command>)
    requires Inv(m1) && t in m.timers && m.timers[t].period == p && FiresOf(t, m.fired) == prior + Ladder(u, p, n)
    requires StartedBy(m, m1, t, Rung(u, p, n) + p, now, q)
    ensures OnTime(m1, t, p, u, prior)
  {
    hide FiresOf, Inv;
    var due := Rung(u, p, n) + p;
    if due <= now {
      assert prior + Ladder(u, p, n) + [due] == prior + Ladder(u, p, n + 1);
      assert OnRung(m1, t, p, u, prior, n + 1);
    } else {
      OneEntry(m1, Entry(t, due));
      assert OnRung(m1, t, p, u, prior, n);
    }
  }

  lemma RungOfStart(m: Model, m1: Model, t: nat, a: nat, p: nat, u: nat, prior: seq<nat>, n: nat, k: nat,
                    now: nat, q: seq<Command>)
    requires t in m.timers && m.timers[t].period == p && FiresOf(t, m.fired) == prior + Ladder(u, p, n)
    requires StartedBy(m, m1, t, a + p, now, q) && OnRung(m1, t, p, u, prior, k)
    ensures a == Rung(u, p, n)
  {
    hide FiresOf;
    if a + p <= now {
      LadderFrom(prior, p, u, n);
      LadderFrom(prior, p, u, k);
      assert prior + Ladder(u, p, k) == prior + Ladder(u, p, n) + [a + p];
      assert k == n + 1 by {
        assert |prior + Ladder(u, p, k)| == |prior + Ladder(u, p, n)| + 1;
      }
      assert (prior + Ladder(u, p, k))[|prior| + n] == Rung(u, p, k);
    } else {
      SameRung(prior, p, u, n, k);
      assert LinkedAt(m1, Entry(t, a + p));
    }
  }

  // ---- Whole runs ----

  ghost predicate OffLadder(a: nat, p: nat, u: nat) {
    forall n: nat :: a != Rung(u, p, n)
  }

  lemma OffTime(w: World, run: seq<Step>, t: nat, p: nat, u: nat, prior: seq<nat>)
    requires Wf(w.m) && Feasible(w, run) && !OnTime(w.m, t, p, u, prior)
    ensures !OnTimeThroughout(w, run, t, p, u, prior)
  {
  }

  // On the ladder of u, with a start command of another ladder first among its own in the queue, at
  // position j: it keeps to the ladder over a run if and only if the run does not take that command.
  lemma {:induction false} OnTimeUntilStart(w: World, run: seq<Step>, t: nat, p: nat, u: nat, prior: seq<nat>, n: nat,
                                            q: seq<Command>, a: nat, j: nat)
    requires WorldInv(w) && Feasible(w, run)
    requires forall s :: s in run ==> Leaves(s, t)
    requires j < |w.m.commands| && w.m.commands[j] == Start(t, a) && CommandsFor(t, w.m.commands[..j]) == []
    requires OnLadder(w.m, t, p, u, prior, n, q) && q != [] && OffLadder(a, p, u)
    ensures OnTimeThroughout(w, run, t, p, u, prior) <==> Taken(run) <= j
    decreases |run|
  {
    hide FiresOf, CommandsFor, Ladder, Inv, OnRung, OnTime, OnLadder, FiresSane, CommandsSane, Apply, Leaves;
    InvIsWf(w.m);
    LadderOnTime(w.m, t, p, u, prior, n, q);
    if run != [] {
      var w1 := Apply(w, run[0]);
      StepKeepsInvariant(w, run[0]);
      if TakesOwn(w, run[0], t) {
        FirstIsHead(t, w.m.commands, j);
        StartLeavesLadder(w, t, a, p, u, prior, n, q);
        OffTime(w1, run[1..], t, p, u, prior);
      } else {
        var n1 := StepOnLadder(w, run[0], t, p, u, prior, n, q);
        BeforeAfterStep(w, run[0], t, j);
        OnTimeUntilStart(w1, run[1..], t, p, u, prior, n1, q, a, if run[0] == CommandTask then j - 1 else j);
      }
    }
  }

  lemma LadderOnTime(m: Model, t: nat, p: nat, u: nat, prior: seq<nat>, n: nat, q: seq<Command>)
    requires Inv(m) && OnLadder(m, t, p, u, prior, n, q)
    ensures OnTime(m, t, p, u, prior)
  {
    LadderIsOnTime(m, t, p, u, prior, n, q);
  }

  lemma FirstIsHead(t: nat, commands: seq<Command>, j: nat)
    requires j < |commands| && CommandsFor(t, commands[..j]) == []
    requires !commands[0].Call? && commands[0].timer == t
    ensures j == 0
  {
  }

  lemma StartLeavesLadder(w: World, t: nat, a: nat, p: nat, u: nat, prior: seq<nat>, n: nat, q: seq<Command>)
    requires WorldInv(w) && Enabled(w, CommandTask) && w.m.commands[0] == Start(t, a)
    requires OnLadder(w.m, t, p, u, prior, n, q) && OffLadder(a, p, u)
    ensures !OnTime(Apply(w, CommandTask).m, t, p, u, prior)
  {
    hide FiresOf, CommandsFor, Ladder, Inv, OnTime, CommandPass, Armed;
    StartHoldsExactly(w, t, a, p, u, prior, n);
  }

  // An auto-reload timer is reset to u, and the first command of its own behind the reset, j places
  // behind, is a start or restart that carries a time of another ladder: over a run, it fires at
  // u + p, u + 2p, ... and is listed for no other time if and only if the run does not take that one.
  lemma ResetHoldsExactly(w: World, run: seq<Step>, t: nat, p: nat, u: nat, a: nat, j: nat)
    requires WorldInv(w) && Enabled(w, CommandTask) && w.m.commands[0] == Start(t, u) && AutoReload(w.m, t, p)
    requires Feasible(Apply(w, CommandTask), run)
    requires forall s :: s in run ==> Leaves(s, t)
    requires var behind := w.m.commands[1..];
             j < |behind| && behind[j] == Start(t, a) && CommandsFor(t, behind[..j]) == []
    requires OffLadder(a, p, u)
    ensures OnTimeThroughout(Apply(w, CommandTask), run, t, p, u, FiresOf(t, w.m.fired)) <==> Taken(run) <= j
  {
    hide FiresOf, Inv, FiresSane, CommandsSane, CommandPass, Leaves, OffLadder, OnTimeThroughout, CommandsFor;
    InvIsWf(w.m);
    var behind := w.m.commands[1..];
    var n := StartTakenArms(w, t, p, u);
    StepKeepsInvariant(w, CommandTask);
    StepKeepsQueue(w, CommandTask);
    assert Apply(w, CommandTask).m.commands[..j] == behind[..j];
    SplitAt(t, behind, j);
    OnTimeUntilStart(Apply(w, CommandTask), run, t, p, u, FiresOf(t, w.m.fired), n, CommandsFor(t, behind), a, j);
  }

  // With no other command of its own behind, it keeps to the ladder over every run.
  lemma {:induction false} OnTimeForEver(w: World, run: seq<Step>, t: nat, p: nat, u: nat, prior: seq<nat>, n: nat)
    requires WorldInv(w) && Feasible(w, run)
    requires forall s :: s in run ==> Leaves(s, t)
    requires OnLadder(w.m, t, p, u, prior, n, [])
    ensures OnTimeThroughout(w, run, t, p, u, prior)
    decreases |run|
  {
    hide Inv, OnTime, OnLadder, FiresSane, CommandsSane, Apply, Leaves;
    InvIsWf(w.m);
    LadderOnTime(w.m, t, p, u, prior, n, []);
    if run != [] {
      StepKeepsInvariant(w, run[0]);
      var n1 := StepOnLadder(w, run[0], t, p, u, prior, n, []);
      OnTimeForEver(Apply(w, run[0]), run[1..], t, p, u, prior, n1);
    }
  }

  // How often the timer has fired since `prior`.
  function FiredSince(m: Model, t: nat, prior: seq<nat>): nat {
    if |prior| <= |FiresOf(t, m.fired)| then |FiresOf(t, m.fired)| - |prior| else 0
  }

  // Every start of the timer that the run takes carries the expiry for which it fired last.
  ghost predicate TakesOnlyRungs(w: World, run: seq<Step>, t: nat, p: nat, u: nat, prior: seq<nat>)
    requires Wf(w.m) && Feasible(w, run)
    decreases |run|
  {
    run != [] ==>
      && (TakesOwn(w, run[0], t) ==> w.m.commands[0] == Start(t, Rung(u, p, FiredSince(w.m, t, prior))))
      && TakesOnlyRungs(Apply(w, run[0]), run[1..], t, p, u, prior)
  }

  ghost predicate OnlyStarts(q: seq<Command>) {
    forall c :: c in q ==> c.Start?
  }

  // Whatever starts and restarts of the timer are queued: over every run, it keeps to the ladder of u
  // if and only if each of them that is taken carries the expiry for which it fired last.
  lemma {:induction false} OnTimeExactly(w: World, run: seq<Step>, t: nat, p: nat, u: nat, prior: seq<nat>, n: nat,
                                         q: seq<Command>)
    requires WorldInv(w) && Feasible(w, run)
    requires forall s :: s in run ==> Leaves(s, t)
    requires OnLadder(w.m, t, p, u, prior, n, q) && OnlyStarts(q)
    ensures OnTimeThroughout(w, run, t, p, u, prior) <==> TakesOnlyRungs(w, run, t, p, u, prior)
    decreases |run|
  {
    hide FiresOf, CommandsFor, Ladder, Inv, OnTime, OnLadder, FiresSane, CommandsSane, Apply, Leaves, OnlyStarts;
    InvIsWf(w.m);
    LadderOnTime(w.m, t, p, u, prior, n, q);
    if run != [] {
      var w1 := Apply(w, run[0]);
      StepKeepsInvariant(w, run[0]);
      if TakesOwn(w, run[0], t) {
        OwnIsStart(w, t, p, u, prior, n, q);
        ReachedRung(w.m, t, p, u, prior, n, q);
        OneStart(w, t, w.m.commands[0].at, p, u, prior, n, q);
        if w.m.commands[0].at == Rung(u, p, n) {
          var n1 := StartKeepsLadder(w, t, p, u, prior, n, q);
          OnTimeExactly(w1, run[1..], t, p, u, prior, n1, CommandsFor(t, w.m.commands[1..]));
        } else {
          OffTime(w1, run[1..], t, p, u, prior);
        }
      } else {
        var n1 := StepOnLadder(w, run[0], t, p, u, prior, n, q);
        OnTimeExactly(w1, run[1..], t, p, u, prior, n1, q);
      }
    }
  }

  lemma OneStart(w: World, t: nat, a: nat, p: nat, u: nat, prior: seq<nat>, n: nat, q: seq<Command>)
    requires WorldInv(w) && Enabled(w, CommandTask) && w.m.commands[0] == Start(t, a)
    requires OnLadder(w.m, t, p, u, prior, n, q)
    ensures OnTime(Apply(w, CommandTask).m, t, p, u, prior) <==> a == Rung(u, p, n)
  {
    hide FiresOf, CommandsFor, Ladder, Inv, OnTime, CommandPass, Armed;
    StartHoldsExactly(w, t, a, p, u, prior, n);
  }

  lemma ReachedRung(m: Model, t: nat, p: nat, u: nat, prior: seq<nat>, n: nat, q: seq<Command>)
    requires OnLadder(m, t, p, u, prior, n, q)
    ensures FiredSince(m, t, prior) == n
  {
    LadderFrom(prior, p, u, n);
  }

  lemma StartKeepsLadder(w: World, t: nat, p: nat, u: nat, prior: seq<nat>, n: nat, q: seq<Command>) returns (n': nat)
    requires WorldInv(w) && Enabled(w, CommandTask) && w.m.commands[0] == Start(t, Rung(u, p, n))
    requires OnLadder(w.m, t, p, u, prior, n, q)
    ensures n <= n'
    ensures OnLadder(Apply(w, CommandTask).m, t, p, u, prior, n', CommandsFor(t, w.m.commands[1..]))
  {
    hide FiresOf, CommandsFor, Sample, Accept, Ladder, NotLinked, DoStart, Armed;
    CommandedIsIdle(w.m, w.clock);
    n' := StartArms(Sample(Accept(w.m), w.clock), t, p, u, prior, n, CommandsFor(t, w.m.commands[1..]));
  }

  // The timer's own commands are q and perhaps a restart.
  lemma OwnIsStart(w: World, t: nat, p: nat, u: nat, prior: seq<nat>, n: nat, q: seq<Command>)
    requires Wf(w.m) && TakesOwn(w, CommandTask, t) && OnLadder(w.m, t, p, u, prior, n, q) && OnlyStarts(q)
    ensures w.m.commands[0].Start? && OnlyStarts(CommandsFor(t, w.m.commands[1..]))
  {
    hide FiresOf, CommandsFor, LinkedAt, NotLinked, Wf, Ladder;
    HeadOfOwn(t, w.m.commands);
    assert OnlyStarts(CommandsFor(t, w.m.commands));
    assert CommandsFor(t, w.m.commands)[0] == w.m.commands[0];
    assert CommandsFor(t, w.m.commands)[1..] == CommandsFor(t, w.m.commands[1..]);
  }

  // A running auto-reload timer is reset to u.  When the reset is taken, the timer is still in a
  // list, and it fires at u + p, u + 2p, ... over every run.  Or it is in no list; then the restart
  // for its last expiry is queued, j places behind, and unless that expiry is on the ladder of u,
  // the timer keeps to the ladder over a run if and only if the run does not take the restart.
  lemma ResetIsFinalExactly(w: World, run: seq<Step>, rest: seq<Step>, t: nat, p: nat, t0: nat, prior: seq<nat>, n: nat,
                            u: nat)
    returns (n': nat, j: nat)
    requires WorldInv(w) && Enabled(w, Request(Start(t, u))) && OnLadder(w.m, t, p, t0, prior, n, [])
    requires Feasible(Apply(w, Request(Start(t, u))), run) && Taken(run) == |w.m.commands|
    requires forall s :: s in run + rest ==> Leaves(s, t)
    requires var w1 := Exec(Apply(w, Request(Start(t, u))), run);
             Enabled(w1, CommandTask) && Feasible(Apply(w1, CommandTask), rest)
    ensures var w1 := Exec(Apply(w, Request(Start(t, u))), run);
            var fires := FiresOf(t, w1.m.fired);
            && n <= n' && w1.m.commands[0] == Start(t, u) && fires == prior + Ladder(t0, p, n')
            && if NotLinked(w1.m, t) then
                 && j < |w1.m.commands[1..]| && w1.m.commands[1..][j] == Start(t, Rung(t0, p, n'))
                 && (OffLadder(Rung(t0, p, n'), p, u) ==>
                       (OnTimeThroughout(Apply(w1, CommandTask), rest, t, p, u, fires) <==> Taken(rest) <= j))
               else OnTimeThroughout(Apply(w1, CommandTask), rest, t, p, u, fires)
  {
    hide Apply, Feasible, Inv, FiresSane, CommandsSane, Leaves, FiresOf, Exec, Ladder, OnLadder, OnTimeThroughout,
         CommandsFor, Rung, OffLadder;
    j := 0;
    n' := RequestedIsTaken(w, run, t, p, t0, prior, n, Start(t, u));
    InvIsWf(w.m);
    StepKeepsInvariant(w, Request(Start(t, u)));
    RunKeepsInvariant(Apply(w, Request(Start(t, u))), run);
    var w1 := Exec(Apply(w, Request(Start(t, u))), run);
    if NotLinked(w1.m, t) {
      j := FirstOwn(t, w1.m.commands[1..]);
      if OffLadder(Rung(t0, p, n'), p, u) {
        ResetHoldsExactly(w1, rest, t, p, u, Rung(t0, p, n'), j);
      }
    } else {
      var k := StartTakenArms(w1, t, p, u);
      StepKeepsInvariant(w1, CommandTask);
      OnTimeForEver(Apply(w1, CommandTask), rest, t, p, u, FiresOf(t, w1.m.fired), k);
    }
  }

  // ---- Inputs ----

  // Timer 0 is created with period 1 and started so as to expire at the last tick before a wrap.
  function Created(): World {
    World(Model(map[0 := Timer(1, true, false)], [], [], [], 0, [], []), 0)
  }

  function Listed(clock: nat, commands: seq<Command>): World {
    World(Model(map[0 := Timer(1, true, true)], [Entry(0, M - 1)], [], commands, M - 2, [], []), clock)
  }

  function Requested(): World {
    World(Created().m.(commands := [Start(0, M - 2)]), M - 2)
  }

  lemma StartTaken()
    ensures Wf(Requested().m) && Enabled(Requested(), CommandTask)
    ensures CommandPass(Requested().m, M - 2) == DoStart(Requested().m.(commands := [], now := M - 2), 0, M - 2)
  {
    hide TimerPass, ProcessExpired, Drain, DoStart, Classify;
    var m, now := Requested().m, M - 2;
    assert Accept(m) == m.(commands := []);
    assert Sample(Accept(m), now) == m.(commands := [], now := now);
  }

  lemma StartLists()
    ensures Wf(Requested().m) && Enabled(Requested(), CommandTask)
    ensures Apply(Requested(), CommandTask) == Listed(M - 2, [])
  {
    hide TimerPass, ProcessExpired, CommandPass, Accept, Sample;
    StartTaken();
    assert InsertSorted([], Entry(0, M - 1)) == [Entry(0, M - 1)];
    assert Epoch(M - 2) == 0 && Epoch(M - 1) == 0;
  }

  lemma ReachesListed()
    ensures FreshWorld(Created())
    ensures var run := [Advance(M - 2), Request(Start(0, M - 2)), CommandTask];
            Feasible(Created(), run) && Exec(Created(), run) == Listed(M - 2, [])
  {
    hide CommandPass, Sample;
    var w0 := Created();
    var w1 := w0.(clock := M - 2);
    assert Apply(w0, Advance(M - 2)) == w1;
    assert Apply(w1, Request(Start(0, M - 2))) == Requested();
    StartLists();
    Then(Requested(), CommandTask, []);
    Then(w1, Request(Start(0, M - 2)), [CommandTask]);
    Then(w0, Advance(M - 2), [Request(Start(0, M - 2)), CommandTask]);
  }

  lemma Then(w: World, s: Step, run: seq<Step>)
    requires Wf(w.m) && Enabled(w, s) && Feasible(Apply(w, s), run)
    ensures Feasible(w, [s] + run) && Exec(w, [s] + run) == Exec(Apply(w, s), run)
  {
    hide Enabled, Apply, Wf;
    assert ([s] + run)[1..] == run;
  }

  // A stop or a reset is requested at M, and then the daemon finds that the tick count has wrapped.
  function Switched(active: bool, commands: seq<Command>, fired: seq<Fire>): World {
    World(Model(map[0 := Timer(1, true, active)], [], [], commands, M, fired, []), M)
  }

  lemma SwitchPosts(c: Command)
    requires c == Stop(0) || c == Start(0, M)
    ensures TimerPass(Listed(M, [c]).m, M) == Switched(true, [c, Start(0, M - 1)], [Fire(0, M - 1, M)]).m
  {
    hide InsertSorted;
    var m := Listed(M, [c]).m;
    var d := Switched(true, [c, Start(0, M - 1)], [Fire(0, M - 1, M)]).m.(now := M - 2);
    assert [Fire(0, M - 1, M)] == [] + [Fire(0, M - 1, M)];
    assert DrainStep(m, M) == d;
    DrainStepDecreases(m, M);
    assert Drain(m, M) == Drain(d, M) == d;
  }

  lemma RestartIsQueued(c: Command)
    requires 2 < M && (c == Stop(0) || c == Start(0, M))
    ensures Enabled(Listed(M - 2, []), Advance(2))
    ensures var run := [Advance(2), Request(c), TimerTask];
            && Feasible(Listed(M - 2, []), run)
            && Exec(Listed(M - 2, []), run) == Switched(true, [c, Start(0, M - 1)], [Fire(0, M - 1, M)])
  {
    hide TimerPass, Wf;
    ListedIsWf();
    var w1, w2 := Listed(M, []), Listed(M, [c]);
    assert Apply(Listed(M - 2, []), Advance(2)) == w1;
    assert Apply(w1, Request(c)) == w2;
    SwitchPosts(c);
    Then(w2, TimerTask, []);
    Then(w1, Request(c), [TimerTask]);
    Then(Listed(M - 2, []), Advance(2), [Request(c), TimerTask]);
  }

  lemma ListedIsWf()
    ensures forall clock :: Wf(Listed(clock, []).m)
  {
  }

  // The stop is taken, and then the restart behind it fires the timer.
  lemma FiresAfterStop()
    requires 2 < M
    ensures var w := Switched(true, [Stop(0), Start(0, M - 1)], [Fire(0, M - 1, M)]);
            && Enabled(w, CommandTask)
            && var w1 := Apply(w, CommandTask);
               && w1 == Switched(false, [Start(0, M - 1)], [Fire(0, M - 1, M)]) && Enabled(w1, CommandTask)
               && Apply(w1, CommandTask).m.fired == [Fire(0, M - 1, M), Fire(0, M, M)]
  {
    hide InsertSorted;
  }

  // The reset to M is taken and lists the timer for M + 1; then the restart behind it fires it for M.
  lemma FiresBeforeReset()
    requires 2 < M
    ensures var w := Switched(true, [Start(0, M), Start(0, M - 1)], [Fire(0, M - 1, M)]);
            && Enabled(w, CommandTask)
            && var w1 := Apply(w, CommandTask);
               && w1.m.current == [Entry(0, M + 1)] && w1.m.fired == w.m.fired && Enabled(w1, CommandTask)
               && Apply(w1, CommandTask).m.fired == [Fire(0, M - 1, M), Fire(0, M, M)]
  {
    hide TimerPass;
    var w := Switched(true, [Start(0, M), Start(0, M - 1)], [Fire(0, M - 1, M)]);
    assert Epoch(M + 1) == Epoch(M);
    assert InsertSorted([], Entry(0, M + 1)) == [Entry(0, M + 1)];
    var w1 := w.(m := w.m.(commands := [Start(0, M - 1)], current := [Entry(0, M + 1)]));
    assert Accept(w.m) == w.m.(commands := [Start(0, M - 1)]);
    assert Apply(w, CommandTask) == w1;
    assert Accept(w1.m) == w.m.(commands := []) by {
      assert Without([Entry(0, M + 1)], 0) == [];
    }
  }
}
