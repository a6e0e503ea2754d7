/** The command loop of the timer daemon as a run, and the pended function calls that it runs. */
module TimerLoop {
  import opened Ticks
  import opened SortedLists
  import opened TimerModel
  import opened TimerInvariant
  import opened TimerSwitch
  import opened TimerDrift
  import opened TimerStops
  import opened TimerDaemon

  // ---- The loop is a run ----

  predicate InOrder(times: seq<nat>) {
    forall i, j :: 0 <= i < j < |times| ==> times[i] <= times[j]
  }

  predicate LoopStep(s: Step) {
    s.Advance? || s.CommandTask?
  }

  // What the command loop leaves for the clock readings `times` is the end of a run in which only
  // time passes and the daemon takes commands: one for each reading, or all there are.
  lemma {:induction false} LoopIsRun(w: World, times: seq<nat>) returns (run: seq<Step>)
    requires WorldInv(w) && CommandsInTime(w.m, times) && InOrder([w.clock] + times)
    ensures Feasible(w, run) && (forall s :: s in run ==> LoopStep(s))
    ensures Exec(w, run).m == CommandRun(w.m, times)
    ensures Taken(run) <= |times| && (Taken(run) < |times| ==> CommandRun(w.m, times).commands == [])
    ensures (forall i :: 0 <= i < |times| ==> CommandRun(w.m, times[..i]).commands != []) ==> Taken(run) == |times|
    decreases |times|
  {
    hide Inv, Wf, FiresSane, CommandsSane, CommandPass, Accept, SampleInTime;
    InvIsWf(w.m);
    run := [];
    if times != [] {
      assert CommandRun(w.m, times[..0]) == w.m;
      if w.m.commands != [] {
        assert ([w.clock] + times)[0] <= ([w.clock] + times)[1];
        var s := Advance(times[0] - w.clock);
        var w1 := Apply(w, s);
        var w2 := Apply(w1, CommandTask);
        StepKeepsInvariant(w, s);
        StepKeepsInvariant(w1, CommandTask);
        LaterInOrder(w.clock, times);
        var rest := LoopIsRun(w2, times[1..]);
        run := [s, CommandTask] + rest;
        RunOfTwo(w, s, CommandTask, rest);
        forall i | 0 <= i < |times[1..]|
          ensures CommandRun(w.m, times[..i + 1]) == CommandRun(w2.m, times[1..][..i])
        {
          assert times[..i + 1][1..] == times[1..][..i];
        }
      }
    }
  }

  lemma LaterInOrder(clock: nat, times: seq<nat>)
    requires times != [] && InOrder([clock] + times)
    ensures InOrder([times[0]] + times[1..])
  {
    forall i, j | 0 <= i < j < |times|
      ensures times[i] <= times[j]
    {
      assert ([clock] + times)[i + 1] <= ([clock] + times)[j + 1];
    }
    assert [times[0]] + times[1..] == times;
  }

  lemma RunOfTwo(w: World, s: Step, u: Step, rest: seq<Step>)
    requires Wf(w.m) && Enabled(w, s) && Enabled(Apply(w, s), u) && Feasible(Apply(Apply(w, s), u), rest)
    ensures var run := [s, u] + rest;
            && Feasible(w, run) && Exec(w, run) == Exec(Apply(Apply(w, s), u), rest)
            && Taken(run) == (if s == CommandTask then 1 else 0) + (if u == CommandTask then 1 else 0) + Taken(rest)
  {
    hide Wf, Enabled, Apply;
    var run := [s, u] + rest;
    assert run[1..] == [u] + rest && run[1..][1..] == rest;
  }

  // About the queue alone: with a reading for each of the first commands, the loop has taken just
  // these.
  lemma {:induction false} LoopTakes(m: Model, times: seq<nat>)
    requires Wf(m) && |times| <= |m.commands|
    ensures m.commands[|times|..] <= CommandRun(m, times).commands
    decreases |times|
  {
    hide Wf, CommandPass;
    if times != [] {
      var m1 := CommandPass(m, times[0]);
      CommandKeepsQueue(m, times[0]);
      LoopTakes(m1, times[1..]);
      assert m.commands[|times|..] == m.commands[1..][|times[1..]|..];
      assert m.commands[1..][|times[1..]|..] <= m1.commands[|times[1..]|..];
    }
  }

  // ---- Pended function calls ----

  function CallsIn(commands: seq<Command>): seq<nat> {
    if commands == [] then []
    else (if commands[0].Call? then [commands[0].fn] else []) + CallsIn(commands[1..])
  }

  // The pended calls that a run requests.
  function RequestedCalls(run: seq<Step>): seq<nat> {
    if run == [] then []
    else (if run[0].Request? && run[0].c.Call? then [run[0].c.fn] else []) + RequestedCalls(run[1..])
  }

  lemma {:induction false} CallsInConcat(a: seq<Command>, b: seq<Command>)
    ensures CallsIn(a + b) == CallsIn(a) + CallsIn(b)
  {
    if a == [] {
      assert a + b == b;
    } else {
      assert (a + b)[1..] == a[1..] + b;
      CallsInConcat(a[1..], b);
      var head := if a[0].Call? then [a[0].fn] else [];
      assert head + (CallsIn(a[1..]) + CallsIn(b)) == (head + CallsIn(a[1..])) + CallsIn(b);
    }
  }

  lemma {:induction false} RestartsAreNoCalls(m: Model, at: nat)
    requires Wf(m)
    ensures CallsIn(Restarts(m, at)) == []
    decreases TicksLeft(m.current)
  {
    hide DrainStep, TicksLeft, Wf;
    if m.current != [] {
      DrainStepDecreases(m, at);
      RestartsAreNoCalls(DrainStep(m, at), at);
      CallsInConcat(StepRestarts(m), Restarts(DrainStep(m, at), at));
      assert CallsIn(StepRestarts(m)) == [];
    }
  }

  lemma SampleAddsNoCall(m: Model, now: nat)
    requires Wf(m)
    ensures CallsIn(Sample(m, now).commands) == CallsIn(m.commands)
  {
    if Epoch(now) != Epoch(m.now) {
      DrainAdds(m, now);
      RestartsAreNoCalls(m, now);
      CallsInConcat(m.commands, Restarts(m, now));
    }
  }

  lemma StartAddsNoCall(commands: seq<Command>, t: nat, at: nat)
    ensures CallsIn(commands + [Start(t, at)]) == CallsIn(commands)
  {
    CallsInConcat(commands, [Start(t, at)]);
    assert CallsIn([Start(t, at)]) == [];
  }

  lemma PassAddsNoCall(m: Model, now: nat)
    requires Wf(m)
    ensures CallsIn(TimerPass(m, now).commands) == CallsIn(m.commands)
  {
    hide Wf, Sample, CallsIn, InsertSorted, Classify;
    var s := Sample(m, now);
    SampleAddsNoCall(m, now);
    if s.current != [] {
      StartAddsNoCall(s.commands, s.current[0].id, s.current[0].key);
    }
  }

  lemma ObeyAddsNoCall(s: Model, c: Command)
    requires Wf(s) && !c.Call? && CommandOk(s.timers, c)
    ensures CallsIn(Obey(s, c).commands) == CallsIn(s.commands)
  {
    hide Wf, CallsIn, InsertSorted, Classify;
    if c.Start? {
      StartAddsNoCall(s.commands, c.timer, c.at + s.timers[c.timer].period);
    }
  }

  lemma CommandTakesCall(m: Model, now: nat)
    requires Wf(m) && m.commands != []
    ensures var r := CommandPass(m, now);
            && r.ran == m.ran + (if m.commands[0].Call? then [m.commands[0].fn] else [])
            && CallsIn(m.commands) ==
                 (if m.commands[0].Call? then [m.commands[0].fn] else []) + CallsIn(r.commands)
  {
    hide Wf, Sample, Obey, Without;
    var c, a := m.commands[0], Accept(m);
    if !c.Call? {
      HeadIsOk(m);
      SampleAddsNoCall(a, now);
      ObeyAddsNoCall(Sample(a, now), c);
    }
  }

  lemma StepCalls(w: World, s: Step)
    requires Wf(w.m) && Enabled(w, s)
    ensures var m1 := Apply(w, s).m;
            m1.ran + CallsIn(m1.commands) == (w.m.ran + CallsIn(w.m.commands)) + RequestedCalls([s])
  {
    hide Wf, TimerPass, CommandPass;
    assert RequestedCalls([s]) == if s.Request? && s.c.Call? then [s.c.fn] else [];
    match s
    case Request(c) => CallsInConcat(w.m.commands, [c]);
    case TimerTask => PassAddsNoCall(w.m, w.clock);
    case CommandTask => CommandTakesCall(w.m, w.clock);
    case _ =>
  }

  // Over every run: the functions that have run, followed by those queued, are those that had run
  // or were queued at the start followed by those requested: each runs once and in order.
  lemma {:induction false} PendedCallsRunOnce(w: World, run: seq<Step>)
    requires Wf(w.m) && Feasible(w, run)
    ensures var e := Exec(w, run).m;
            e.ran + CallsIn(e.commands) == (w.m.ran + CallsIn(w.m.commands)) + RequestedCalls(run)
    decreases |run|
  {
    hide Wf, Apply, Enabled, CallsIn;
    if run != [] {
      StepCalls(w, run[0]);
      PendedCallsRunOnce(Apply(w, run[0]), run[1..]);
      var before := w.m.ran + CallsIn(w.m.commands);
      assert RequestedCalls(run) == RequestedCalls([run[0]]) + RequestedCalls(run[1..]);
      assert (before + RequestedCalls([run[0]])) + RequestedCalls(run[1..]) == before + RequestedCalls(run);
    }
  }
}
