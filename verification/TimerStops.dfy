/** A stopped timer over whole runs: it stays in no list and does not fire exactly as long as no
    command that revives it is taken, and which run takes one can be read off the queue at the stop.
    And the active flag of a one-shot timer that has fired.
 */
module TimerStops {
  import opened Ticks
  import opened SortedLists
  import opened TimerModel
  import opened TimerInvariant
  import opened TimerSwitch
  import opened TimerDrift
  import opened TimerCommands

  // A command that links or fires its timer; the daemon's own restarts are such commands.
  predicate Revives(c: Command, t: nat) {
    (c.Start? || c.ChangePeriod?) && c.timer == t
  }

  ghost predicate AtRest(m: Model, t: nat, fires: seq<nat>) {
    NotLinked(m, t) && FiresOf(t, m.fired) == fires
  }

  // ---- One step ----

  lemma SameForRest(a: Model, b: Model, t: nat, fires: seq<nat>)
    requires SameFor(a, b, t) && AtRest(a, t, fires)
    ensures AtRest(b, t, fires)
  {
    hide FiresOf, CommandsFor, LinkedAt;
  }

  lemma StepRests(w: World, s: Step, t: nat, fires: seq<nat>)
    requires WorldInv(w) && Enabled(w, s) && Leaves(s, t) && AtRest(w.m, t, fires)
    requires s == CommandTask ==> !Revives(w.m.commands[0], t)
    ensures AtRest(Apply(w, s).m, t, fires)
  {
    hide FiresOf, CommandsFor, Apply, Inv, SameFor;
    InvIsWf(w.m);
    if TakesOwn(w, s, t) {
      StopEndsLinked(w, t);
    } else {
      StepIdle(w, s, t);
      SameForRest(w.m, Apply(w, s).m, t, fires);
    }
  }

  // Taking a stop or delete: the timer is in no list and has not fired, and no command was added for it.
  lemma StopEndsLinked(w: World, t: nat)
    requires WorldInv(w) && Enabled(w, CommandTask) && TakesOwn(w, CommandTask, t) && !Revives(w.m.commands[0], t)
    ensures var m1 := Apply(w, CommandTask).m;
            && AtRest(m1, t, FiresOf(t, w.m.fired))
            && CommandsFor(t, m1.commands) == CommandsFor(t, w.m.commands[1..])
  {
    hide FiresOf, CommandsFor, Inv, Wf, Sample, Accept, NotLinked;
    InvIsWf(w.m);
    StopStops(w.m, w.clock);
    CommandedIsIdle(w.m, w.clock);
  }

  lemma RevivalEndsRest(w: World, t: nat, fires: seq<nat>)
    requires WorldInv(w) && Enabled(w, CommandTask) && AtRest(w.m, t, fires) && Revives(w.m.commands[0], t)
    ensures !AtRest(Apply(w, CommandTask).m, t, fires)
  {
    hide FiresOf, CommandsFor, CommandPass, Inv;
    if w.m.commands[0].Start? {
      StartStarts(w.m, w.clock);
    } else {
      PeriodCountsFromNow(w.m, w.clock);
    }
  }

  // ---- Whole runs ----

  // The timer is at rest in every state of the run.
  ghost predicate RestsThroughout(w: World, run: seq<Step>, t: nat, fires: seq<nat>)
    requires Wf(w.m) && Feasible(w, run)
    decreases |run|
  {
    AtRest(w.m, t, fires) && (run == [] || RestsThroughout(Apply(w, run[0]), run[1..], t, fires))
  }

  ghost predicate TakesRevival(w: World, run: seq<Step>, t: nat)
    requires Wf(w.m) && Feasible(w, run)
    decreases |run|
  {
    run != [] &&
    ((run[0] == CommandTask && Revives(w.m.commands[0], t)) || TakesRevival(Apply(w, run[0]), run[1..], t))
  }

  lemma {:induction false} RestsUnlessRevived(w: World, run: seq<Step>, t: nat, fires: seq<nat>)
    requires WorldInv(w) && Feasible(w, run) && AtRest(w.m, t, fires)
    requires forall s :: s in run ==> Leaves(s, t)
    ensures RestsThroughout(w, run, t, fires) <==> !TakesRevival(w, run, t)
    decreases |run|
  {
    hide AtRest, Revives, Apply, Leaves, Inv, FiresSane, CommandsSane;
    InvIsWf(w.m);
    if run != [] {
      var w1 := Apply(w, run[0]);
      StepKeepsInvariant(w, run[0]);
      if run[0] == CommandTask && Revives(w.m.commands[0], t) {
        RevivalEndsRest(w, t, fires);
        RestNeeded(w1, run[1..], t, fires);
      } else {
        StepRests(w, run[0], t, fires);
        RestsUnlessRevived(w1, run[1..], t, fires);
      }
    }
  }

  lemma RestNeeded(w: World, run: seq<Step>, t: nat, fires: seq<nat>)
    requires Wf(w.m) && Feasible(w, run) && !AtRest(w.m, t, fires)
    ensures !RestsThroughout(w, run, t, fires)
  {
  }

  // ---- The queue at the stop ----

  // b's queue is a's with more commands behind, none of them for t.
  ghost predicate Appends(a: seq<Command>, b: seq<Command>, t: nat) {
    a <= b && forall i :: |a| <= i < |b| ==> !Revives(b[i], t)
  }

  lemma {:induction false} NoneFor(t: nat, commands: seq<Command>)
    requires CommandsFor(t, commands) == []
    ensures forall i :: 0 <= i < |commands| ==> !Revives(commands[i], t)
  {
    if commands != [] {
      NoneFor(t, commands[1..]);
    }
  }

  lemma StepAppends(w: World, s: Step, t: nat)
    requires WorldInv(w) && Enabled(w, s) && Leaves(s, t) && (NotLinked(w.m, t) || TakesOwn(w, s, t))
    requires s == CommandTask ==> !Revives(w.m.commands[0], t)
    ensures Appends(if s == CommandTask then w.m.commands[1..] else w.m.commands, Apply(w, s).m.commands, t)
  {
    hide FiresOf, CommandsFor, Apply, Inv, NotLinked;
    InvIsWf(w.m);
    var left := if s == CommandTask then w.m.commands[1..] else w.m.commands;
    var after := Apply(w, s).m.commands;
    assert CommandsFor(t, after) == CommandsFor(t, left) by {
      if TakesOwn(w, s, t) {
        StopEndsLinked(w, t);
      } else {
        StepIdle(w, s, t);
        if s == CommandTask {
          OthersCommand(w.m.commands, t);
        }
      }
    }
    StepKeepsQueue(w, s);
    var tail := after[|left|..];
    assert after == left + tail;
    CommandsForConcat(t, left, tail);
    NoneFor(t, tail);
    assert forall i :: |left| <= i < |after| ==> after[i] == tail[i - |left|];
  }

  lemma OthersCommand(commands: seq<Command>, t: nat)
    requires commands != [] && (commands[0].Call? || commands[0].timer != t)
    ensures CommandsFor(t, commands) == CommandsFor(t, commands[1..])
  {
  }

  function Taken(run: seq<Step>): nat {
    if run == [] then 0 else (if run[0] == CommandTask then 1 else 0) + Taken(run[1..])
  }

  // One of the first k commands revives the timer.
  ghost predicate RevivalWithin(commands: seq<Command>, k: nat, t: nat) {
    exists i :: 0 <= i < k && i < |commands| && Revives(commands[i], t)
  }

  lemma WithinAfterStep(a: seq<Command>, b: seq<Command>, k: nat, t: nat)
    requires Appends(a, b, t)
    ensures RevivalWithin(a, k, t) <==> RevivalWithin(b, k, t)
  {
    if RevivalWithin(a, k, t) {
      var i :| 0 <= i < k && i < |a| && Revives(a[i], t);
      assert b[i] == a[i];
    }
    if RevivalWithin(b, k, t) {
      var i :| 0 <= i < k && i < |b| && Revives(b[i], t);
      assert i < |a| && a[i] == b[i];
    }
  }

  lemma WithinAfterHead(commands: seq<Command>, k: nat, t: nat)
    requires commands != [] && 0 < k && !Revives(commands[0], t)
    ensures RevivalWithin(commands, k, t) <==> RevivalWithin(commands[1..], k - 1, t)
  {
    if RevivalWithin(commands, k, t) {
      var i :| 0 <= i < k && i < |commands| && Revives(commands[i], t);
      assert commands[1..][i - 1] == commands[i];
    }
    if RevivalWithin(commands[1..], k - 1, t) {
      var i :| 0 <= i < k - 1 && i < |commands[1..]| && Revives(commands[1..][i], t);
      assert commands[i + 1] == commands[1..][i];
    }
  }

  // A run that takes k commands revives the timer exactly if one of the first k now queued does.
  lemma {:induction false} RevivalIsQueued(w: World, run: seq<Step>, t: nat)
    requires WorldInv(w) && Feasible(w, run) && NotLinked(w.m, t)
    requires forall s :: s in run ==> Leaves(s, t)
    ensures TakesRevival(w, run, t) <==> RevivalWithin(w.m.commands, Taken(run), t)
    decreases |run|
  {
    hide Revives, RevivalWithin, Apply, Leaves, Inv, FiresSane, CommandsSane, NotLinked, Appends;
    InvIsWf(w.m);
    if run == [] {
      NothingTaken(w.m.commands, t);
    } else {
      var w1, k := Apply(w, run[0]), Taken(run[1..]);
      StepKeepsInvariant(w, run[0]);
      if run[0] == CommandTask && Revives(w.m.commands[0], t) {
        HeadTaken(w.m.commands, Taken(run), t);
      } else {
        StepRests(w, run[0], t, FiresOf(t, w.m.fired));
        StepAppends(w, run[0], t);
        RevivalIsQueued(w1, run[1..], t);
        if run[0] == CommandTask {
          WithinAfterHead(w.m.commands, Taken(run), t);
          WithinAfterStep(w.m.commands[1..], w1.m.commands, k, t);
        } else {
          WithinAfterStep(w.m.commands, w1.m.commands, k, t);
        }
      }
    }
  }

  lemma NothingTaken(commands: seq<Command>, t: nat)
    ensures !RevivalWithin(commands, 0, t)
  {
  }

  lemma HeadTaken(commands: seq<Command>, k: nat, t: nat)
    requires commands != [] && 0 < k && Revives(commands[0], t)
    ensures RevivalWithin(commands, k, t)
  {
  }

  // ---- After a stop ----

  // After a stop or delete is taken, and while the user sends no further command for it, the timer
  // stays in no list and does not fire over a run if and only if none of the commands that were
  // queued behind the stop and that the run takes revives it.
  lemma StoppedStaysStopped(w: World, run: seq<Step>, t: nat)
    requires WorldInv(w) && Enabled(w, CommandTask)
    requires (w.m.commands[0].Stop? || w.m.commands[0].Delete?) && w.m.commands[0].timer == t
    requires Feasible(Apply(w, CommandTask), run)
    requires forall s :: s in run ==> Leaves(s, t)
    ensures RestsThroughout(Apply(w, CommandTask), run, t, FiresOf(t, w.m.fired)) <==>
              !RevivalWithin(w.m.commands[1..], Taken(run), t)
  {
    hide CommandPass, Inv, RevivalWithin, Appends, FiresSane, CommandsSane, FiresOf, NotLinked;
    InvIsWf(w.m);
    var w1 := Apply(w, CommandTask);
    StepKeepsInvariant(w, CommandTask);
    StopEndsLinked(w, t);
    StepAppends(w, CommandTask, t);
    WithinAfterStep(w.m.commands[1..], w1.m.commands, Taken(run), t);
    RestsUnlessRevived(w1, run, t, FiresOf(t, w.m.fired));
    RevivalIsQueued(w1, run, t);
  }

  // With nothing of its own behind the stop, the timer never fires again.
  lemma NothingBehindStop(w: World, run: seq<Step>, t: nat)
    requires WorldInv(w) && Enabled(w, CommandTask)
    requires (w.m.commands[0].Stop? || w.m.commands[0].Delete?) && w.m.commands[0].timer == t
    requires CommandsFor(t, w.m.commands[1..]) == []
    requires Feasible(Apply(w, CommandTask), run)
    requires forall s :: s in run ==> Leaves(s, t)
    ensures RestsThroughout(Apply(w, CommandTask), run, t, FiresOf(t, w.m.fired))
  {
    hide Apply, Leaves, RestsThroughout, FiresOf, CommandsFor, Revives, Inv;
    StoppedStaysStopped(w, run, t);
    NoneFor(t, w.m.commands[1..]);
  }

  // ---- The active flag of a one-shot timer ----

  lemma FiredWasListed(m: Model, now: nat, t: nat)
    requires Inv(m) && FiresOf(t, Sample(m, now).fired) != FiresOf(t, m.fired)
    ensures t in m.timers && m.timers[t].active && Sample(m, now).timers == m.timers && Epoch(now) != Epoch(m.now)
  {
    if Epoch(now) != Epoch(m.now) {
      DrainAdds(m, now);
      FiresOfConcat(t, m.fired, Fires(m, now));
      if !HasId(m.current, t) {
        OthersDoNotFire(m, now, t);
      }
    }
  }

  lemma PassMarks(m: Model, now: nat, t: nat)
    requires Inv(m) && SampleInTime(m, now) && t in m.timers && !m.timers[t].autoReload
    requires FiresOf(t, TimerPass(m, now).fired) != FiresOf(t, m.fired)
    ensures !TimerPass(m, now).timers[t].active <==> Epoch(now) == Epoch(m.now)
  {
    hide FiresOf, CommandsFor, Inv, Wf, Insert;
    InvIsWf(m);
    var s := Sample(m, now);
    if Epoch(now) == Epoch(m.now) {
      if s.current != [] && s.current[0].key <= now {
        SampleInv(m, now);
        InvIsWf(s);
        if s.current[0].id != t {
          ProcessExpiredOther(s, t);
        }
      }
    } else {
      FiredWasListed(m, now, t);
    }
  }

  lemma CommandMarks(m: Model, now: nat, t: nat)
    requires Inv(m) && m.commands != [] && SampleInTime(Accept(m), now)
    requires t in m.timers && !m.timers[t].autoReload
    requires FiresOf(t, CommandPass(m, now).fired) != FiresOf(t, m.fired)
    ensures CommandPass(m, now).timers[t].active
  {
    hide FiresOf, CommandsFor, Inv, Wf, Sample, Insert, NotLinked;
    InvIsWf(m);
    var c, a := m.commands[0], Accept(m);
    HeadIsOk(m);
    AcceptInv(m);
    if !c.Call? {
      if c.timer == t {
        CommandedIsIdle(m, now);
      } else {
        ObeyOther(Sample(a, now), c, t);
        FiredWasListed(a, now, t);
      }
    }
  }

  // A start of a one-shot timer that is taken when the period has passed: it fires and stays active.
  lemma LateOneShotStaysActive()
    ensures var w := World(Model(map[0 := Timer(1, false, false)], [], [], [Start(0, 0)], 0, [], []), 1);
            && WorldInv(w) && Enabled(w, CommandTask)
            && var m1 := Apply(w, CommandTask).m;
               m1.fired == [Fire(0, 1, 1)] && ListsEmpty(m1) && m1.commands == [] && m1.timers[0].active
  {
  }

  // The step that fires a one-shot timer marks it inactive if and only if it is a pass of the timer
  // task that does not switch the lists; otherwise it stays marked active although it is in no list.
  lemma FiredIsMarkedInactive(w: World, s: Step, t: nat, p: nat)
    requires WorldInv(w) && Enabled(w, s) && OneShot(w.m, t, p)
    requires FiresOf(t, Apply(w, s).m.fired) != FiresOf(t, w.m.fired)
    ensures !Apply(w, s).m.timers[t].active <==> s == TimerTask && Epoch(w.clock) == Epoch(w.m.now)
  {
    hide FiresOf, Inv, TimerPass, CommandPass;
    match s
    case TimerTask => PassMarks(w.m, w.clock, t);
    case CommandTask => CommandMarks(w.m, w.clock, t);
    case _ =>
  }
}
