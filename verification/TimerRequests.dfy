/** A stop or a reset of a running auto-reload timer, from the moment it is requested.

    When the command's turn comes, the timer is either still in a list, and then the command is
    final, or the daemon has already queued a restart behind it.  That restart revives a stopped
    timer, and takes a reset one off the times it was reset to, exactly when it is taken in turn.
 */
module TimerRequests {
  import opened Ticks
  import opened SortedLists
  import opened TimerModel
  import opened TimerInvariant
  import opened TimerSwitch
  import opened TimerDrift
  import opened TimerCommands
  import opened TimerStops

  // ---- A command on its way through the queue ----

  lemma {:induction false} QueueAfter(w: World, run: seq<Step>)
    requires WorldInv(w) && Feasible(w, run) && Taken(run) <= |w.m.commands|
    ensures w.m.commands[Taken(run)..] <= Exec(w, run).m.commands
    decreases |run|
  {
    hide Inv, FiresSane, CommandsSane, Apply;
    InvIsWf(w.m);
    if run != [] {
      StepKeepsQueue(w, run[0]);
      StepKeepsInvariant(w, run[0]);
      QueueAfter(Apply(w, run[0]), run[1..]);
    }
  }

  // Command c of timer t is the k-th in the queue.  Either the timer is listed for last + p and has
  // no other command pending, or it is in no list and one restart is pending, before c or behind it.
  ghost predicate Waiting(m: Model, t: nat, p: nat, last: nat, c: Command, k: nat) {
    && k < |m.commands| && m.commands[k] == c
    && var before, behind := CommandsFor(t, m.commands[..k]), CommandsFor(t, m.commands[k + 1..]);
       || (LinkedAt(m, Entry(t, last + p)) && before == [] && behind == [])
       || (NotLinked(m, t) && before + behind == [Start(t, last)])
  }

  // The timer has fired n times since t0, for its first n expiries, while command c waits.
  ghost predicate OnLadderFor(m: Model, t: nat, p: nat, t0: nat, prior: seq<nat>, n: nat, c: Command, k: nat) {
    && AutoReload(m, t, p)
    && FiresOf(t, m.fired) == prior + Ladder(t0, p, n)
    && Waiting(m, t, p, Rung(t0, p, n), c, k)
  }

  lemma SplitAt(t: nat, commands: seq<Command>, k: nat)
    requires k < |commands| && !commands[k].Call? && commands[k].timer == t
    ensures CommandsFor(t, commands) ==
              CommandsFor(t, commands[..k]) + [commands[k]] + CommandsFor(t, commands[k + 1..])
  {
    assert commands == commands[..k] + [commands[k]] + commands[k + 1..];
    CommandsForConcat(t, commands[..k] + [commands[k]], commands[k + 1..]);
    CommandAppended(t, commands[..k], commands[k]);
  }

  // c is the timer's first command: it is on its ladder with c queued.
  lemma FrontIsLadder(m: Model, t: nat, p: nat, t0: nat, prior: seq<nat>, n: nat, c: Command, k: nat)
    requires !c.Call? && c.timer == t && k < |m.commands| && m.commands[k] == c
    requires CommandsFor(t, m.commands[..k]) == []
    ensures OnLadderFor(m, t, p, t0, prior, n, c, k) <==> OnLadder(m, t, p, t0, prior, n, [c])
  {
    hide CommandsFor, FiresOf, Ladder, LinkedAt, NotLinked, AutoReload;
    SplitAt(t, m.commands, k);
    var behind := CommandsFor(t, m.commands[k + 1..]);
    assert [] + [c] + behind == [c] + behind && [] + behind == behind;
    assert [c] + behind == [c] <==> behind == [] by {
      assert |[c] + behind| == 1 + |behind|;
    }
    var restart := [Start(t, Rung(t0, p, n))];
    assert [c] + behind == [c] + restart <==> behind == restart by {
      assert ([c] + behind)[1..] == behind && ([c] + restart)[1..] == restart;
    }
  }

  // What is before c after a step.
  lemma BeforeAfterStep(w: World, s: Step, t: nat, k: nat)
    requires Wf(w.m) && Enabled(w, s) && k < |w.m.commands| && (s == CommandTask ==> 0 < k)
    ensures var k1, commands := if s == CommandTask then k - 1 else k, Apply(w, s).m.commands;
            && k1 < |commands| && commands[k1] == w.m.commands[k]
            && CommandsFor(t, w.m.commands[..k]) ==
                 (if TakesOwn(w, s, t) then [w.m.commands[0]] else []) + CommandsFor(t, commands[..k1])
  {
    hide Apply, Wf;
    StepKeepsQueue(w, s);
    var k1, commands := if s == CommandTask then k - 1 else k, Apply(w, s).m.commands;
    if s == CommandTask {
      assert w.m.commands[..k][1..] == w.m.commands[1..][..k1];
    }
    assert commands[..k1] == (if s == CommandTask then w.m.commands[1..] else w.m.commands)[..k1];
  }

  // While c has not come to the head of the queue, the timer stays on its ladder.
  lemma StepWhileWaiting(w: World, s: Step, t: nat, p: nat, t0: nat, prior: seq<nat>, n: nat, c: Command, k: nat)
    returns (n': nat)
    requires WorldInv(w) && Enabled(w, s) && Leaves(s, t) && (s == CommandTask ==> 0 < k)
    requires !c.Call? && c.timer == t && OnLadderFor(w.m, t, p, t0, prior, n, c, k)
    ensures n <= n'
    ensures OnLadderFor(Apply(w, s).m, t, p, t0, prior, n', c, if s == CommandTask then k - 1 else k)
  {
    hide CommandsFor, FiresOf, Ladder, LinkedAt, NotLinked, AutoReload, Inv, Wf, OnLadder, Rung, Apply;
    InvIsWf(w.m);
    var w1, k1 := Apply(w, s), if s == CommandTask then k - 1 else k;
    BeforeAfterStep(w, s, t, k);
    if CommandsFor(t, w.m.commands[..k]) == [] {
      FrontIsLadder(w.m, t, p, t0, prior, n, c, k);
      n' := StepOnLadder(w, s, t, p, t0, prior, n, [c]);
      FrontIsLadder(w1.m, t, p, t0, prior, n', c, k1);
    } else if TakesOwn(w, s, t) {
      n' := RestartWhileWaiting(w, t, p, t0, prior, n, c, k);
      FrontIsLadder(w1.m, t, p, t0, prior, n', c, k1);
    } else {
      n' := n;
      IdleWhileWaiting(w, s, t, p, t0, prior, n, c, k);
    }
  }

  // The restart before c is taken.
  lemma RestartWhileWaiting(w: World, t: nat, p: nat, t0: nat, prior: seq<nat>, n: nat, c: Command, k: nat)
    returns (n': nat)
    requires WorldInv(w) && Enabled(w, CommandTask) && 0 < k && TakesOwn(w, CommandTask, t)
    requires !c.Call? && c.timer == t && OnLadderFor(w.m, t, p, t0, prior, n, c, k)
    ensures n <= n' && OnLadder(Apply(w, CommandTask).m, t, p, t0, prior, n', [c])
    ensures k <= |Apply(w, CommandTask).m.commands| && CommandsFor(t, Apply(w, CommandTask).m.commands[..k - 1]) == []
  {
    hide FiresOf, Ladder, LinkedAt, NotLinked, AutoReload, Inv, Wf, OnLadder, Rung, CommandPass, CommandsFor;
    InvIsWf(w.m);
    BeforeAfterStep(w, CommandTask, t, k);
    SplitAt(t, w.m.commands, k);
    HeadOfOwn(t, w.m.commands);
    var before, behind := CommandsFor(t, w.m.commands[..k]), CommandsFor(t, w.m.commands[k + 1..]);
    assert (before + behind)[0] == w.m.commands[0] && |before + behind| == 1;
    assert behind == [] && before == [w.m.commands[0]];
    assert ([w.m.commands[0]] + CommandsFor(t, w.m.commands[1..]))[1..] == (before + [c] + behind)[1..] == [c];
    n' := OwnStart(w.m, w.clock, t, p, t0, prior, n, [c]);
  }

  lemma HeadOfOwn(t: nat, commands: seq<Command>)
    requires commands != [] && !commands[0].Call? && commands[0].timer == t
    ensures CommandsFor(t, commands) == [commands[0]] + CommandsFor(t, commands[1..])
  {
  }

  // The restart before c stays there.
  lemma IdleWhileWaiting(w: World, s: Step, t: nat, p: nat, t0: nat, prior: seq<nat>, n: nat, c: Command, k: nat)
    requires WorldInv(w) && Enabled(w, s) && Leaves(s, t) && (s == CommandTask ==> 0 < k)
    requires !c.Call? && c.timer == t && OnLadderFor(w.m, t, p, t0, prior, n, c, k)
    requires CommandsFor(t, w.m.commands[..k]) != [] && !TakesOwn(w, s, t)
    ensures OnLadderFor(Apply(w, s).m, t, p, t0, prior, n, c, if s == CommandTask then k - 1 else k)
  {
    hide CommandsFor, FiresOf, Ladder, Inv, Wf, Rung, Apply;
    InvIsWf(w.m);
    var w1, k1 := Apply(w, s), if s == CommandTask then k - 1 else k;
    BeforeAfterStep(w, s, t, k);
    StepIdle(w, s, t);
    SplitAt(t, w.m.commands, k);
    SplitAt(t, w1.m.commands, k1);
    var before := CommandsFor(t, w.m.commands[..k]);
    var behind, behind1 := CommandsFor(t, w.m.commands[k + 1..]), CommandsFor(t, w1.m.commands[k1 + 1..]);
    assert before == CommandsFor(t, w1.m.commands[..k1]) && |before + behind| == 1 && behind == [];
    assert before + [c] + behind == before + [c] + behind1;
    assert |behind1| == 0;
    assert NotLinked(w.m, t) && NotLinked(w1.m, t);
  }

  lemma {:induction false} RunWhileWaiting(w: World, run: seq<Step>, t: nat, p: nat, t0: nat, prior: seq<nat>, n: nat,
                                           c: Command, k: nat)
    returns (n': nat)
    requires WorldInv(w) && Feasible(w, run) && Taken(run) <= k
    requires forall s :: s in run ==> Leaves(s, t)
    requires !c.Call? && c.timer == t && OnLadderFor(w.m, t, p, t0, prior, n, c, k)
    ensures n <= n' && OnLadderFor(Exec(w, run).m, t, p, t0, prior, n', c, k - Taken(run))
    decreases |run|
  {
    hide OnLadderFor, Inv, FiresSane, CommandsSane, Apply, Leaves;
    InvIsWf(w.m);
    n' := n;
    if run != [] {
      var n1 := StepWhileWaiting(w, run[0], t, p, t0, prior, n, c, k);
      StepKeepsInvariant(w, run[0]);
      n' := RunWhileWaiting(Apply(w, run[0]), run[1..], t, p, t0, prior, n1,
                            c, if run[0] == CommandTask then k - 1 else k);
    }
  }

  lemma RequestWaits(w: World, t: nat, p: nat, t0: nat, prior: seq<nat>, n: nat, c: Command)
    requires WorldInv(w) && Enabled(w, Request(c)) && !c.Call? && c.timer == t
    requires OnLadder(w.m, t, p, t0, prior, n, [])
    ensures OnLadderFor(Apply(w, Request(c)).m, t, p, t0, prior, n, c, |w.m.commands|)
  {
    var m1 := Apply(w, Request(c)).m;
    assert m1.commands[..|w.m.commands|] == w.m.commands;
    assert CommandsFor(t, m1.commands[|w.m.commands| + 1..]) == [];
  }

  // A command for an auto-reload timer on its ladder is requested, and the run takes the commands
  // queued before it.  Then it is at the head; and the timer is either listed for its next expiry with
  // nothing of its own behind, or in no list with exactly the restart for its last expiry behind.
  lemma RequestedIsTaken(w: World, run: seq<Step>, t: nat, p: nat, t0: nat, prior: seq<nat>, n: nat, c: Command)
    returns (n': nat)
    requires WorldInv(w) && Enabled(w, Request(c)) && !c.Call? && c.timer == t
    requires OnLadder(w.m, t, p, t0, prior, n, [])
    requires Feasible(Apply(w, Request(c)), run) && Taken(run) == |w.m.commands|
    requires forall s :: s in run ==> Leaves(s, t)
    ensures var m1 := Exec(Apply(w, Request(c)), run).m;
            && n <= n' && AutoReload(m1, t, p) && FiresOf(t, m1.fired) == prior + Ladder(t0, p, n')
            && m1.commands != [] && m1.commands[0] == c
            && if NotLinked(m1, t) then CommandsFor(t, m1.commands[1..]) == [Start(t, Rung(t0, p, n'))]
               else LinkedAt(m1, Entry(t, Rung(t0, p, n' + 1))) && CommandsFor(t, m1.commands[1..]) == []
  {
    hide Apply, Feasible, Inv, FiresSane, CommandsSane, Leaves, FiresOf, Exec, Ladder, AutoReload, OnLadder;
    InvIsWf(w.m);
    RequestWaits(w, t, p, t0, prior, n, c);
    StepKeepsInvariant(w, Request(c));
    n' := RunWhileWaiting(Apply(w, Request(c)), run, t, p, t0, prior, n, c, |w.m.commands|);
    var m1 := Exec(Apply(w, Request(c)), run).m;
    assert m1.commands[..0] == [];
    assert [] + CommandsFor(t, m1.commands[1..]) == CommandsFor(t, m1.commands[1..]);
  }

  // ---- A stop ----

  // Where the timer's first command is.
  lemma {:induction false} FirstOwn(t: nat, commands: seq<Command>) returns (j: nat)
    requires CommandsFor(t, commands) != []
    ensures j < |commands| && commands[j] == CommandsFor(t, commands)[0] && CommandsFor(t, commands[..j]) == []
  {
    if !commands[0].Call? && commands[0].timer == t {
      j := 0;
    } else {
      var i := FirstOwn(t, commands[1..]);
      j := i + 1;
      assert commands[..j][1..] == commands[1..][..i];
    }
  }

  lemma WithinFromFirst(t: nat, commands: seq<Command>, j: nat, k: nat)
    requires j < |commands| && Revives(commands[j], t) && CommandsFor(t, commands[..j]) == []
    ensures RevivalWithin(commands, k, t) <==> j < k
  {
    hide CommandsFor, Revives;
    NoneFor(t, commands[..j]);
    assert forall i :: 0 <= i < j ==> commands[i] == commands[..j][i];
  }

  // A running auto-reload timer is stopped or deleted.  When that command is taken, the timer is
  // still in a list, and the stop is final: it rests over every run.  Or it is in no list; then the
  // restart for its last expiry is queued, j places behind, and the timer rests over a run if and
  // only if the run does not take that restart.
  lemma StopIsFinalExactly(w: World, run: seq<Step>, rest: seq<Step>, t: nat, p: nat, t0: nat, prior: seq<nat>, n: nat,
                           c: Command)
    returns (n': nat, j: nat)
    requires WorldInv(w) && Enabled(w, Request(c)) && (c == Stop(t) || c == Delete(t))
    requires OnLadder(w.m, t, p, t0, prior, n, [])
    requires Feasible(Apply(w, Request(c)), run) && Taken(run) == |w.m.commands|
    requires forall s :: s in run + rest ==> Leaves(s, t)
    requires var w1 := Exec(Apply(w, Request(c)), run);
             Enabled(w1, CommandTask) && Feasible(Apply(w1, CommandTask), rest)
    ensures var w1 := Exec(Apply(w, Request(c)), run);
            && n <= n' && w1.m.commands[0] == c && FiresOf(t, w1.m.fired) == prior + Ladder(t0, p, n')
            && if NotLinked(w1.m, t) then
                 && j < |w1.m.commands[1..]| && w1.m.commands[1..][j] == Start(t, Rung(t0, p, n'))
                 && (RestsThroughout(Apply(w1, CommandTask), rest, t, FiresOf(t, w1.m.fired)) <==> Taken(rest) <= j)
               else RestsThroughout(Apply(w1, CommandTask), rest, t, FiresOf(t, w1.m.fired))
  {
    hide Apply, Feasible, Inv, FiresSane, CommandsSane, Leaves, FiresOf, Exec, Ladder, AutoReload, OnLadder,
         RestsThroughout, RevivalWithin, CommandsFor, Rung;
    j := 0;
    n' := RequestedIsTaken(w, run, t, p, t0, prior, n, c);
    InvIsWf(w.m);
    StepKeepsInvariant(w, Request(c));
    RunKeepsInvariant(Apply(w, Request(c)), run);
    var w1 := Exec(Apply(w, Request(c)), run);
    StoppedStaysStopped(w1, rest, t);
    if NotLinked(w1.m, t) {
      j := FirstOwn(t, w1.m.commands[1..]);
      WithinFromFirst(t, w1.m.commands[1..], j, Taken(rest));
    } else {
      NothingBehindStop(w1, rest, t);
    }
  }
}
