/** What emptying the outgoing list does when the tick counter has wrapped, in closed form. */
module TimerSwitch {
  import opened Ticks
  import opened SortedLists
  import opened TimerModel
  import opened TimerInvariant

  // The expiries of timer t that ran, in the order they ran.
  function FiresOf(t: nat, fired: seq<Fire>): seq<nat> {
    if fired == [] then []
    else (if fired[0].timer == t then [fired[0].due] else []) + FiresOf(t, fired[1..])
  }

  // The queued commands that concern timer t.
  function CommandsFor(t: nat, commands: seq<Command>): seq<Command> {
    if commands == [] then []
    else
      (if !commands[0].Call? && commands[0].timer == t then [commands[0]] else []) +
      CommandsFor(t, commands[1..])
  }

  lemma {:induction false} FiresOfConcat(t: nat, a: seq<Fire>, b: seq<Fire>)
    ensures FiresOf(t, a + b) == FiresOf(t, a) + FiresOf(t, b)
  {
    if a == [] {
      assert a + b == b;
    } else {
      assert (a + b)[1..] == a[1..] + b;
      FiresOfConcat(t, a[1..], b);
      var head := if a[0].timer == t then [a[0].due] else [];
      assert head + (FiresOf(t, a[1..]) + FiresOf(t, b)) == (head + FiresOf(t, a[1..])) + FiresOf(t, b);
    }
  }

  lemma {:induction false} CommandsForConcat(t: nat, a: seq<Command>, b: seq<Command>)
    ensures CommandsFor(t, a + b) == CommandsFor(t, a) + CommandsFor(t, b)
  {
    if a == [] {
      assert a + b == b;
    } else {
      assert (a + b)[1..] == a[1..] + b;
      CommandsForConcat(t, a[1..], b);
      var head := if !a[0].Call? && a[0].timer == t then [a[0]] else [];
      assert head + (CommandsFor(t, a[1..]) + CommandsFor(t, b)) == (head + CommandsFor(t, a[1..])) + CommandsFor(t, b);
    }
  }

  lemma FireAppended(t: nat, fired: seq<Fire>, f: Fire)
    ensures FiresOf(t, fired + [f]) == FiresOf(t, fired) + if f.timer == t then [f.due] else []
  {
    FiresOfConcat(t, fired, [f]);
  }

  lemma CommandAppended(t: nat, commands: seq<Command>, c: Command)
    ensures CommandsFor(t, commands + [c]) ==
              CommandsFor(t, commands) + if !c.Call? && c.timer == t then [c] else []
  {
    CommandsForConcat(t, commands, [c]);
  }

  // Every expiry of a timer from `due` on, period by period, that lies before `end`.
  function ExpiriesBefore(due: nat, period: nat, end: nat): seq<nat>
    requires 0 < period
    decreases end - due
  {
    if end <= due then [] else [due] + ExpiriesBefore(due + period, period, end)
  }

  function LastBefore(due: nat, period: nat, end: nat): (r: nat)
    requires 0 < period && due < end
    ensures due <= r < end <= r + period
    ensures ExpiriesBefore(due, period, end) != []
    ensures r == ExpiriesBefore(due, period, end)[|ExpiriesBefore(due, period, end)| - 1]
    decreases end - due
  {
    if end <= due + period then due else LastBefore(due + period, period, end)
  }

  // ---- What the switch at `at` adds to the trace and to the command queue ----

  function StepFires(m: Model, at: nat): seq<Fire>
    requires Wf(m) && m.current != []
  {
    [Fire(m.current[0].id, m.current[0].key, at)]
  }

  function StepRestarts(m: Model): seq<Command>
    requires Wf(m) && m.current != []
  {
    var e := m.current[0];
    if m.timers[e.id].autoReload && Epoch(e.key + m.timers[e.id].period) != Epoch(e.key)
    then [Start(e.id, e.key)] else []
  }

  function Fires(m: Model, at: nat): seq<Fire>
    requires Wf(m)
    decreases TicksLeft(m.current)
  {
    if m.current == [] then []
    else
      DrainStepDecreases(m, at);
      StepFires(m, at) + Fires(DrainStep(m, at), at)
  }

  function Restarts(m: Model, at: nat): seq<Command>
    requires Wf(m)
    decreases TicksLeft(m.current)
  {
    if m.current == [] then []
    else
      DrainStepDecreases(m, at);
      StepRestarts(m) + Restarts(DrainStep(m, at), at)
  }

  lemma {:induction false} DrainAdds(m: Model, at: nat)
    requires Wf(m)
    ensures Drain(m, at).fired == m.fired + Fires(m, at)
    ensures Drain(m, at).commands == m.commands + Restarts(m, at)
    decreases TicksLeft(m.current)
  {
    hide DrainStep, TicksLeft, StepFires, StepRestarts;
    if m.current == [] {
      assert m.fired + [] == m.fired && m.commands + [] == m.commands;
    } else {
      var m1 := DrainStep(m, at);
      DrainStepDecreases(m, at);
      DrainAdds(m1, at);
      AddsOnce(m, at);
      assert m.fired + StepFires(m, at) + Fires(m1, at) == m.fired + (StepFires(m, at) + Fires(m1, at));
      assert m.commands + StepRestarts(m) + Restarts(m1, at) == m.commands + (StepRestarts(m) + Restarts(m1, at));
    }
  }

  lemma AddsOnce(m: Model, at: nat)
    requires Wf(m) && m.current != []
    ensures DrainStep(m, at).fired == m.fired + StepFires(m, at)
    ensures DrainStep(m, at).commands == m.commands + StepRestarts(m)
  {
    assert m.commands + [] == m.commands;
  }

  lemma StepKeepsLowerBound(m: Model, at: nat)
    requires Wf(m) && m.current != [] && Sorted(m.current)
    ensures forall x :: x in DrainStep(m, at).current ==> m.current[0].key <= x.key
  {
    assert forall x :: x in m.current[1..] ==> m.current[0].key <= x.key;
  }

  ghost predicate InOrder(fires: seq<Fire>) {
    forall i, j :: 0 <= i < j < |fires| ==> fires[i].due <= fires[j].due
  }

  lemma InOrderCons(f: Fire, fires: seq<Fire>)
    requires InOrder(fires) && (fires != [] ==> f.due <= fires[0].due)
    ensures InOrder([f] + fires)
  {
  }

  // The switch loop fires in global expiry order, and only expiries of the outgoing epoch.
  lemma {:induction false} FiresInOrder(m: Model, at: nat, epoch: nat)
    requires ListsInv(m, epoch)
    ensures InOrder(Fires(m, at))
    ensures m.current == [] <==> Fires(m, at) == []
    ensures m.current != [] ==> Fires(m, at)[0].due == m.current[0].key
    ensures forall f :: f in Fires(m, at) ==> f.at == at && Epoch(f.due) == epoch
    decreases TicksLeft(m.current)
  {
    if m.current != [] {
      var m1 := DrainStep(m, at);
      DrainStepDecreases(m, at);
      DrainStepInv(m, at, epoch);
      FiresInOrder(m1, at, epoch);
      StepKeepsLowerBound(m, at);
      assert m.current[0] in m.current;
      if m1.current != [] {
        assert m1.current[0] in m1.current;
      }
      InOrderCons(StepFires(m, at)[0], Fires(m1, at));
    }
  }

  // A timer that is not in the outgoing list is not fired and not restarted.
  lemma {:induction false} OthersDoNotFire(m: Model, at: nat, t: nat)
    requires Wf(m) && !HasId(m.current, t)
    ensures FiresOf(t, Fires(m, at)) == [] && CommandsFor(t, Restarts(m, at)) == []
    decreases TicksLeft(m.current)
  {
    if m.current != [] {
      var m1 := DrainStep(m, at);
      DrainStepDecreases(m, at);
      assert m.current[0] in m.current;
      OthersDoNotFire(m1, at, t);
      SplitAdds(m, at, t);
    }
  }

  lemma SplitAdds(m: Model, at: nat, t: nat)
    requires Wf(m) && m.current != []
    ensures var m1 := DrainStep(m, at);
            && FiresOf(t, Fires(m, at)) == FiresOf(t, StepFires(m, at)) + FiresOf(t, Fires(m1, at))
            && CommandsFor(t, Restarts(m, at)) ==
                 CommandsFor(t, StepRestarts(m)) + CommandsFor(t, Restarts(m1, at))
  {
    FiresOfConcat(t, StepFires(m, at), Fires(DrainStep(m, at), at));
    CommandsForConcat(t, StepRestarts(m), Restarts(DrainStep(m, at), at));
  }

  // What the switch does for a timer listed with expiry `due`: it fires for exactly its expiries
  // left before `end` (a one-shot timer for its only one), and an auto-reload timer leaves one
  // restart command, carrying the last of them.
  ghost predicate ExactFor(m: Model, at: nat, end: nat, t: nat, due: nat)
    requires Wf(m)
  {
    && due < end && t in m.timers
    && var timer := m.timers[t];
       if timer.autoReload then
         && FiresOf(t, Fires(m, at)) == ExpiriesBefore(due, timer.period, end)
         && CommandsFor(t, Restarts(m, at)) == [Start(t, LastBefore(due, timer.period, end))]
       else
         FiresOf(t, Fires(m, at)) == [due] && CommandsFor(t, Restarts(m, at)) == []
  }

  lemma OtherStaysLinked(m: Model, at: nat, e: Entry)
    requires Wf(m) && m.current != [] && e in m.current && e.id != m.current[0].id
    ensures e in DrainStep(m, at).current
  {
    assert m.current == [m.current[0]] + m.current[1..];
  }

  predicate Reloads(m: Model)
    requires Wf(m) && m.current != []
  {
    var e := m.current[0];
    m.timers[e.id].autoReload && Epoch(e.key + m.timers[e.id].period) == Epoch(e.key)
  }

  lemma HeadReloads(m: Model, at: nat)
    requires Wf(m) && m.current != [] && Reloads(m)
    ensures var e := m.current[0];
            Entry(e.id, e.key + m.timers[e.id].period) in DrainStep(m, at).current
  {
  }

  lemma HeadLeaves(m: Model, at: nat)
    requires Wf(m) && m.current != [] && !Reloads(m)
    ensures DrainStep(m, at).current == m.current[1..]
  {
  }

  lemma HeadAdds(m: Model, at: nat)
    requires Wf(m) && m.current != []
    ensures var e, m1 := m.current[0], DrainStep(m, at);
            && FiresOf(e.id, Fires(m, at)) == [e.key] + FiresOf(e.id, Fires(m1, at))
            && CommandsFor(e.id, Restarts(m, at)) ==
                 (if m.timers[e.id].autoReload && !Reloads(m) then [Start(e.id, e.key)] else []) +
                 CommandsFor(e.id, Restarts(m1, at))
  {
    SplitAdds(m, at, m.current[0].id);
  }

  lemma ReloadsBeforeEnd(m: Model, end: nat)
    requires ListsInv(m, Epoch(m.now)) && end == EpochEnd(m.now) && m.current != []
    ensures var e := m.current[0];
            Reloads(m) <==> m.timers[e.id].autoReload && e.key + m.timers[e.id].period < end
    ensures m.current[0].key < end
  {
    var e := m.current[0];
    assert e in m.current;
    EpochMonotone(e.key, e.key + m.timers[e.id].period);
    BeforeEpochEnd(m.now, e.key);
    BeforeEpochEnd(m.now, e.key + m.timers[e.id].period);
  }

  // The timer fires for the last time in this epoch.
  lemma FiresAndLeaves(m: Model, at: nat, end: nat, t: nat, due: nat)
    requires ListsInv(m, Epoch(m.now)) && end == EpochEnd(m.now)
    requires m.current != [] && m.current[0] == Entry(t, due) && !Reloads(m)
    ensures ExactFor(m, at, end, t, due)
  {
    HeadAdds(m, at);
    HeadLeaves(m, at);
    ReloadsBeforeEnd(m, end);
    PopListInv(m.timers, m.current, Epoch(m.now));
    OthersDoNotFire(DrainStep(m, at), at, t);
    if m.timers[t].autoReload {
      assert ExpiriesBefore(due + m.timers[t].period, m.timers[t].period, end) == [];
    }
  }

  // The timer fires and stays in the outgoing list.
  lemma FiresAndReloads(m: Model, at: nat, end: nat, t: nat, due: nat)
    requires Wf(m) && m.current != [] && m.current[0] == Entry(t, due)
    requires Reloads(m) && due + m.timers[t].period < end
    requires ExactFor(DrainStep(m, at), at, end, t, due + m.timers[t].period)
    ensures ExactFor(m, at, end, t, due)
  {
    hide Fires, Restarts, FiresOf, CommandsFor, Epoch, InsertSorted;
    HeadAdds(m, at);
    var later := CommandsFor(t, Restarts(DrainStep(m, at), at));
    assert [] + later == later;
  }

  // Another timer fires first.
  lemma OtherFires(m: Model, at: nat, end: nat, t: nat, due: nat)
    requires Wf(m) && m.current != [] && m.current[0].id != t
    requires ExactFor(DrainStep(m, at), at, end, t, due)
    ensures ExactFor(m, at, end, t, due)
  {
    SplitAdds(m, at, t);
  }

  lemma {:induction false} FiresExactly(m: Model, at: nat, end: nat, t: nat, due: nat)
    requires ListsInv(m, Epoch(m.now)) && end == EpochEnd(m.now)
    requires Entry(t, due) in m.current
    ensures ExactFor(m, at, end, t, due)
    decreases TicksLeft(m.current)
  {
    hide ExactFor, TicksLeft, InsertSorted, Epoch, EpochEnd, Sorted, UniqueIds, Apart;
    DrainStepDecreases(m, at);
    DrainStepInv(m, at, Epoch(m.now));
    var m1 := DrainStep(m, at);
    if m.current[0].id != t {
      OtherStaysLinked(m, at, Entry(t, due));
      FiresExactly(m1, at, end, t, due);
      OtherFires(m, at, end, t, due);
    } else {
      UniqueEntry(m.current, m.current[0], Entry(t, due));
      if Reloads(m) {
        HeadReloads(m, at);
        FiresExactly(m1, at, end, t, due + m.timers[t].period);
        ReloadsBeforeEnd(m, end);
        FiresAndReloads(m, at, end, t, due);
      } else {
        FiresAndLeaves(m, at, end, t, due);
      }
    }
  }

  lemma UniqueEntry(s: seq<Entry>, e: Entry, f: Entry)
    requires UniqueIds(s) && e in s && f in s && e.id == f.id
    ensures e == f
  {
    var i :| 0 <= i < |s| && s[i] == e;
    var j :| 0 <= j < |s| && s[j] == f;
    if i < j {
      assert s[i].id != s[j].id;
    }
  }

  // The whole switch: the overflow list becomes current, the trace grows by the fires in global
  // expiry order, each listed timer contributing exactly its own, and no other timer any.
  lemma SwitchIsExact(m: Model, at: nat)
    requires Inv(m)
    ensures Switch(m, at).current == m.overflow && Switch(m, at).overflow == []
    ensures Switch(m, at).fired == m.fired + Fires(m, at) && InOrder(Fires(m, at))
    ensures Switch(m, at).commands == m.commands + Restarts(m, at)
    ensures forall e :: e in m.current ==> ExactFor(m, at, EpochEnd(m.now), e.id, e.key)
    ensures forall t :: !HasId(m.current, t) ==>
              FiresOf(t, Fires(m, at)) == [] && CommandsFor(t, Restarts(m, at)) == []
  {
    DrainAdds(m, at);
    DrainInv(m, at, Epoch(m.now));
    FiresInOrder(m, at, Epoch(m.now));
    forall e | e in m.current
      ensures ExactFor(m, at, EpochEnd(m.now), e.id, e.key)
    {
      FiresExactly(m, at, EpochEnd(m.now), e.id, e.key);
    }
    forall t | !HasId(m.current, t)
      ensures FiresOf(t, Fires(m, at)) == [] && CommandsFor(t, Restarts(m, at)) == []
    {
      OthersDoNotFire(m, at, t);
    }
  }
}
