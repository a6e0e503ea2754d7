/** The timer daemon as the kernel runs it: it sees ticks, two list pointers and a queue.

    Each method is proved to take exactly the corresponding step of TimerModel, which is stated
    in true time.  The ghost field `model` is that true-time state; `Mirrors` says that the real
    fields are its image under truncation to ticks.
 */
module TimerDaemon {
  import opened Ticks
  import opened SortedLists
  import opened TimerModel
  import opened TimerInvariant

  // ---- The wrap-around comparison ----

  // Where prvInsertTimerInActiveList puts a timer, judging by ticks alone.
  function ClassifyTicks(expiry: nat, now: nat, command: nat, period: nat): Place {
    if expiry <= now then
      if period <= Wrap(now - command) then Expired else OverflowList
    else if now < command && command <= expiry then Expired
    else CurrentList
  }

  // For a command taken less than M ticks after the time it carries, ticks decide correctly.
  lemma WrapExact(base: nat, period: nat, now: nat)
    requires 0 < period < M && base <= now < base + M
    ensures ClassifyTicks(Tick(base + period), Tick(now), Tick(base), period) == Classify(base, period, now)
  {
    Near(base, now);
    Near(base, base + period);
    if now <= base + period {
      Near(now, base + period);
    } else {
      Near(base + period, now);
    }
  }

  // For later commands they decide as if the command were a whole number of wraps younger.
  lemma {:induction false} WholeWrapsAreInvisible(base: nat, period: nat, now: nat)
    requires 0 < period < M && base <= now
    ensures base <= now - Wrap(now - base)
    ensures ClassifyTicks(Tick(base + period), Tick(now), Tick(base), period) ==
              Classify(now - Wrap(now - base), period, now)
    decreases now - base
  {
    if now < base + M {
      WrapExact(base, period, now);
    } else {
      WholeWrapsAreInvisible(base + M, period, now);
      assert Tick(base + M) == Tick(base) && Tick(base + M + period) == Tick(base + period);
    }
  }

  // So the decision is right exactly when the command was taken in time, or the time since the
  // last whole wrap already exceeds the period.
  lemma RightExactlyWhenInTime(base: nat, period: nat, now: nat)
    requires 0 < period < M && base <= now
    ensures (ClassifyTicks(Tick(base + period), Tick(now), Tick(base), period) == Classify(base, period, now))
            <==> (now < base + M || period <= Wrap(now - base))
  {
    WholeWrapsAreInvisible(base, period, now);
    if now < base + M {
      WrapExact(base, period, now);
    }
  }

  // A timer with period 1 whose start command is taken exactly M ticks late is linked, although
  // it expired long ago.
  lemma LateCommandIsMisjudged()
    ensures Classify(0, 1, M) == Expired
    ensures ClassifyTicks(Tick(0 + 1), Tick(M), Tick(0), 1) == CurrentList
  {
  }

  // ---- Commands as they are queued ----

  function TickCommand(c: Command): Command {
    if c.Start? then Start(c.timer, Tick(c.at)) else c
  }

  function TickCommands(s: seq<Command>): (r: seq<Command>)
    ensures |r| == |s|
    ensures forall i :: 0 <= i < |s| ==> r[i] == TickCommand(s[i])
  {
    seq(|s|, i requires 0 <= i < |s| => TickCommand(s[i]))
  }

  function Callers(fired: seq<Fire>): (r: seq<nat>)
    ensures |r| == |fired|
    ensures forall i :: 0 <= i < |fired| ==> r[i] == fired[i].timer
  {
    seq(|fired|, i requires 0 <= i < |fired| => fired[i].timer)
  }

  lemma ReloadStaysInEpoch(due: nat, period: nat)
    requires 0 < period < M
    ensures Wrap(Tick(due) + period) == Tick(due + period)
    ensures Tick(due) < Tick(due + period) <==> Epoch(due + period) == Epoch(due)
  {
    TickOfSum(due, period);
    Near(due, due + period);
  }

  lemma UnlinkByTick(m: Model, t: nat)
    requires Wf(m)
    ensures TickList(Unlink(m, t).current) == Without(TickList(m.current), t)
    ensures TickList(Unlink(m, t).overflow) == Without(TickList(m.overflow), t)
  {
    WithoutByTick(m.current, t);
    WithoutByTick(m.overflow, t);
  }

  // The next instant at which the daemon has something to do: the first expiry of the current
  // list, or the next wrap if that list is empty.
  function NextExpiry(m: Model): nat {
    if m.current != [] then m.current[0].key else EpochEnd(m.now)
  }

  // No listed timer expires before it.
  lemma NextExpiryIsFirst(m: Model)
    requires Inv(m)
    ensures forall e :: e in m.current + m.overflow ==> NextExpiry(m) <= e.key
    ensures Tick(NextExpiry(m)) == if m.current != [] then Tick(m.current[0].key) else 0
  {
    EpochEndBounds(m.now);
    if m.current != [] {
      assert m.current[0] in m.current;
    }
    forall e | e in m.overflow
      ensures NextExpiry(m) <= e.key
    {
      BeforeEpochEnd(m.now, e.key);
      if m.current != [] {
        EarlierEpoch(m.current[0].key, e.key);
      }
    }
  }

  // How the timer task waits: not at all, or for some ticks, or until a command arrives.
  datatype Wait = NoWait | WaitTicks(ticks: nat) | WaitForever

  // The wait is at least one and less than M ticks long, so the next sample is in time; it ends
  // exactly at the first expiry of the current list, or at the next wrap when only the overflow
  // list has timers; it is unbounded exactly when no timer is listed.
  ghost predicate WaitIsRight(m: Model, wait: Wait) {
    match wait
    case NoWait => true
    case WaitForever => ListsEmpty(m)
    case WaitTicks(d) =>
      && !ListsEmpty(m)
      && 0 < d < M
      && m.now + d == NextExpiry(m)
      && (forall e :: e in m.current + m.overflow ==> m.now + d <= e.key)
  }

  lemma WaitIsRightAtOnce(m: Model)
    ensures WaitIsRight(m, NoWait)
  {
  }

  // A pass during which the lists are not switched, and one during which they are.
  lemma PassUnswitched(m: Model, now: nat)
    requires Wf(m) && (Epoch(now) == Epoch(m.now) || ListsEmpty(m))
    ensures Sample(m, now) == m.(now := now)
    ensures TimerPass(m, now) ==
              if m.current != [] && m.current[0].key <= now then ProcessExpired(m.(now := now)) else m.(now := now)
  {
    hide ProcessExpired, Wf;
  }

  lemma PassSwitched(m: Model, now: nat)
    requires Wf(m) && Epoch(now) != Epoch(m.now)
    ensures TimerPass(m, now) == Sample(m, now)
  {
  }

  lemma ProcessExpiredFires(m: Model)
    requires Wf(m) && m.current != []
    ensures |ProcessExpired(m).fired| == |m.fired| + 1
  {
    hide Wf, InsertSorted, Epoch;
  }

  lemma OverflowIsNextEpoch(now: nat, due: nat)
    requires now < due < now + M && Epoch(due) != Epoch(now)
    ensures Epoch(due) == Epoch(now) + 1
  {
    Near(now, due);
  }

  lemma WaitTicksRight(m: Model, nextExpire: nat)
    requires Inv(m) && !ListsEmpty(m) && nextExpire == Tick(NextExpiry(m))
    requires m.current != [] ==> m.now < m.current[0].key
    ensures WaitIsRight(m, WaitTicks(Wrap(nextExpire - Tick(m.now))))
  {
    if m.current != [] {
      assert m.current[0] in m.current;
      SameEpochOrder(m.now, m.current[0].key);
      Near(m.now, m.current[0].key);
    } else {
      if Tick(m.now) == 0 {
        EmptyAtWrap(m);
      }
      Near(m.now, EpochEnd(m.now));
    }
    NextExpiryIsFirst(m);
  }

  // ---- What the methods need to know about the lists ----

  lemma InvParts(m: Model, r: Model)
    requires Wf(r) && r.timers == m.timers && r.current == m.current && r.overflow == m.overflow && r.now == m.now
    ensures Inv(m) ==> Inv(r)
  {
    hide Wf, ListInv, Apart, WithinReach;
  }

  lemma PeriodInRange(m: Model, t: nat)
    requires Wf(m) && t in m.timers
    ensures 0 < m.timers[t].period < M
  {
    hide Owned;
  }

  // Where an insertion goes, on ticks and in true time.
  lemma InsertionByTick(m: Model, t: nat, base: nat)
    requires Inv(m) && t in m.timers && m.timers[t].active && !Linked(m, t)
    requires base <= m.now < base + M
    ensures Inv(Insert(m, t, base, m.now))
    ensures var p := m.timers[t].period;
            var e, place := Entry(t, base + p), Classify(base, p, m.now);
            && place == ClassifyTicks(Tick(base + p), Tick(m.now), Tick(base), p)
            && match place
               case Expired => Insert(m, t, base, m.now) == m
               case CurrentList =>
                 && InEpoch(m.current, Epoch(e.key))
                 && Insert(m, t, base, m.now) == m.(current := InsertSorted(m.current, e))
               case OverflowList =>
                 && InEpoch(m.overflow, Epoch(e.key))
                 && Insert(m, t, base, m.now) == m.(overflow := InsertSorted(m.overflow, e))
  {
    hide InsertSorted, Linked, Apart, Tick, Epoch, Owned, Sorted, UniqueIds, WithinReach;
    var p := m.timers[t].period;
    InsertInv(m, t, base);
    WrapExact(base, p, m.now);
    if Classify(base, p, m.now) == OverflowList {
      OverflowIsNextEpoch(m.now, base + p);
    }
  }

  lemma PeriodSet(m: Model, t: nat, period: nat)
    requires Inv(m) && t in m.timers && !Linked(m, t) && 0 < period < M
    ensures Wf(m) && Inv(SetPeriod(m, t, period)) && !Linked(SetPeriod(m, t, period), t)
  {
    hide Sorted, UniqueIds, InEpoch;
  }

  // The head of a list whose expiries are in one epoch.
  lemma HeadByTick(m: Model, epoch: nat)
    requires Wf(m) && m.current != [] && InEpoch(m.current, epoch)
    ensures m.current[0].id in m.timers && Epoch(m.current[0].key) == epoch
    ensures InEpoch(m.current[1..], epoch) && Wf(m.(current := m.current[1..]))
    ensures TickList(m.current)[0] == Entry(m.current[0].id, Tick(m.current[0].key))
    ensures TickList(m.current)[1..] == TickList(m.current[1..])
    ensures epoch == Epoch(m.now) ==>
              && (Tick(m.current[0].key) <= Tick(m.now) <==> m.current[0].key <= m.now)
              && m.now < m.current[0].key + M
  {
    hide Tick, Epoch;
    assert m.current[0] in m.current;
    if epoch == Epoch(m.now) {
      SameEpochOrder(m.current[0].key, m.now);
    }
  }

  lemma HeadCommand(m: Model)
    requires Wf(m) && m.commands != []
    ensures CommandOk(m.timers, m.commands[0]) && Wf(m.(commands := m.commands[1..]))
    ensures TickCommands(m.commands[1..]) == TickCommands(m.commands)[1..]
  {
    assert m.commands[0] in m.commands;
  }

  lemma PoppedInv(m: Model)
    requires Inv(m) && m.current != []
    ensures var e, m1 := m.current[0], m.(current := m.current[1..]);
            Inv(m1) && !Linked(m1, e.id) && e.id in m.timers && m.timers[e.id].active
  {
    hide Wf, Sorted, UniqueIds;
    assert m.current[0] in m.current;
    PopInv(m, Epoch(m.now));
  }

  lemma CurrentInEpoch(m: Model)
    requires Inv(m)
    ensures InEpoch(m.current, Epoch(m.now)) && InEpoch(m.overflow, Epoch(m.now) + 1)
  {
    hide Wf, Apart, Sorted, UniqueIds, WithinReach, Epoch;
  }

  // Each command is taken at a time the daemon can judge (see TimerDrift.Enabled).
  ghost predicate CommandsInTime(m: Model, times: seq<nat>)
    requires Wf(m)
    decreases |times|
  {
    times == [] || m.commands == [] || (
      && SampleInTime(Accept(m), times[0])
      && (m.commands[0].Start? ==> m.commands[0].at <= times[0] < m.commands[0].at + M)
      && CommandsInTime(CommandPass(m, times[0]), times[1..]))
  }

  ghost function CommandRun(m: Model, times: seq<nat>): (r: Model)
    requires Wf(m)
    ensures Wf(r)
    decreases |times|
  {
    if times == [] || m.commands == [] then m else CommandRun(CommandPass(m, times[0]), times[1..])
  }

  lemma NoCommandRun(m: Model, times: seq<nat>)
    requires Wf(m)
    ensures CommandRun(m, times[..0]) == m
  {
  }

  lemma NextInTime(m: Model, times: seq<nat>, i: nat)
    requires Wf(m) && i < |times| && CommandsInTime(m, times[i..]) && m.commands != []
    ensures SampleInTime(Accept(m), times[i])
    ensures m.commands[0].Start? ==> m.commands[0].at <= times[i] < m.commands[0].at + M
    ensures CommandsInTime(CommandPass(m, times[i]), times[i + 1..])
  {
    assert times[i..][1..] == times[i + 1..];
  }

  lemma {:induction false} OneMoreCommand(m: Model, times: seq<nat>, i: nat)
    requires Wf(m) && i < |times|
    ensures var r := CommandRun(m, times[..i]);
            CommandRun(m, times[..i + 1]) == if r.commands == [] then r else CommandPass(r, times[i])
    decreases i
  {
    hide CommandPass, Wf;
    if i == 0 {
      assert times[..1][1..] == [];
    } else if m.commands != [] {
      assert times[..i + 1][1..] == times[1..][..i] && times[..i][1..] == times[1..][..i - 1];
      OneMoreCommand(CommandPass(m, times[0]), times[1..], i - 1);
    }
  }

  class Daemon {
    var timers: map<nat, Timer>
    var current: seq<Entry>
    var overflow: seq<Entry>
    var queue: seq<Command>
    var lastTime: nat
    var calls: seq<nat>
    var ran: seq<nat>
    ghost var model: Model

    ghost predicate Mirrors()
      reads this
    {
      && Wf(model)
      && timers == model.timers
      && current == TickList(model.current)
      && overflow == TickList(model.overflow)
      && queue == TickCommands(model.commands)
      && lastTime == Tick(model.now)
      && calls == Callers(model.fired)
      && ran == model.ran
    }

    ghost predicate Valid()
      reads this
    {
      Mirrors() && Inv(model)
    }

    constructor ()
      ensures Valid()
      ensures model == Model(map[], [], [], [], 0, [], [])
    {
      timers, current, overflow, queue, lastTime, calls, ran := map[], [], [], [], 0, [], [];
      model := Model(map[], [], [], [], 0, [], []);
    }

    method CreateTimer(t: nat, period: nat, autoReload: bool)
      requires Valid() && t !in timers && 0 < period < M
      modifies this
      ensures Valid()
      ensures model == old(model).(timers := old(model).timers[t := Timer(period, autoReload, false)])
    {
      timers := timers[t := Timer(period, autoReload, false)];
      model := model.(timers := timers);
    }

    // Sends a command; `trueCommand` is the command with the untruncated time.  It is refused if
    // the command queue has no room (within the block time).
    method SendCommand(c: Command, ghost trueCommand: Command, room: bool) returns (sent: bool)
      requires Mirrors() && c == TickCommand(trueCommand) && CommandOk(timers, trueCommand)
      modifies `queue, `model
      ensures Mirrors() && (old(Inv(model)) ==> Inv(model))
      ensures queue == if room then old(queue) + [c] else old(queue)
      ensures sent == room && model == if room then Post(old(model), trueCommand) else old(model)
    {
      hide Wf, ListInv, Apart, WithinReach;
      InvParts(model, Post(model, trueCommand));
      sent := room;
      if room {
        queue := queue + [c];
        model := Post(model, trueCommand);
      }
    }

    method CallBack(t: nat, ghost due: nat, ghost at: nat)
      requires Mirrors()
      modifies `calls, `model
      ensures Mirrors() && (old(Inv(model)) ==> Inv(model))
      ensures model == Callback(old(model), t, due, at)
    {
      hide Wf, ListInv, Apart, WithinReach;
      InvParts(model, Callback(model, t, due, at));
      calls := calls + [t];
      model := Callback(model, t, due, at);
    }

    method SetTimerActive(t: nat, active: bool)
      requires Valid() && t in timers && (active || !Linked(model, t))
      modifies `timers, `model
      ensures Valid()
      ensures model == SetActive(old(model), t, active)
    {
      timers := timers[t := timers[t].(active := active)];
      SetActiveInv(model, t, active);
      model := SetActive(model, t, active);
    }

    // vListInsert into the current list; `value` is the item value, `e` the item in true time.
    method InsertCurrent(t: nat, value: nat, ghost e: Entry)
      requires Mirrors() && t == e.id && value == Tick(e.key) && t in timers
      requires InEpoch(model.current, Epoch(e.key))
      modifies `current, `model
      ensures Mirrors()
      ensures model == old(model).(current := InsertSorted(old(model).current, e))
    {
      InsertByTick(model.current, e);
      current := InsertSorted(current, Entry(t, value));
      model := model.(current := InsertSorted(model.current, e));
    }

    method InsertOverflow(t: nat, value: nat, ghost e: Entry)
      requires Mirrors() && t == e.id && value == Tick(e.key) && t in timers
      requires InEpoch(model.overflow, Epoch(e.key))
      modifies `overflow, `model
      ensures Mirrors()
      ensures model == old(model).(overflow := InsertSorted(old(model).overflow, e))
    {
      InsertByTick(model.overflow, e);
      overflow := InsertSorted(overflow, Entry(t, value));
      model := model.(overflow := InsertSorted(model.overflow, e));
    }

    method InsertTimerInActiveList(t: nat, nextExpiry: nat, timeNow: nat, commandTime: nat, ghost base: nat)
      returns (processNow: bool)
      requires Valid() && t in timers && timers[t].active && !Linked(model, t)
      requires base <= model.now < base + M
      requires timeNow == Tick(model.now) && commandTime == Tick(base)
      requires nextExpiry == Tick(base + timers[t].period)
      modifies `current, `overflow, `model
      ensures Valid()
      ensures model == Insert(old(model), t, base, old(model).now)
      ensures processNow <==> Classify(base, old(model).timers[t].period, old(model).now) == Expired
      ensures processNow ==> model == old(model)
    {
      hide Inv, Wf, Insert, Classify, InsertSorted, TickList, Tick, Epoch, Wrap, InEpoch, TickCommands, Callers;
      ghost var e := Entry(t, base + timers[t].period);
      InsertionByTick(model, t, base);
      processNow := false;
      if nextExpiry <= timeNow {
        if timers[t].period <= Wrap(timeNow - commandTime) {
          processNow := true;
        } else {
          InsertOverflow(t, nextExpiry, e);
        }
      } else {
        if timeNow < commandTime && commandTime <= nextExpiry {
          processNow := true;
        } else {
          InsertCurrent(t, nextExpiry, e);
        }
      }
    }

    // The tick count has wrapped: fire whatever the outgoing list still holds, then swap.
    method SwitchTimerLists(ghost at: nat)
      requires Valid()
      modifies `current, `overflow, `queue, `calls, `model
      ensures Mirrors()
      ensures model == Switch(old(model), at)
    {
      ghost var epoch := Epoch(model.now);
      while current != []
        invariant Mirrors() && ListsInv(model, epoch)
        invariant Drain(model, at) == Drain(old(model), at)
        decreases TicksLeft(model.current)
      {
        DrainStepInv(model, at, epoch);
        DrainStepDecreases(model, at);
        SwitchOne(at);
      }
      var temp := current;
      current := overflow;
      overflow := temp;
      model := model.(current := model.overflow, overflow := model.current);
    }

    // The body of the switch loop.
    method SwitchOne(ghost at: nat)
      requires Mirrors() && current != [] && InEpoch(model.current, Epoch(model.current[0].key))
      modifies `current, `queue, `calls, `model
      ensures Mirrors()
      ensures model == DrainStep(old(model), at)
    {
      hide Wf, InsertSorted, TickList, Tick, Epoch, Wrap, InEpoch, TickCommands, Callers;
      ghost var e := model.current[0];
      HeadByTick(model, Epoch(e.key));
      PeriodInRange(model, e.id);
      var nextExpire := current[0].key;
      var t := current[0].id;
      current := current[1..];
      model := model.(current := model.current[1..]);
      CallBack(t, e.key, at);
      if timers[t].autoReload {
        ReloadStaysInEpoch(e.key, timers[t].period);
        var reloadTime := Wrap(nextExpire + timers[t].period);
        if nextExpire < reloadTime {
          InsertCurrent(t, reloadTime, Entry(t, e.key + timers[t].period));
        } else {
          var _ := SendCommand(Start(t, nextExpire), Start(t, e.key), true);
        }
      }
    }

    method SampleTimeNow(tick: nat, ghost now: nat) returns (switched: bool)
      requires Valid() && tick == Tick(now) && SampleInTime(model, now)
      modifies `current, `overflow, `queue, `calls, `lastTime, `model
      ensures Valid()
      ensures model == Sample(old(model), now)
      ensures switched ==> Epoch(now) != Epoch(old(model).now)
      ensures !ListsEmpty(old(model)) ==> (switched <==> Epoch(now) != Epoch(old(model).now))
    {
      SampleInv(model, now);
      if now < model.now + M {
        Near(model.now, now);
      }
      if tick < lastTime {
        if Epoch(now) == Epoch(model.now) {
          SameEpochOrder(model.now, now);
        }
        SwitchTimerLists(now);
        switched := true;
      } else {
        switched := false;
      }
      lastTime := tick;
      model := model.(now := now);
    }

    // The timer at the head of the current list has expired.
    method ProcessExpiredTimer(nextExpire: nat, timeNow: nat)
      requires Valid() && current != [] && nextExpire == current[0].key <= timeNow == lastTime
      modifies `timers, `current, `overflow, `queue, `calls, `model
      ensures Valid()
      ensures model == ProcessExpired(old(model))
    {
      hide Inv, Wf, Insert, InsertSorted, TickList, Tick, Epoch, Wrap, InEpoch, TickCommands, Callers;
      ghost var e, now := model.current[0], model.now;
      CurrentInEpoch(model);
      HeadByTick(model, Epoch(model.now));
      PeriodInRange(model, e.id);
      ProcessExpiredInv(model);
      PoppedInv(model);
      var t := current[0].id;
      current := current[1..];
      model := model.(current := model.current[1..]);
      if timers[t].autoReload {
        TickOfSum(e.key, timers[t].period);
        var processNow := InsertTimerInActiveList(
          t, Wrap(nextExpire + timers[t].period), timeNow, nextExpire, e.key);
        if processNow {
          var _ := SendCommand(Start(t, nextExpire), Start(t, e.key), true);
        }
      } else {
        SetTimerActive(t, false);
      }
      CallBack(t, e.key, now);
    }

    // The tick of the first instant at which something expires or the counter wraps.
    method GetNextExpireTime() returns (nextExpire: nat, listWasEmpty: bool)
      requires Valid()
      ensures listWasEmpty <==> model.current == []
      ensures nextExpire == Tick(NextExpiry(model))
      ensures forall e :: e in model.current + model.overflow ==> NextExpiry(model) <= e.key
    {
      NextExpiryIsFirst(model);
      listWasEmpty := current == [];
      nextExpire := if listWasEmpty then 0 else current[0].key;
    }

    method ProcessTimerOrBlockTask(nextExpire: nat, listWasEmpty: bool, tick: nat, ghost now: nat)
      returns (wait: Wait)
      requires Valid() && tick == Tick(now) && SampleInTime(model, now)
      requires nextExpire == Tick(NextExpiry(model)) && (listWasEmpty <==> model.current == [])
      modifies this
      ensures Valid()
      ensures model == TimerPass(old(model), now)
      ensures WaitIsRight(model, wait)
      ensures wait != NoWait ==> model.current == [] || now < model.current[0].key
      ensures wait == NoWait ==>
                Epoch(now) != Epoch(old(model).now) || model.fired != old(model).fired
    {
      hide Tick, Epoch, EpochEnd, Inv, Wf, SampleInTime, TickCommands, Callers, TimerPass, ProcessExpired, WaitIsRight;
      wait := NoWait;
      ghost var before := model;
      NextExpiryIsFirst(model);
      TimerPassInv(model, now);
      InvIsWf(model);
      var switched := SampleTimeNow(tick, now);
      WaitIsRightAtOnce(model);
      if switched {
        PassSwitched(before, now);
      } else {
        PassUnswitched(before, now);
        CurrentInEpoch(model);
        if model.current != [] {
          HeadByTick(model, Epoch(now));
        }
        if !listWasEmpty && nextExpire <= tick {
          ProcessExpiredTimer(nextExpire, tick);
          ProcessExpiredFires(before.(now := now));
          WaitIsRightAtOnce(model);
        } else {
          wait := TimeToBlock(nextExpire, listWasEmpty, tick);
        }
      }
    }

    // For how long the daemon waits for a command when nothing has expired.
    method TimeToBlock(nextExpire: nat, listWasEmpty: bool, timeNow: nat) returns (wait: Wait)
      requires Valid() && timeNow == lastTime && (listWasEmpty <==> current == [])
      requires !listWasEmpty ==> timeNow < nextExpire
      requires nextExpire == if current == [] then 0 else current[0].key
      ensures wait != NoWait && WaitIsRight(model, wait)
      ensures model.current == [] || model.now < model.current[0].key
    {
      hide Tick, Epoch, EpochEnd, Wf, ListInv, WithinReach, Apart;
      CurrentInEpoch(model);
      if model.current != [] {
        HeadByTick(model, Epoch(model.now));
      }
      var forever := listWasEmpty;
      if listWasEmpty {
        forever := overflow == [];
      }
      if forever {
        wait := WaitForever;
      } else {
        NextExpiryIsFirst(model);
        WaitTicksRight(model, nextExpire);
        wait := WaitTicks(Wrap(nextExpire - timeNow));
      }
    }

    // The timer task up to the point where it empties its queue.
    method TimerTaskPass(tick: nat, ghost now: nat) returns (wait: Wait)
      requires Valid() && tick == Tick(now) && SampleInTime(model, now)
      modifies this
      ensures Valid()
      ensures model == TimerPass(old(model), now)
      ensures WaitIsRight(model, wait)
      ensures wait != NoWait ==> model.current == [] || now < model.current[0].key
      ensures wait == NoWait ==>
                Epoch(now) != Epoch(old(model).now) || model.fired != old(model).fired
    {
      var nextExpire, listWasEmpty := GetNextExpireTime();
      wait := ProcessTimerOrBlockTask(nextExpire, listWasEmpty, tick, now);
    }

    method StartTimer(t: nat, at: nat, timeNow: nat, ghost base: nat)
      requires Valid() && t in timers && !Linked(model, t)
      requires base <= model.now < base + M && at == Tick(base) && timeNow == lastTime
      modifies this
      ensures Valid()
      ensures model == DoStart(old(model), t, base)
    {
      hide Inv, Wf, Insert, InsertSorted, TickList, Tick, Epoch, Wrap, TickCommands, Callers;
      PeriodInRange(model, t);
      SetActiveInv(model, t, true);
      SetTimerActive(t, true);
      TickOfSum(base, timers[t].period);
      var processNow := InsertTimerInActiveList(t, Wrap(at + timers[t].period), timeNow, at, base);
      if processNow {
        CallBack(t, base + timers[t].period, model.now);
        if timers[t].autoReload {
          var _ := SendCommand(Start(t, Wrap(at + timers[t].period)), Start(t, base + timers[t].period), true);
        }
      }
    }

    method ChangeTimerPeriod(t: nat, period: nat, timeNow: nat)
      requires Valid() && t in timers && !Linked(model, t) && 0 < period < M && timeNow == lastTime
      modifies this
      ensures Valid()
      ensures model == Obey(old(model), ChangePeriod(t, period))
    {
      hide Inv, Wf, Insert, InsertSorted, TickList, Tick, Epoch, Wrap, TickCommands, Callers;
      SetActiveInv(model, t, true);
      SetTimerActive(t, true);
      PeriodSet(model, t, period);
      timers := timers[t := timers[t].(period := period)];
      model := SetPeriod(model, t, period);
      TickOfSum(model.now, period);
      var _ := InsertTimerInActiveList(t, Wrap(timeNow + period), timeNow, timeNow, model.now);
    }

    // uxListRemove, when the timer is in a list.
    method RemoveFromList(t: nat)
      requires Mirrors()
      modifies `current, `overflow, `model
      ensures Mirrors()
      ensures model == Unlink(old(model), t)
    {
      UnlinkByTick(model, t);
      current := Without(current, t);
      overflow := Without(overflow, t);
      model := Unlink(model, t);
    }

    // One turn of the loop in prvProcessReceivedCommands.
    method ProcessOneCommand(tick: nat, ghost now: nat)
      requires Valid() && queue != [] && tick == Tick(now)
      requires SampleInTime(Accept(model), now)
      requires model.commands[0].Start? ==> model.commands[0].at <= now < model.commands[0].at + M
      modifies this
      ensures Valid()
      ensures model == CommandPass(old(model), now)
    {
      hide Inv, Wf, InsertSorted, Without, TickList, Tick, Epoch, Wrap, Sample, Unlink, Linked, Callers;
      var message := queue[0];
      ghost var c := model.commands[0];
      HeadCommand(model);
      AcceptInv(model);
      queue := queue[1..];
      model := model.(commands := model.commands[1..]);
      if !message.Call? {
        var t := message.timer;
        RemoveFromList(t);
        SampleUnlinked(model, now, t);
        var _ := SampleTimeNow(tick, now);
        match message
        case Start(_, at) => StartTimer(t, at, tick, c.at);
        case Stop(_) => SetTimerActive(t, false);
        case Delete(_) => SetTimerActive(t, false);
        case ChangePeriod(_, period) => ChangeTimerPeriod(t, period, tick);
      } else {
        ran := ran + [message.fn];
        model := model.(ran := model.ran + [c.fn]);
      }
    }

    // Empties the queue, reading the clock once per command; `ticks` are the readings, at most as
    // many as there are, so that a queue that never runs empty is covered prefix by prefix.
    method ProcessReceivedCommands(ticks: seq<nat>, ghost times: seq<nat>) returns (used: nat)
      requires Valid() && |ticks| == |times|
      requires forall i :: 0 <= i < |ticks| ==> ticks[i] == Tick(times[i])
      requires CommandsInTime(model, times)
      modifies this
      ensures Valid()
      ensures used <= |ticks| && (queue == [] || used == |ticks|)
      ensures Wf(old(model)) && model == CommandRun(old(model), times[..used])
      ensures forall i :: 0 <= i < used ==> CommandRun(old(model), times[..i]).commands != []
    {
      hide CommandRun, CommandsInTime, TickList, Tick, Callers, Inv, Wf;
      InvIsWf(model);
      NoCommandRun(model, times);
      assert times[0..] == times && times[..0] == [];
      used := 0;
      while queue != [] && used < |ticks|
        invariant Valid() && used <= |ticks|
        invariant CommandsInTime(model, times[used..])
        invariant model == CommandRun(old(model), times[..used])
        invariant forall i :: 0 <= i < used ==> CommandRun(old(model), times[..i]).commands != []
        decreases |ticks| - used
      {
        InvIsWf(model);
        NextInTime(model, times, used);
        OneMoreCommand(old(model), times, used);
        ProcessOneCommand(ticks[used], times[used]);
        used := used + 1;
      }
    }
  }
}
