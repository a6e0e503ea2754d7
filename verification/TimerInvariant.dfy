/** What every daemon step keeps: both lists sorted, the current list in the epoch of the last
    sampled time and the overflow list in the next one and less than M ticks away, at most one
    list item per timer, and every linked timer marked active.
 */
module TimerInvariant {
  import opened Ticks
  import opened SortedLists
  import opened TimerModel

  // One list: in expiry order, one item per timer, all expiries in one epoch, all owners active.
  ghost predicate ListInv(timers: map<nat, Timer>, s: seq<Entry>, epoch: nat) {
    && Sorted(s)
    && UniqueIds(s)
    && InEpoch(s, epoch)
    && (forall e :: e in s ==> e.id in timers && timers[e.id].active)
  }

  ghost predicate Apart(s: seq<Entry>, u: seq<Entry>) {
    forall e, f :: e in s && f in u ==> e.id != f.id
  }

  ghost predicate ListsInv(m: Model, epoch: nat) {
    && Wf(m)
    && ListInv(m.timers, m.current, epoch)
    && ListInv(m.timers, m.overflow, epoch + 1)
    && Apart(m.current, m.overflow)
  }

  // Every expiry of the overflow list is less than a whole wrap away.
  ghost predicate WithinReach(s: seq<Entry>, now: nat) {
    forall e :: e in s ==> e.key < now + M
  }

  ghost predicate Inv(m: Model) {
    ListsInv(m, Epoch(m.now)) && WithinReach(m.overflow, m.now)
  }

  lemma InvIsWf(m: Model)
    requires Inv(m)
    ensures Wf(m)
  {
    hide Wf, ListInv, Apart, WithinReach;
  }

  // So right after a wrap the overflow list is empty.
  lemma EmptyAtWrap(m: Model)
    requires Inv(m) && Tick(m.now) == 0
    ensures m.overflow == []
  {
    if m.overflow != [] {
      assert m.overflow[0] in m.overflow;
      BeforeEpochEnd(m.now, m.overflow[0].key);
    }
  }

  ghost predicate Linked(m: Model, t: nat) {
    HasId(m.current, t) || HasId(m.overflow, t)
  }

  ghost predicate ListsEmpty(m: Model) {
    m.current == [] && m.overflow == []
  }

  // A sample at `now` can be told from the last one by its tick alone.
  ghost predicate SampleInTime(m: Model, now: nat) {
    m.now <= now && (now < m.now + M || ListsEmpty(m))
  }

  // ---- One list ----

  lemma PopListInv(timers: map<nat, Timer>, s: seq<Entry>, epoch: nat)
    requires s != [] && ListInv(timers, s, epoch)
    ensures ListInv(timers, s[1..], epoch)
    ensures !HasId(s[1..], s[0].id)
  {
    forall e | e in s[1..]
      ensures e.id != s[0].id
    {
    }
  }

  lemma InsertListInv(timers: map<nat, Timer>, s: seq<Entry>, epoch: nat, e: Entry)
    requires ListInv(timers, s, epoch) && !HasId(s, e.id)
    requires Epoch(e.key) == epoch && e.id in timers && timers[e.id].active
    ensures ListInv(timers, InsertSorted(s, e), epoch)
  {
    InsertKeepsSorted(s, e);
    InsertKeepsUnique(s, e);
  }

  lemma WithoutListInv(timers: map<nat, Timer>, s: seq<Entry>, epoch: nat, t: nat)
    requires ListInv(timers, s, epoch)
    ensures ListInv(timers, Without(s, t), epoch) && !HasId(Without(s, t), t)
  {
    WithoutKeepsSorted(s, t);
    WithoutKeepsUnique(s, t);
  }

  // ---- Preservation ----

  lemma PopInv(m: Model, epoch: nat)
    requires ListsInv(m, epoch) && m.current != []
    ensures var m1 := m.(current := m.current[1..]);
            ListsInv(m1, epoch) && !Linked(m1, m.current[0].id)
  {
    PopListInv(m.timers, m.current, epoch);
    assert m.current[0] in m.current;
  }

  lemma UnlinkInv(m: Model, t: nat)
    requires Inv(m)
    ensures Inv(Unlink(m, t)) && !Linked(Unlink(m, t), t)
  {
    WithoutListInv(m.timers, m.current, Epoch(m.now), t);
    WithoutListInv(m.timers, m.overflow, Epoch(m.now) + 1, t);
  }

  lemma LinkCurrentInv(m: Model, epoch: nat, e: Entry)
    requires ListsInv(m, epoch) && e.id in m.timers && m.timers[e.id].active && !Linked(m, e.id)
    requires Epoch(e.key) == epoch
    ensures ListsInv(m.(current := InsertSorted(m.current, e)), epoch)
  {
    InsertListInv(m.timers, m.current, epoch, e);
  }

  lemma LinkOverflowInv(m: Model, epoch: nat, e: Entry)
    requires ListsInv(m, epoch) && e.id in m.timers && m.timers[e.id].active && !Linked(m, e.id)
    requires Epoch(e.key) == epoch + 1
    ensures ListsInv(m.(overflow := InsertSorted(m.overflow, e)), epoch)
  {
    InsertListInv(m.timers, m.overflow, epoch + 1, e);
  }

  lemma InsertInv(m: Model, t: nat, base: nat)
    requires Inv(m) && t in m.timers && m.timers[t].active && !Linked(m, t)
    requires base <= m.now
    ensures Inv(Insert(m, t, base, m.now))
  {
    var p := m.timers[t].period;
    match Classify(base, p, m.now)
    case Expired =>
    case CurrentList => LinkCurrentInv(m, Epoch(m.now), Entry(t, base + p));
    case OverflowList =>
      assert Epoch(base + p) == Epoch(m.now) + 1 by {
        Near(m.now, base + p);
      }
      LinkOverflowInv(m, Epoch(m.now), Entry(t, base + p));
  }

  lemma DrainStepInv(m: Model, at: nat, epoch: nat)
    requires ListsInv(m, epoch) && m.current != []
    ensures ListsInv(DrainStep(m, at), epoch)
  {
    hide Sorted, UniqueIds, InsertSorted, Epoch;
    var e := m.current[0];
    var m1 := Callback(m.(current := m.current[1..]), e.id, e.key, at);
    assert e in m.current;
    assert ListsInv(m1, epoch) && !Linked(m1, e.id) by {
      PopInv(m, epoch);
    }
    var next := Entry(e.id, e.key + m.timers[e.id].period);
    if m.timers[e.id].autoReload && Epoch(next.key) == Epoch(e.key) {
      LinkCurrentInv(m1, epoch, next);
    } else {
      assert DrainStep(m, at).current == m1.current;
      assert DrainStep(m, at).overflow == m1.overflow;
    }
  }

  lemma {:induction false} DrainInv(m: Model, at: nat, epoch: nat)
    requires ListsInv(m, epoch)
    ensures ListsInv(Drain(m, at), epoch)
    ensures Drain(m, at).now == m.now && Drain(m, at).overflow == m.overflow
    decreases TicksLeft(m.current)
  {
    if m.current != [] {
      DrainStepDecreases(m, at);
      DrainStepInv(m, at, epoch);
      DrainInv(DrainStep(m, at), at, epoch);
    }
  }

  lemma SampleInv(m: Model, now: nat)
    requires Inv(m) && SampleInTime(m, now)
    ensures Inv(Sample(m, now))
  {
    if Epoch(now) != Epoch(m.now) {
      DrainInv(m, now, Epoch(m.now));
      if now < m.now + M {
        Near(m.now, now);
      } else {
        assert ListsEmpty(Sample(m, now));
      }
    }
  }

  lemma SetActiveInv(m: Model, t: nat, active: bool)
    requires Inv(m) && t in m.timers && (active || !Linked(m, t))
    ensures Inv(SetActive(m, t, active))
  {
  }

  lemma ProcessExpiredInv(m: Model)
    requires Inv(m) && m.current != [] && m.current[0].key <= m.now
    ensures Inv(ProcessExpired(m))
  {
    hide Sorted, UniqueIds, InsertSorted, Epoch, Insert;
    var e := m.current[0];
    var m1 := m.(current := m.current[1..]);
    assert e in m.current;
    PopInv(m, Epoch(m.now));
    if m.timers[e.id].autoReload {
      InsertInv(m1, e.id, e.key);
    } else {
      SetActiveInv(m1, e.id, false);
    }
  }

  lemma TimerPassInv(m: Model, now: nat)
    requires Inv(m) && SampleInTime(m, now)
    ensures Inv(TimerPass(m, now))
  {
    SampleInv(m, now);
    var s := Sample(m, now);
    if Epoch(now) == Epoch(m.now) && s.current != [] && s.current[0].key <= now {
      ProcessExpiredInv(s);
    }
  }

  lemma DoStartInv(m: Model, t: nat, at: nat)
    requires Inv(m) && t in m.timers && !Linked(m, t) && at <= m.now
    ensures Inv(DoStart(m, t, at))
  {
    SetActiveInv(m, t, true);
    InsertInv(SetActive(m, t, true), t, at);
  }

  lemma AcceptInv(m: Model)
    requires Inv(m) && m.commands != []
    ensures Inv(Accept(m))
    ensures !m.commands[0].Call? ==> !Linked(Accept(m), m.commands[0].timer)
  {
    if !m.commands[0].Call? {
      UnlinkInv(m.(commands := m.commands[1..]), m.commands[0].timer);
    }
  }

  // Switching the lists does not link a timer that was in neither.
  lemma DrainStepUnlinked(m: Model, at: nat, t: nat)
    requires Wf(m) && m.current != [] && !Linked(m, t)
    ensures !Linked(DrainStep(m, at), t)
  {
    assert m.current[0] in m.current;
  }

  lemma {:induction false} DrainUnlinked(m: Model, at: nat, t: nat)
    requires Wf(m) && !Linked(m, t)
    ensures !Linked(Drain(m, at), t)
    decreases TicksLeft(m.current)
  {
    if m.current != [] {
      DrainStepDecreases(m, at);
      DrainStepUnlinked(m, at, t);
      DrainUnlinked(DrainStep(m, at), at, t);
    }
  }

  lemma SampleUnlinked(m: Model, now: nat, t: nat)
    requires Wf(m) && !Linked(m, t)
    ensures !Linked(Sample(m, now), t)
  {
    DrainUnlinked(m, now, t);
  }

  lemma ChangePeriodInv(m: Model, t: nat, period: nat)
    requires Inv(m) && t in m.timers && !Linked(m, t) && 0 < period < M
    ensures Inv(Insert(SetPeriod(SetActive(m, t, true), t, period), t, m.now, m.now))
  {
    SetActiveInv(m, t, true);
    InsertInv(SetPeriod(SetActive(m, t, true), t, period), t, m.now);
  }

  lemma ObeyInv(m: Model, c: Command)
    requires Inv(m) && !c.Call? && CommandOk(m.timers, c) && !Linked(m, c.timer)
    requires c.Start? ==> c.at <= m.now
    ensures Inv(Obey(m, c))
  {
    match c
    case Start(t, at) => DoStartInv(m, t, at);
    case Stop(t) => SetActiveInv(m, t, false);
    case Delete(t) => SetActiveInv(m, t, false);
    case ChangePeriod(t, p) => ChangePeriodInv(m, t, p);
  }

  lemma CommandPassInv(m: Model, now: nat)
    requires Inv(m) && m.commands != [] && SampleInTime(Accept(m), now)
    requires m.commands[0].Start? ==> m.commands[0].at <= now
    ensures Inv(CommandPass(m, now))
  {
    var c := m.commands[0];
    AcceptInv(m);
    if !c.Call? {
      assert CommandOk(m.timers, c);
      SampleInv(Accept(m), now);
      SampleUnlinked(Accept(m), now, c.timer);
      ObeyInv(Sample(Accept(m), now), c);
    }
  }
}
