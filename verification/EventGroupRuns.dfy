/** Event groups over every run: no call stays blocked whose condition the bits meet; setting bits
    releases exactly the calls they satisfy whatever the order of the list; and what a call
    returns.
 */
module EventGroupRuns {
  import opened EventBits
  import opened EventGroupModel

  // ---- What setting bits does to the list ----

  lemma {:induction false} KeptOnce(ws: seq<Waiter>, now: Bits)
    requires OneEach(ws)
    ensures OneEach(Kept(ws, now))
  {
    hide Union, Minus, Apart, ItemMatches;
    if ws != [] {
      var n := |ws| - 1;
      var rest := Kept(ws[..n], now);
      KeptOnce(ws[..n], now);
      forall i | 0 <= i < |rest|
        ensures rest[i].task != ws[n].task
      {
        assert rest[i] in ws[..n];
      }
    }
  }

  // The cleared bits are the union of the masks of the released calls: all of them ...
  lemma {:induction false} ClearedHasMask(ws: seq<Waiter>, now: Bits, w: Waiter)
    requires w in ws && ItemMatches(w.value, now)
    ensures Within(ItemClears(w.value), Cleared(ws, now))
  {
    hide Union, Minus, Apart, ItemMatches, ItemClears, Within;
    var n := |ws| - 1;
    assert ws == ws[..n] + [ws[n]];
    if ItemMatches(ws[n].value, now) {
      UnionIsUpper(Cleared(ws[..n], now), ItemClears(ws[n].value));
    }
    if w in ws[..n] {
      ClearedHasMask(ws[..n], now, w);
      if ItemMatches(ws[n].value, now) {
        WithinTrans(ItemClears(w.value), Cleared(ws[..n], now), Cleared(ws, now));
      }
    }
  }

  // ... and nothing else.
  lemma {:induction false} ClearedIsLeast(ws: seq<Waiter>, now: Bits, bound: Bits)
    requires forall w :: w in ws && ItemMatches(w.value, now) ==> Within(ItemClears(w.value), bound)
    ensures Within(Cleared(ws, now), bound)
  {
    hide Union, Minus, Apart, ItemMatches, ItemClears, Within;
    if ws == [] {
      NothingWithin(bound);
    } else {
      var n := |ws| - 1;
      assert forall w :: w in ws[..n] ==> w in ws;
      ClearedIsLeast(ws[..n], now, bound);
      if ItemMatches(ws[n].value, now) {
        assert ws[n] in ws;
        UnionIsLeast(Cleared(ws[..n], now), ItemClears(ws[n].value), bound);
      }
    }
  }

  lemma ClearedOfSame(ws: seq<Waiter>, ws': seq<Waiter>, now: Bits)
    requires forall w :: w in ws' ==> w in ws
    ensures Within(Cleared(ws', now), Cleared(ws, now))
  {
    hide Union, Minus, Apart, ItemMatches, ItemClears, Within, Cleared;
    forall w | w in ws' && ItemMatches(w.value, now)
      ensures Within(ItemClears(w.value), Cleared(ws, now))
    {
      ClearedHasMask(ws, now, w);
    }
    ClearedIsLeast(ws', now, Cleared(ws, now));
  }

  lemma {:induction false} KeptCounts(ws: seq<Waiter>, now: Bits, w: Waiter)
    ensures multiset(Kept(ws, now))[w] == if ItemMatches(w.value, now) then 0 else multiset(ws)[w]
  {
    hide Union, Minus, Apart, ItemMatches;
    if ws != [] {
      var n := |ws| - 1;
      assert ws == ws[..n] + [ws[n]];
      KeptCounts(ws[..n], now, w);
    }
  }

  // Setting bits does not depend on the order of the list.
  lemma OrderDoesNotMatter(g: Group, ws: seq<Waiter>, bits: Bits)
    requires multiset(ws) == multiset(g.waiters)
    ensures var r, r' := SetBits(g, bits), SetBits(g.(waiters := ws), bits);
            r'.bits == r.bits && r'.items == r.items && multiset(r'.waiters) == multiset(r.waiters)
  {
    hide Union, Minus, Apart, ItemMatches, Cleared, Kept, Released, Within, Unblocking, WasUnblocked;
    var now := Union(g.bits, bits);
    assert forall w :: w in ws <==> w in g.waiters by {
      forall w
        ensures w in ws <==> w in g.waiters
      {
        assert w in ws <==> w in multiset(ws);
        assert w in g.waiters <==> w in multiset(g.waiters);
      }
    }
    ClearedOfSame(g.waiters, ws, now);
    ClearedOfSame(ws, g.waiters, now);
    WithinBoth(Cleared(g.waiters, now), Cleared(ws, now));
    forall w: Waiter
      ensures multiset(Kept(ws, now))[w] == multiset(Kept(g.waiters, now))[w]
    {
      KeptCounts(ws, now, w);
      KeptCounts(g.waiters, now, w);
    }
    SameReleases(ws, g.waiters, now);
    assert Released(g.items, ws, now) == Released(g.items, g.waiters, now);
  }

  lemma SameReleases(ws: seq<Waiter>, ws': seq<Waiter>, now: Bits)
    requires forall w :: w in ws <==> w in ws'
    ensures forall t :: Releases(ws, now, t) <==> Releases(ws', now, t)
  {
    hide Union, Minus, Apart, ItemMatches;
  }

  // ---- One step keeps the invariant ----

  // A blocked call is released exactly if its condition is met.
  lemma ReleasedExactly(g: Group, now: Bits, t: nat)
    requires Inv(g) && t in g.calls && t !in g.items
    ensures Releases(g.waiters, now, t) <==> Meets(now, g.calls[t])
  {
    hide Union, Minus, Apart, ItemMatches, Meets, Item;
    var w := Waiter(t, Item(g.calls[t]));
    assert w in g.waiters;
    ItemReads(g.calls[t], now);
  }

  lemma ItemReads(r: Request, now: Bits)
    requires Clean(r.wanted)
    ensures ItemMatches(Item(r), now) <==> Meets(now, r)
    ensures ItemClears(Item(r)) == if r.clear then r.wanted else 0
    ensures !WasUnblocked(Item(r))
  {
    hide Union, Minus, Apart, ItemMatches, ItemClears, WasUnblocked, ItemValue, TestWaitCondition;
    ItemValueRoundTrip(r.wanted, r.clear, r.all, now);
  }

  lemma SetKeeps(g: Group, bits: Bits)
    requires Inv(g) && Clean(bits)
    ensures Inv(SetBits(g, bits))
  {
    hide Union, Minus, Apart, ItemMatches, Meets, Item, Cleared, Kept, Released, Clean, Fulfils,
         OneEach, Releases, Unblocking, WasUnblocked;
    var now := Union(g.bits, bits);
    var cleared := Cleared(g.waiters, now);
    CleanUnion(g.bits, bits);
    CleanMinus(now, cleared);
    KeptOnce(g.waiters, now);
    var r := SetBits(g, bits);
    forall t | t in g.calls && t !in g.items
      ensures Releases(g.waiters, now, t) <==> Meets(now, g.calls[t])
    {
      ReleasedExactly(g, now, t);
    }
    assert ItemsOk(r.items, r.calls) by {
      SetItemsOk(g, now);
    }
    assert WaitersOk(r.bits, r.waiters, r.items, r.calls) by {
      SetWaitersOk(g, now, cleared);
    }
  }

  lemma ReleasedIsWaiter(g: Group, now: Bits, t: nat)
    requires Inv(g) && Releases(g.waiters, now, t)
    ensures t in g.calls && t !in g.items && Meets(now, g.calls[t])
  {
    hide Union, Minus, Apart, ItemMatches, Meets, Item;
    var w :| w in g.waiters && w.task == t && ItemMatches(w.value, now);
    ItemReads(g.calls[t], now);
  }

  lemma SetItemsOk(g: Group, now: Bits)
    requires Inv(g) && Clean(now)
    ensures ItemsOk(Released(g.items, g.waiters, now), g.calls)
  {
    hide Union, Minus, Apart, ItemMatches, Meets, Item, Released, Releases, WaitersOk, Clean,
         Unblocking, WasUnblocked, Plain;
    var items := Released(g.items, g.waiters, now);
    forall t | t in items
      ensures t in g.calls && Fulfils(items[t], g.calls[t])
    {
      if Releases(g.waiters, now, t) {
        ReleasedIsWaiter(g, now, t);
        UnblockingRoundTrip(now);
      }
    }
  }

  lemma SetWaitersOk(g: Group, now: Bits, cleared: Bits)
    requires Inv(g)
    ensures WaitersOk(Minus(now, cleared), Kept(g.waiters, now), Released(g.items, g.waiters, now), g.calls)
  {
    hide Union, Minus, Apart, ItemMatches, Meets, Item, Released, Kept, Clean, Unblocking, Releases, ItemsOk, OneEach;
    var ws, items := Kept(g.waiters, now), Released(g.items, g.waiters, now);
    KeptOnce(g.waiters, now);
    forall w | w in ws
      ensures w.task in g.calls && w.task !in items && w.value == Item(g.calls[w.task])
      ensures !Meets(Minus(now, cleared), g.calls[w.task])
    {
      assert w in g.waiters;
      var r := g.calls[w.task];
      ItemReads(r, now);
      ReleasedExactly(g, now, w.task);
      StaysUnmet(now, cleared, r);
    }
    forall t | t in g.calls && t !in items
      ensures Waiter(t, Item(g.calls[t])) in ws
    {
      assert Waiter(t, Item(g.calls[t])) in g.waiters;
      ItemReads(g.calls[t], now);
      ReleasedExactly(g, now, t);
    }
  }

  lemma StaysUnmet(now: Bits, cleared: Bits, r: Request)
    requires !Meets(now, r)
    ensures !Meets(Minus(now, cleared), r)
  {
    hide Union, Minus, Apart, Within, TestWaitCondition;
    if Meets(Minus(now, cleared), r) {
      ClearingMeetsNothing(now, cleared, r.wanted, r.all);
    }
  }

  lemma ClearKeeps(g: Group, bits: Bits)
    requires Inv(g)
    ensures Inv(ClearBits(g, bits))
  {
    hide Union, Minus, Apart, Within, Meets, Item, Clean, Fulfils, OneEach;
    CleanMinus(g.bits, bits);
    forall w | w in g.waiters
      ensures !Meets(Minus(g.bits, bits), g.calls[w.task])
    {
      StaysUnmet(g.bits, bits, g.calls[w.task]);
    }
  }

  lemma BlockKeeps(g: Group, t: nat, r: Request)
    requires Inv(g) && t !in g.calls && t !in g.items && Clean(r.wanted) && !Meets(g.bits, r)
    ensures Inv(Block(g, t, r))
  {
    hide Union, Minus, Apart, Within, Meets, Item, Clean, Fulfils, WaitersOk;
    BlockedWaits(g.bits, g.waiters, g.items, g.calls, t, r);
  }

  lemma BlockedWaits(bits: Bits, ws: seq<Waiter>, items: map<nat, Bits>, calls: map<nat, Request>, t: nat, r: Request)
    requires WaitersOk(bits, ws, items, calls) && t !in calls && t !in items && !Meets(bits, r)
    ensures WaitersOk(bits, ws + [Waiter(t, Item(r))], items, calls[t := r])
  {
    hide Meets, Item, OneEach;
    BlockOnce(ws, Waiter(t, Item(r)));
  }

  lemma BlockOnce(ws: seq<Waiter>, w: Waiter)
    requires OneEach(ws) && forall v :: v in ws ==> v.task != w.task
    ensures OneEach(ws + [w])
  {
  }

  lemma WaitKeeps(g: Group, t: nat, r: Request, mayBlock: bool)
    requires Inv(g) && t !in g.calls && t !in g.items && Clean(r.wanted)
    ensures Inv(WaitBits(g, t, r, mayBlock).0)
  {
    hide Union, Minus, Apart, Within, Inv, Meets, Clean;
    if Meets(g.bits, r) {
      ClearKeeps(g, r.wanted);
    } else {
      BlockKeeps(g, t, r);
    }
  }

  lemma SyncKeeps(g: Group, t: nat, bits: Bits, wanted: Bits, mayBlock: bool)
    requires Inv(g) && t !in g.calls && t !in g.items && Clean(bits) && Clean(wanted)
    ensures Inv(Sync(g, t, bits, wanted, mayBlock).0)
  {
    hide Union, Minus, Apart, Within, Inv, Clean, SetBits, TestWaitCondition;
    SetKeeps(g, bits);
    var g1, now := SetBits(g, bits), Union(g.bits, bits);
    if Within(wanted, now) {
      ClearKeeps(g1, wanted);
    } else if mayBlock {
      var r := Request(wanted, true, true);
      SyncUnmet(now, wanted);
      SetShape(g, bits, t);
      StaysUnmet(now, Cleared(g.waiters, now), r);
      BlockKeeps(g1, t, r);
    }
  }

  lemma SyncUnmet(now: Bits, wanted: Bits)
    ensures Within(wanted, now) <==> Meets(now, Request(wanted, true, true))
  {
  }

  lemma SetShape(g: Group, bits: Bits, t: nat)
    requires Inv(g) && t !in g.calls && t !in g.items
    ensures SetBits(g, bits).calls == g.calls && t !in SetBits(g, bits).items
    ensures SetBits(g, bits).bits == Minus(Union(g.bits, bits), Cleared(g.waiters, Union(g.bits, bits)))
  {
    hide Union, Minus, Apart, ItemMatches, Meets, Item, Cleared, Kept, Released, Clean, Fulfils, OneEach, Releases;
    if Releases(g.waiters, Union(g.bits, bits), t) {
      ReleasedIsWaiter(g, Union(g.bits, bits), t);
    }
  }

  lemma {:induction false} RemoveOnce(ws: seq<Waiter>, t: nat)
    requires OneEach(ws)
    ensures OneEach(Remove(ws, t))
  {
    if ws != [] {
      var rest := Remove(ws[1..], t);
      RemoveOnce(ws[1..], t);
      forall i | 0 <= i < |rest|
        ensures rest[i].task != ws[0].task
      {
        assert rest[i] in ws[1..];
      }
    }
  }

  lemma TimeOutKeeps(g: Group, t: nat)
    requires Inv(g) && t in g.calls && t !in g.items
    ensures Inv(TimeOut(g, t))
  {
    hide Union, Minus, Apart, Within, Meets, Item, Clean, OneEach, Plain, WasUnblocked, Remove;
    RemoveOnce(g.waiters, t);
    ItemReads(g.calls[t], 0);
  }

  lemma DropCallKeeps(g: Group, t: nat)
    requires Inv(g) && t in g.items
    ensures Inv(g.(items := g.items - {t}, calls := g.calls - {t}))
  {
    hide Union, Minus, Apart, Within, Meets, Item, Clean, OneEach, Fulfils;
    assert forall w :: w in g.waiters ==> w.task != t;
  }

  lemma ResumeKeeps(g: Group, t: nat)
    requires Inv(g) && t in g.items && t in g.calls
    ensures Inv(Resume(g, t).0)
  {
    hide Union, Minus, Apart, Within, Inv, Meets, WasUnblocked, Plain;
    DropCallKeeps(g, t);
    ClearKeeps(g.(items := g.items - {t}, calls := g.calls - {t}), g.calls[t].wanted);
  }

  lemma StepKeeps(g: Group, step: Step)
    requires Inv(g) && Enabled(g, step)
    ensures Inv(Apply(g, step))
  {
    hide Union, Minus, Apart, Within, Inv, SetBits, ClearBits, WaitBits, Sync, TimeOut, Resume, Clean;
    match step
    case DoSet(bits) => SetKeeps(g, bits);
    case DoClear(bits) => ClearKeeps(g, bits);
    case DoWait(t, r, mayBlock) => WaitKeeps(g, t, r, mayBlock);
    case DoSync(t, bits, wanted, mayBlock) => SyncKeeps(g, t, bits, wanted, mayBlock);
    case Expire(t) => TimeOutKeeps(g, t);
    case Wake(t) => ResumeKeeps(g, t);
  }

  lemma {:induction false} RunKeeps(g: Group, run: seq<Step>)
    requires Inv(g) && Feasible(g, run)
    ensures Inv(Exec(g, run))
    decreases |run|
  {
    hide Union, Minus, Apart, Within, Inv, Enabled, Apply;
    if run != [] {
      StepKeeps(g, run[0]);
      RunKeeps(Apply(g, run[0]), run[1..]);
    }
  }

  // ---- Main results ----

  function Created(): Group {
    Group(0, [], map[], map[])
  }

  // No call stays blocked while the bits meet its condition.
  lemma NoneLeftBehind(run: seq<Step>, t: nat)
    requires Feasible(Created(), run)
    ensures var g := Exec(Created(), run);
            t in g.calls && t !in g.items ==>
              Waiter(t, Item(g.calls[t])) in g.waiters && !Meets(g.bits, g.calls[t])
  {
    hide Exec, Feasible, Meets, Item;
    RunKeeps(Created(), run);
    var g := Exec(Created(), run);
    if t in g.calls && t !in g.items {
      assert Waiter(t, Item(g.calls[t])) in g.waiters;
    }
  }

  // Setting bits unblocks exactly the calls whose condition old|set meets; each sees exactly
  // old|set; and the bits a released call clears on exit are clear.
  lemma SetReleases(g: Group, bits: Bits, t: nat)
    requires Inv(g) && Clean(bits) && t in g.calls && t !in g.items
    ensures var now, r := Union(g.bits, bits), SetBits(g, bits);
            if Meets(now, g.calls[t]) then
              && t in r.items && WasUnblocked(r.items[t]) && Resume(r, t).1 == now
              && (forall w :: w in r.waiters ==> w.task != t)
              && (g.calls[t].clear ==> Apart(r.bits, g.calls[t].wanted))
            else t !in r.items && Waiter(t, Item(g.calls[t])) in r.waiters
  {
    hide Union, Minus, Apart, ItemMatches, Meets, Item, Cleared, Kept, Released, Clean, Fulfils,
         Releases, Unblocking, WasUnblocked, Plain, OneEach;
    var now, w := Union(g.bits, bits), Waiter(t, Item(g.calls[t]));
    assert w in g.waiters;
    ReleasedExactly(g, now, t);
    ItemReads(g.calls[t], now);
    if Meets(now, g.calls[t]) {
      CleanUnion(g.bits, bits);
      UnblockingRoundTrip(now);
      if g.calls[t].clear {
        ClearedHasMask(g.waiters, now, w);
        ClearedAreClear(now, Cleared(g.waiters, now), g.calls[t].wanted);
      }
    }
  }

  // The final bits are old|set without the union of the released clear-on-exit masks: a bit
  // pattern outside all those masks survives.
  lemma SetClearsOnlyMasks(g: Group, bits: Bits, other: Bits)
    requires Inv(g)
    requires forall t :: t in g.calls && t !in g.items && Meets(Union(g.bits, bits), g.calls[t]) && g.calls[t].clear ==>
               Apart(g.calls[t].wanted, other)
    ensures SetBits(g, bits).bits & other == Union(g.bits, bits) & other
  {
    hide Union, Minus, Apart, ItemMatches, Meets, Item, Cleared, Within, Clean, ItemClears, OneEach, Fulfils;
    var now := Union(g.bits, bits);
    forall w | w in g.waiters && ItemMatches(w.value, now)
      ensures Within(ItemClears(w.value), Minus(!0, other))
    {
      ItemReads(g.calls[w.task], now);
      if g.calls[w.task].clear {
        ApartIsOutside(g.calls[w.task].wanted, other);
      } else {
        NothingWithin(Minus(!0, other));
      }
    }
    ClearedIsLeast(g.waiters, now, Minus(!0, other));
    OutsideSurvives(now, Cleared(g.waiters, now), other);
  }

  // What a resumed call returns: if bits unblocked it, a clean value that meets its condition,
  // whatever happened since; if it timed out, the current bits, and then a condition that has been
  // met meanwhile is consumed like any other.
  lemma ResumeReturns(g: Group, t: nat)
    requires Inv(g) && t in g.items
    ensures t in g.calls
    ensures var (g', v), r := Resume(g, t), g.calls[t];
            && Clean(v) && g'.calls == g.calls - {t} && g'.items == g.items - {t} && g'.waiters == g.waiters
            && (WasUnblocked(g.items[t]) ==> v == Plain(g.items[t]) && Meets(v, r) && g'.bits == g.bits)
            && (!WasUnblocked(g.items[t]) ==>
                  v == g.bits && g'.bits == if Meets(v, r) && r.clear then Minus(g.bits, r.wanted) else g.bits)
  {
    hide Union, Minus, Apart, Within, Meets, Inv, Clean, WasUnblocked, Plain;
    ItemHasCall(g, t);
    CleanIsPlain(g.bits);
  }

  // The value an unblocked call will return is fixed when it is released.
  lemma {:induction false} ReleasedValueStays(g: Group, run: seq<Step>, t: nat)
    requires Inv(g) && Feasible(g, run) && t in g.items && Wake(t) !in run
    ensures var e := Exec(g, run); t in e.items && t in e.calls && e.items[t] == g.items[t]
    ensures WasUnblocked(g.items[t]) ==>
            Resume(Exec(g, run), t).1 == Plain(g.items[t]) && t in g.calls && Meets(Plain(g.items[t]), g.calls[t])
    decreases |run|
  {
    hide Union, Minus, Apart, Within, Enabled, Apply, WasUnblocked, Plain, Meets, WaitersOk, Clean;
    if run != [] {
      StepKeeps(g, run[0]);
      ItemStays(g, run[0], t);
      ReleasedValueStays(Apply(g, run[0]), run[1..], t);
    }
  }

  lemma ItemStays(g: Group, step: Step, t: nat)
    requires Inv(g) && Enabled(g, step) && t in g.items && step != Wake(t)
    ensures var g' := Apply(g, step);
            t in g'.items && g'.items[t] == g.items[t] && t in g.calls && t in g'.calls && g'.calls[t] == g.calls[t]
  {
    hide Union, Minus, Within, Inv, TestWaitCondition, WasUnblocked, Plain, Clean, SetBits, Remove, Item;
    ItemHasCall(g, t);
    match step
    case DoSet(bits) => SetItemStays(g, bits, t);
    case DoSync(_, bits, _, _) => SetItemStays(g, bits, t);
    case _ =>
  }

  lemma ItemHasCall(g: Group, t: nat)
    requires Inv(g) && t in g.items
    ensures t in g.calls && Clean(g.bits) && Fulfils(g.items[t], g.calls[t])
  {
    hide Clean, Fulfils, WaitersOk, CallsOk;
  }

  lemma SetItemStays(g: Group, bits: Bits, t: nat)
    requires Inv(g) && t in g.items
    ensures var g' := SetBits(g, bits); g'.calls == g.calls && t in g'.items && g'.items[t] == g.items[t]
  {
    hide Union, Minus, Inv, Cleared, Kept, Releases, Unblocking;
    ItemIsNotReleased(g, Union(g.bits, bits), t);
  }

  lemma ItemIsNotReleased(g: Group, now: Bits, t: nat)
    requires Inv(g) && t in g.items
    ensures !Releases(g.waiters, now, t)
  {
    if Releases(g.waiters, now, t) {
      ReleasedIsWaiter(g, now, t);
    }
  }

  // A completed rendezvous: the caller returns old|set, every other party to it returns the same,
  // and the rendezvous bits end clear.
  lemma SyncCompletes(g: Group, t: nat, bits: Bits, wanted: Bits, mayBlock: bool, party: nat)
    requires Inv(g) && Clean(bits) && Clean(wanted) && t !in g.calls && t !in g.items
    requires Within(wanted, Union(g.bits, bits))
    requires party in g.calls && party !in g.items && g.calls[party] == Request(wanted, true, true)
    ensures var (g', out), now := Sync(g, t, bits, wanted, mayBlock), Union(g.bits, bits);
            && out == Returns(now) && Apart(g'.bits, wanted)
            && party in g'.items && party in g'.calls && Resume(g', party).1 == now
  {
    hide Union, Minus, Apart, Within, Inv, SetBits, Clean, TestWaitCondition, WasUnblocked, Plain;
    SyncUnmet(Union(g.bits, bits), wanted);
    SetReleases(g, bits, party);
    SelfClears(SetBits(g, bits).bits, wanted);
    SetKeepsCalls(g, bits);
  }

  lemma SelfClears(b: Bits, wanted: Bits)
    ensures Apart(Minus(b, wanted), wanted)
  {
  }

  lemma SetKeepsCalls(g: Group, bits: Bits)
    ensures SetBits(g, bits).calls == g.calls
  {
  }
}
