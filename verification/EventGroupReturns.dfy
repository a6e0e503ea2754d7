/** What each event group call gives back and which single bits it leaves set, stated bit by bit and
    without the functions that compute it.
 */
module EventGroupReturns {
  import opened EventBits
  import opened EventGroupModel
  import opened EventGroupRuns

  ghost predicate IsSet(bit: Bits, bits: Bits) {
    OneBit(bit) && Within(bit, bits)
  }

  // Exactly the bits of `gone` end clear; every other bit is as it was.
  ghost predicate Clears(before: Bits, after: Bits, gone: Bits) {
    forall bit :: OneBit(bit) ==> (IsSet(bit, after) <==> IsSet(bit, before) && !IsSet(bit, gone))
  }

  ghost predicate Asks(current: Bits, r: Request) {
    if r.all then HasAll(current, r.wanted) else HasAny(current, r.wanted)
  }

  lemma MinusBit(bit: Bits, a: Bits, b: Bits)
    requires OneBit(bit)
    ensures Within(bit, Minus(a, b)) <==> Within(bit, a) && !Within(bit, b)
  {
    hide OneBit;
    OneBitSplits(bit, b);
    if Within(bit, b) {
      OneBitIsNonzero(bit);
      GoneIsGone(bit, a, b);
    } else {
      OthersStay(bit, a, b);
    }
  }

  lemma OneBitIsNonzero(bit: Bits)
    requires OneBit(bit)
    ensures bit != 0
  {
  }

  // A single bit is within b or apart from it.
  lemma OneBitSplits(bit: Bits, b: Bits)
    requires OneBit(bit)
    ensures Within(bit, b) || Apart(bit, b)
  {
  }

  lemma GoneIsGone(bit: Bits, a: Bits, b: Bits)
    requires bit != 0 && Within(bit, b)
    ensures !Within(bit, Minus(a, b))
  {
  }

  lemma OthersStay(bit: Bits, a: Bits, b: Bits)
    requires Apart(bit, b)
    ensures Within(bit, Minus(a, b)) <==> Within(bit, a)
  {
    hide Within, Minus, Apart;
    OutsideSame(bit, a, b);
    SameWithin(bit, Minus(a, b), a);
  }

  lemma OutsideSame(bit: Bits, a: Bits, b: Bits)
    requires Apart(bit, b)
    ensures bit & Minus(a, b) == bit & a
  {
  }

  lemma SameWithin(bit: Bits, a: Bits, b: Bits)
    requires bit & a == bit & b
    ensures Within(bit, a) <==> Within(bit, b)
  {
  }

  lemma UnionBit(bit: Bits, a: Bits, b: Bits)
    requires OneBit(bit)
    ensures Within(bit, Union(a, b)) <==> Within(bit, a) || Within(bit, b)
  {
    hide OneBit;
    OneBitSplits(bit, a);
    OneBitIsNonzero(bit);
    if Apart(bit, a) {
      ElsewhereFrom(bit, a, b);
    } else {
      UnionIsUpper(a, b);
      WithinTrans(bit, a, Union(a, b));
    }
  }

  lemma ElsewhereFrom(bit: Bits, a: Bits, b: Bits)
    requires Apart(bit, a)
    ensures Within(bit, Union(a, b)) <==> Within(bit, b)
  {
    Distributes(bit, a, b);
    NothingAdded(bit & b);
  }

  lemma Distributes(x: Bits, a: Bits, b: Bits)
    ensures x & (a | b) == (x & a) | (x & b)
  {
  }

  lemma NothingAdded(x: Bits)
    ensures (0 as Bits) | x == x
  {
  }

  lemma MinusClears(a: Bits, b: Bits)
    ensures Clears(a, Minus(a, b), b)
  {
    hide OneBit, Within, Minus;
    forall bit | OneBit(bit)
      ensures IsSet(bit, Minus(a, b)) <==> IsSet(bit, a) && !IsSet(bit, b)
    {
      MinusBit(bit, a, b);
    }
  }

  // The bits that a step sets: those there were and those asked for.
  lemma UnionSets(a: Bits, b: Bits, bit: Bits)
    ensures IsSet(bit, Union(a, b)) <==> IsSet(bit, a) || IsSet(bit, b)
  {
    hide OneBit, Within, Union;
    if OneBit(bit) {
      UnionBit(bit, a, b);
    }
  }

  // What a call leaves in its list item reads back as what it asked for.
  ghost predicate Leaves(w: Waiter, t: nat, wanted: Bits, clear: bool, all: bool) {
    && w.task == t && Plain(w.value) == wanted && !WasUnblocked(w.value)
    && (NeedsAll(w.value) <==> all) && (ClearsOnExit(w.value) <==> clear)
  }

  lemma BlockLeaves(t: nat, r: Request)
    requires Clean(r.wanted)
    ensures Leaves(Waiter(t, Item(r)), t, r.wanted, r.clear, r.all)
  {
    hide Plain, NeedsAll, ClearsOnExit, WasUnblocked, ItemValue, Clean;
    ItemParts(r.wanted, r.clear, r.all);
    ItemIsNoUnblocking(r.wanted, r.clear, r.all);
  }

  // ---- xEventGroupWaitBits ----

  // If the condition is met, the call returns the bits as they were, which meet it, and clears the
  // bits it waits for exactly if asked to.  If not, and it may not block, it returns the bits and
  // changes nothing; otherwise it is the last on the list, with its request.
  lemma WaitReturns(g: Group, t: nat, r: Request, mayBlock: bool)
    requires Clean(r.wanted)
    ensures var (g', out) := WaitBits(g, t, r, mayBlock);
            if Asks(g.bits, r) then
              && out == Returns(g.bits)
              && Clears(g.bits, g'.bits, if r.clear then r.wanted else 0)
              && g'.waiters == g.waiters && g'.items == g.items && g'.calls == g.calls
            else if !mayBlock then
              out == Returns(g.bits) && g' == g
            else
              && out == Blocks && g'.bits == g.bits && g'.items == g.items && g'.calls == g.calls[t := r]
              && |g'.waiters| == |g.waiters| + 1 && g'.waiters[..|g.waiters|] == g.waiters
              && Leaves(g'.waiters[|g.waiters|], t, r.wanted, r.clear, r.all)
  {
    hide Minus, TestWaitCondition, Clears, HasAll, HasAny, Clean, Leaves, Item;
    TestMeans(g.bits, r.wanted, r.all);
    MinusClears(g.bits, r.wanted);
    NothingCleared(g.bits);
    BlockLeaves(t, r);
  }

  lemma NothingCleared(a: Bits)
    ensures Clears(a, a, 0)
  {
    hide OneBit, Within;
    forall bit | OneBit(bit)
      ensures !IsSet(bit, 0)
    {
      OneBitIsNonzero(bit);
      ZeroHasNone(bit);
    }
  }

  lemma ZeroHasNone(bit: Bits)
    requires bit != 0
    ensures !Within(bit, 0)
  {
  }

  // A call that clears on exit leaves none of the bits it waited for; one that does not leaves some.
  lemma WaitClearsExactly(g: Group, t: nat, r: Request, mayBlock: bool)
    requires Asks(g.bits, r) && r.wanted != 0
    ensures Apart(WaitBits(g, t, r, mayBlock).0.bits, r.wanted) <==> r.clear
  {
    hide Minus, TestWaitCondition, HasAll, HasAny, Apart;
    TestMeans(g.bits, r.wanted, r.all);
    SelfClears(g.bits, r.wanted);
    MetIsNotApart(g.bits, r.wanted, r.all);
  }

  lemma MetIsNotApart(bits: Bits, wanted: Bits, all: bool)
    requires TestWaitCondition(bits, wanted, all) && wanted != 0
    ensures !Apart(bits, wanted)
  {
  }

  // ---- xEventGroupClearBits ----

  lemma ClearReturns(g: Group, bits: Bits)
    ensures var g' := ClearBits(g, bits);
            && Clears(g.bits, g'.bits, bits)
            && g'.waiters == g.waiters && g'.items == g.items && g'.calls == g.calls
  {
    hide Minus, Clears;
    MinusClears(g.bits, bits);
  }

  // ---- xEventGroupSync ----

  // The caller sets its bits first.  If then all those it waits for are set, it returns the bits as
  // they were with its own, and those it waits for end clear; if not, and it may not block, it
  // returns what is left of the bits; otherwise it is the last on the list, waiting for all and
  // clearing on exit.
  lemma SyncReturns(g: Group, t: nat, bits: Bits, wanted: Bits, mayBlock: bool)
    requires Clean(wanted)
    ensures var (g', out), g1, now := Sync(g, t, bits, wanted, mayBlock), SetBits(g, bits), Union(g.bits, bits);
            && (forall bit :: IsSet(bit, now) <==> IsSet(bit, g.bits) || IsSet(bit, bits))
            && if HasAll(now, wanted) then
                 && out == Returns(now) && Clears(g1.bits, g'.bits, wanted)
                 && g'.waiters == g1.waiters && g'.items == g1.items && g'.calls == g.calls
               else if !mayBlock then
                 out == Returns(g1.bits) && g' == g1
               else
                 && out == Blocks && g'.bits == g1.bits && g'.items == g1.items
                 && g'.calls == g.calls[t := Request(wanted, true, true)]
                 && |g'.waiters| == |g1.waiters| + 1 && g'.waiters[..|g1.waiters|] == g1.waiters
                 && Leaves(g'.waiters[|g1.waiters|], t, wanted, true, true)
  {
    hide Minus, Union, Within, Clears, HasAll, Clean, Leaves, Item, Kept, Cleared, Released, IsSet;
    var now := Union(g.bits, bits);
    AllMeans(now, wanted);
    MinusClears(SetBits(g, bits).bits, wanted);
    BlockLeaves(t, Request(wanted, true, true));
    forall bit
      ensures IsSet(bit, now) <==> IsSet(bit, g.bits) || IsSet(bit, bits)
    {
      UnionSets(g.bits, bits, bit);
    }
  }

  // ---- Calls that block ----

  // A time-out takes just the task's own entry off the list and leaves its item as no unblocking.
  lemma TimeOutLeaves(g: Group, t: nat)
    requires Inv(g) && t in g.calls && t !in g.items
    ensures var g' := TimeOut(g, t);
            && g'.bits == g.bits && g'.calls == g.calls
            && g'.items.Keys == g.items.Keys + {t} && !WasUnblocked(g'.items[t])
            && (forall u :: u in g.items ==> g'.items[u] == g.items[u])
            && (forall w :: w in g'.waiters <==> w in g.waiters && w.task != t)
  {
    hide Plain, WasUnblocked, ItemValue, Clean, Remove, Meets, Fulfils, OneEach;
    BlockLeaves(t, g.calls[t]);
  }
}
