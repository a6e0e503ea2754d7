/** An event group as it is written: the bits and the list of blocked tasks are updated in place,
    the list while it is being walked.  Each method computes the operation of EventGroupModel; a
    call that blocks is two methods, up to the blocking point and after it.
 */
module EventGroups {
  import opened EventBits
  import opened EventGroupModel
  import Runs = EventGroupRuns

  // The test that xEventGroupSetBits makes on an item value, and the bits to clear if it succeeds.
  // The item value of a request gives back its any/all test and the bits it clears on exit.
  method ReadItem(value: Bits, current: Bits) returns (matchFound: bool, clear: Bits)
    ensures matchFound == ItemMatches(value, current) && clear == if matchFound then ItemClears(value) else 0
    ensures forall w, c, a :: Clean(w) && value == ItemValue(w, c, a) ==>
              && (matchFound <==> if a then HasAll(current, w) else HasAny(current, w))
              && clear == if matchFound && c then w else 0
  {
    hide Plain, NeedsAll, ClearsOnExit, Apart, Within, Clean, ItemValue, HasAll, HasAny;
    forall w, c, a | Clean(w) && value == ItemValue(w, c, a)
      ensures ItemMatches(value, current) <==> if a then HasAll(current, w) else HasAny(current, w)
      ensures ItemClears(value) == if c then w else 0
    {
      ItemValueRoundTrip(w, c, a, current);
      TestMeans(current, w, a);
    }
    matchFound, clear := false, 0;
    var waitedFor := Plain(value);
    if !NeedsAll(value) {
      if !Apart(waitedFor, current) {
        matchFound := true;
      }
    } else if Within(waitedFor, current) {
      matchFound := true;
    }
    if matchFound {
      if ClearsOnExit(value) {
        clear := waitedFor;
      }
    }
  }

  // Where the walk stands after k waiters of the list ws.
  ghost predicate Walked(items0: map<nat, Bits>, ws: seq<Waiter>, now: Bits, k: nat,
                         waiting: seq<Waiter>, i: nat, clear: Bits, items: map<nat, Bits>) {
    && k <= |ws|
    && waiting == Kept(ws[..k], now) + ws[k..] && i == |Kept(ws[..k], now)|
    && clear == Cleared(ws[..k], now)
    && items == Released(items0, ws[..k], now)
  }

  lemma WalkStarts(items: map<nat, Bits>, ws: seq<Waiter>, now: Bits)
    ensures Walked(items, ws, now, 0, ws, 0, 0, items)
  {
    assert ws[..0] == [] && [] + ws[0..] == ws;
  }

  lemma WalkEnds(items0: map<nat, Bits>, ws: seq<Waiter>, now: Bits, k: nat,
                 waiting: seq<Waiter>, i: nat, clear: Bits, items: map<nat, Bits>)
    requires Walked(items0, ws, now, k, waiting, i, clear, items)
    ensures i <= |waiting| && |waiting| - i == |ws| - k
    ensures i == |waiting| ==>
              waiting == Kept(ws, now) && clear == Cleared(ws, now) && items == Released(items0, ws, now)
  {
    hide Kept, Cleared, Released;
    if k == |ws| {
      assert ws[..k] == ws && Kept(ws, now) + ws[k..] == Kept(ws, now);
    }
  }

  // Walking past the next waiter.
  lemma NextWaiter(items: map<nat, Bits>, ws: seq<Waiter>, now: Bits, k: nat)
    requires k < |ws|
    ensures var w := ws[k];
            if ItemMatches(w.value, now) then
              && Kept(ws[..k + 1], now) == Kept(ws[..k], now)
              && Cleared(ws[..k + 1], now) == Union(Cleared(ws[..k], now), ItemClears(w.value))
              && Released(items, ws[..k + 1], now) == Released(items, ws[..k], now)[w.task := Unblocking(now)]
            else
              && Kept(ws[..k + 1], now) == Kept(ws[..k], now) + [w]
              && Cleared(ws[..k + 1], now) == Cleared(ws[..k], now)
              && Released(items, ws[..k + 1], now) == Released(items, ws[..k], now)
  {
    hide ItemMatches, Union, ItemClears, Unblocking;
    assert ws[..k + 1][..k] == ws[..k];
  }

  lemma WalkOn(items0: map<nat, Bits>, ws: seq<Waiter>, now: Bits, k: nat,
               waiting: seq<Waiter>, i: nat, clear: Bits, items: map<nat, Bits>)
    requires Walked(items0, ws, now, k, waiting, i, clear, items) && i < |waiting|
    ensures var w := waiting[i];
            if ItemMatches(w.value, now) then
              Walked(items0, ws, now, k + 1, waiting[..i] + waiting[i + 1..], i,
                     Union(clear, ItemClears(w.value)), items[w.task := Unblocking(now)])
            else Walked(items0, ws, now, k + 1, waiting, i + 1, clear, items)
  {
    hide ItemMatches, Union, ItemClears, Unblocking, Kept, Cleared, Released;
    NextWaiter(items0, ws, now, k);
    AtWalk(Kept(ws[..k], now), ws, k);
  }

  lemma AtWalk(kept: seq<Waiter>, ws: seq<Waiter>, k: nat)
    requires k < |ws|
    ensures var waiting, i := kept + ws[k..], |kept|;
            && waiting[i] == ws[k]
            && waiting[..i] + waiting[i + 1..] == kept + ws[k + 1..]
            && waiting == (kept + [ws[k]]) + ws[k + 1..]
  {
  }

  class EventGroup {
    var eventBits: Bits
    var waiting: seq<Waiter>
    // Of the tasks inside a call: the event item values of those unblocked, and the arguments.
    var items: map<nat, Bits>
    var calls: map<nat, Request>

    function Value(): Group
      reads this
    {
      Group(eventBits, waiting, items, calls)
    }

    constructor ()
      ensures Value() == Runs.Created() && Inv(Value())
    {
      eventBits, waiting, items, calls := 0, [], map[], map[];
    }

    method SetBits(bitsToSet: Bits) returns (r: Bits)
      modifies `eventBits, `waiting, `items
      ensures Value() == EventGroupModel.SetBits(old(Value()), bitsToSet) && r == eventBits
    {
      hide Union, Minus, ItemMatches, ItemClears, Unblocking, Kept, Cleared, Released, Walked;
      ghost var ws, items0 := waiting, items;
      ghost var k: nat := 0;
      eventBits := Union(eventBits, bitsToSet);
      var bitsToClear: Bits := 0;
      var i: nat := 0;
      WalkStarts(items, ws, eventBits);
      WalkEnds(items0, ws, eventBits, k, waiting, i, bitsToClear, items);
      while i < |waiting|
        invariant Walked(items0, ws, eventBits, k, waiting, i, bitsToClear, items)
        invariant i <= |waiting|
        modifies `waiting, `items
        decreases |waiting| - i
      {
        WalkOn(items0, ws, eventBits, k, waiting, i, bitsToClear, items);
        i, bitsToClear := Visit(i, bitsToClear);
        k := k + 1;
      }
      WalkEnds(items0, ws, eventBits, k, waiting, i, bitsToClear, items);
      eventBits := Minus(eventBits, bitsToClear);
      r := eventBits;
    }

    // One turn of the walk: the waiter at i leaves the list if it matches.
    method Visit(i: nat, bitsToClear: Bits) returns (next: nat, toClear: Bits)
      requires i < |waiting|
      modifies `waiting, `items
      ensures var w := old(waiting)[i];
              if ItemMatches(w.value, eventBits) then
                && next == i && toClear == Union(bitsToClear, ItemClears(w.value))
                && waiting == old(waiting)[..i] + old(waiting)[i + 1..]
                && items == old(items)[w.task := Unblocking(eventBits)]
              else next == i + 1 && toClear == bitsToClear && waiting == old(waiting) && items == old(items)
    {
      hide Union, ItemMatches, ItemClears, Unblocking;
      var w := waiting[i];
      var matchFound, clear := ReadItem(w.value, eventBits);
      next, toClear := i + 1, bitsToClear;
      if matchFound {
        toClear := Union(bitsToClear, clear);
        items := items[w.task := Unblocking(eventBits)];
        waiting := waiting[..i] + waiting[i + 1..];
        next := i;
      }
    }

    method ClearBits(bitsToClear: Bits) returns (r: Bits)
      modifies `eventBits
      ensures Value() == EventGroupModel.ClearBits(old(Value()), bitsToClear) && r == old(eventBits)
    {
      r := eventBits;
      eventBits := Minus(eventBits, bitsToClear);
    }

    // vTaskPlaceOnUnorderedEventList, for a task that makes the call `request`
    method Block(task: nat, request: Request, value: Bits)
      requires value == Item(request)
      modifies `waiting, `calls
      ensures Value() == EventGroupModel.Block(old(Value()), task, request)
    {
      waiting := waiting + [Waiter(task, value)];
      calls := calls[task := request];
    }

    // prvTestWaitCondition
    method TestCondition(current: Bits, waitFor: Bits, all: bool) returns (met: bool)
      ensures met == TestWaitCondition(current, waitFor, all)
      ensures met <==> if all then HasAll(current, waitFor) else HasAny(current, waitFor)
    {
      hide Apart, Within, HasAll, HasAny;
      TestMeans(current, waitFor, all);
      met := false;
      if !all {
        if !Apart(current, waitFor) {
          met := true;
        }
      } else {
        if Within(waitFor, current) {
          met := true;
        }
      }
    }

    method WaitBits(task: nat, waitFor: Bits, clearOnExit: bool, waitForAll: bool, ticksToWait: nat)
      returns (out: Outcome)
      modifies this
      ensures (Value(), out) ==
              EventGroupModel.WaitBits(old(Value()), task, Request(waitFor, clearOnExit, waitForAll), ticksToWait != 0)
    {
      hide Minus, TestWaitCondition, ItemValue;
      var met := TestCondition(eventBits, waitFor, waitForAll);
      if met {
        out := Returns(eventBits);
        if clearOnExit {
          eventBits := Minus(eventBits, waitFor);
        }
      } else if ticksToWait == 0 {
        out := Returns(eventBits);
      } else {
        var value := MakeItem(waitFor, clearOnExit, waitForAll);
        Block(task, Request(waitFor, clearOnExit, waitForAll), value);
        out := Blocks;
      }
    }

    method MakeItem(waitFor: Bits, clearOnExit: bool, waitForAll: bool) returns (value: Bits)
      ensures value == ItemValue(waitFor, clearOnExit, waitForAll)
    {
      var controlBits: Bits := 0;
      if clearOnExit {
        controlBits := controlBits | CLEAR_EVENTS_ON_EXIT;
      }
      if waitForAll {
        controlBits := controlBits | WAIT_FOR_ALL;
      }
      value := waitFor | controlBits;
    }

    method Sync(task: nat, bitsToSet: Bits, waitFor: Bits, ticksToWait: nat) returns (out: Outcome)
      modifies this
      ensures (Value(), out) == EventGroupModel.Sync(old(Value()), task, bitsToSet, waitFor, ticksToWait != 0)
    {
      hide Minus, Union, Within, ItemValue, EventGroupModel.SetBits;
      var original := eventBits;
      var _ := SetBits(bitsToSet);
      if Within(waitFor, Union(original, bitsToSet)) {
        out := Returns(Union(original, bitsToSet));
        eventBits := Minus(eventBits, waitFor);
      } else if ticksToWait != 0 {
        var value := MakeItem(waitFor, true, true);
        Block(task, Request(waitFor, true, true), value);
        out := Blocks;
      } else {
        out := Returns(eventBits);
      }
    }

    // The kernel takes a task whose block time has expired off the list.
    method TimeOut(task: nat)
      requires task in calls
      modifies `waiting, `items
      ensures Value() == EventGroupModel.TimeOut(old(Value()), task)
    {
      items := items[task := Item(calls[task])];
      waiting := Remove(waiting, task);
    }

    // From the blocking point to the return of xEventGroupWaitBits or xEventGroupSync
    method Resume(task: nat) returns (r: Bits)
      requires task in items && task in calls
      modifies `eventBits, `items, `calls
      ensures (Value(), r) == EventGroupModel.Resume(old(Value()), task)
    {
      hide Minus, Plain, TestWaitCondition, WasUnblocked;
      var request := calls[task];
      r := items[task];
      items, calls := items - {task}, calls - {task};
      if !WasUnblocked(r) {
        r := eventBits;
        var met := TestCondition(r, request.wanted, request.all);
        if met {
          if request.clear {
            eventBits := Minus(eventBits, request.wanted);
          }
        }
      }
      r := Plain(r);
    }
  }
}
