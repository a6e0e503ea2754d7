/** The kernel's intrusive doubly linked list: a ring of items around an end marker. */
module IntrusiveLists {
  import opened Ticks
  import opened SortedLists

  class ListItem {
    var itemValue: nat
    var next: ListItem?
    var previous: ListItem?
    var container: List?

    // vListInitialiseItem, after the owner has set the item value.
    constructor (value: nat)
      ensures container == null && itemValue == value
    {
      itemValue, next, previous, container := value, null, null, null;
    }
  }

  function Succ(i: nat, n: nat): (r: nat)
    requires i < n
    ensures r < n
  {
    if i + 1 == n then 0 else i + 1
  }

  function Pred(i: nat, n: nat): (r: nat)
    requires i < n
    ensures r < n && Succ(r, n) == i
  {
    if i == 0 then n - 1 else i - 1
  }

  function InsertAt<T>(s: seq<T>, p: nat, x: T): (r: seq<T>)
    requires p <= |s|
    ensures |r| == |s| + 1
    ensures forall i :: 0 <= i < |r| ==> r[i] == if i < p then s[i] else if i == p then x else s[i - 1]
  {
    s[..p] + [x] + s[p..]
  }

  function DeleteAt<T>(s: seq<T>, p: nat): (r: seq<T>)
    requires p < |s|
    ensures |r| == |s| - 1
    ensures forall i :: 0 <= i < |r| ==> r[i] == if i < p then s[i] else s[i + 1]
  {
    s[..p] + s[p + 1..]
  }

  lemma InsertDistinct<T>(s: seq<T>, p: nat, x: T)
    requires p <= |s| && Distinct(s) && x !in s
    ensures Distinct(InsertAt(s, p, x))
    ensures forall y :: y in InsertAt(s, p, x) <==> y == x || y in s
  {
    assert s == s[..p] + s[p..];
  }

  lemma DeleteDistinct<T>(s: seq<T>, p: nat)
    requires p < |s| && Distinct(s)
    ensures Distinct(DeleteAt(s, p))
    ensures forall y :: y in DeleteAt(s, p) <==> y != s[p] && y in s
  {
    assert s == s[..p] + [s[p]] + s[p + 1..];
  }

  ghost predicate Covers<T>(items: set<T>, s: seq<T>) {
    forall i :: 0 <= i < |s| ==> s[i] in items
  }

  // nx and pv are the forward and backward pointers of the nodes of a ring.
  ghost predicate Ring<T>(nodes: seq<T>, nx: seq<T>, pv: seq<T>) {
    && |nx| == |pv| == |nodes|
    && (forall i, j :: 0 <= i < |nodes| && 0 <= j < |nodes| && j == Succ(i, |nodes|) ==>
          nx[i] == nodes[j] && pv[j] == nodes[i])
  }

  // Redirecting the pointers on both sides of a gap closes the ring around a new node.
  lemma RingInsert<T>(nodes: seq<T>, nx: seq<T>, pv: seq<T>, p: nat, x: T)
    requires Ring(nodes, nx, pv) && p < |nodes|
    ensures var q := Succ(p, |nodes|);
            Ring(InsertAt(nodes, p + 1, x),
                 InsertAt(nx[p := x], p + 1, nodes[q]),
                 InsertAt(pv[q := x], p + 1, nodes[p]))
  {
  }

  lemma RingDelete<T>(nodes: seq<T>, nx: seq<T>, pv: seq<T>, p: nat)
    requires Ring(nodes, nx, pv) && 0 < p < |nodes|
    ensures var q, r := Succ(p, |nodes|), Pred(p, |nodes|);
            Ring(DeleteAt(nodes, p), DeleteAt(nx[r := nodes[q]], p), DeleteAt(pv[q := nodes[r]], p))
  {
  }

  ghost function Nexts(nodes: seq<ListItem>): (r: seq<ListItem?>)
    reads nodes
    ensures |r| == |nodes|
    ensures forall i :: 0 <= i < |r| ==> r[i] == nodes[i].next
  {
    seq(|nodes|, i requires 0 <= i < |nodes| reads nodes => nodes[i].next)
  }

  ghost function Previouses(nodes: seq<ListItem>): (r: seq<ListItem?>)
    reads nodes
    ensures |r| == |nodes|
    ensures forall i :: 0 <= i < |r| ==> r[i] == nodes[i].previous
  {
    seq(|nodes|, i requires 0 <= i < |nodes| reads nodes => nodes[i].previous)
  }

  ghost predicate RingOk(nodes: seq<ListItem>)
    reads nodes
  {
    Ring<ListItem?>(nodes, Nexts(nodes), Previouses(nodes))
  }

  lemma PointersInsert(nodes: seq<ListItem>, p: nat, x: ListItem)
    requires p <= |nodes|
    ensures Nexts(InsertAt(nodes, p, x)) == InsertAt(Nexts(nodes), p, x.next)
    ensures Previouses(InsertAt(nodes, p, x)) == InsertAt(Previouses(nodes), p, x.previous)
  {
  }

  lemma PointersDelete(nodes: seq<ListItem>, p: nat)
    requires p < |nodes|
    ensures Nexts(DeleteAt(nodes, p)) == DeleteAt(Nexts(nodes), p)
    ensures Previouses(DeleteAt(nodes, p)) == DeleteAt(Previouses(nodes), p)
  {
  }

  // The ring after an insertion, from what the pointer writes did to each node.
  lemma RingAfterInsert(ring: seq<ListItem>, nx: seq<ListItem?>, pv: seq<ListItem?>, p: nat, x: ListItem)
    requires Ring<ListItem?>(ring, nx, pv) && p < |ring|
    requires var q := Succ(p, |ring|);
             && (forall i :: 0 <= i < |ring| ==> ring[i].next == if i == p then x else nx[i])
             && (forall i :: 0 <= i < |ring| ==> ring[i].previous == if i == q then x else pv[i])
             && x.next == ring[q] && x.previous == ring[p]
    ensures RingOk(InsertAt(ring, p + 1, x))
  {
    var q := Succ(p, |ring|);
    assert Nexts(ring) == nx[p := x];
    assert Previouses(ring) == pv[q := x];
    PointersInsert(ring, p + 1, x);
    RingInsert<ListItem?>(ring, nx, pv, p, x);
  }

  lemma RingAfterDelete(ring: seq<ListItem>, nx: seq<ListItem?>, pv: seq<ListItem?>, p: nat)
    requires Ring<ListItem?>(ring, nx, pv) && 0 < p < |ring|
    requires var q := Succ(p, |ring|);
             && (forall i :: 0 <= i < |ring| ==> ring[i].next == if i == p - 1 then ring[q] else nx[i])
             && (forall i :: 0 <= i < |ring| ==> ring[i].previous == if i == q then ring[p - 1] else pv[i])
    ensures RingOk(DeleteAt(ring, p))
  {
    var q := Succ(p, |ring|);
    assert Nexts(ring) == nx[p - 1 := ring[q]];
    assert Previouses(ring) == pv[q := ring[p - 1]];
    PointersDelete(ring, p);
    RingDelete<ListItem?>(ring, nx, pv, p);
  }

  // ---- Rotation order ----

  // The items of a ring in the order listGET_OWNER_OF_NEXT_ENTRY will visit them when the list
  // index stands at position `at` (position 0 is the end marker).
  function Rotation<T>(ring: seq<T>, at: nat): (r: seq<T>)
    requires at < |ring|
    ensures |r| == |ring| - 1
  {
    ring[at + 1..] + ring[1..at + 1]
  }

  // vListInsertEnd leaves every other item ahead of the new one, except the one the list index
  // stands on, which stays last.
  lemma RotationInsertEnd<T>(ring: seq<T>, at: nat, x: T)
    requires at < |ring|
    ensures at == 0 ==> Rotation(InsertAt(ring, |ring|, x), 0) == Rotation(ring, 0) + [x]
    ensures 0 < at ==> Rotation(InsertAt(ring, at, x), at + 1) == InsertAt(Rotation(ring, at), |ring| - 2, x)
  {
  }

  // With the list index on item 1 of [1, 2], the item 3 inserted at the end comes before item 1.
  lemma NotLastInRotation()
    ensures var ring := InsertAt([0, 1, 2], 1, 3);
            ring == [0, 3, 1, 2] && Rotation(ring, 2) == [2, 3, 1]
  {
  }

  // Removing an item keeps the rotation order of the others, also when the list index stood on it.
  lemma RotationDelete<T>(ring: seq<T>, at: nat, p: nat)
    requires at < |ring| && 0 < p < |ring|
    ensures at < p ==> Rotation(DeleteAt(ring, p), at) == DeleteAt(Rotation(ring, at), p - 1 - at)
    ensures p <= at ==> Rotation(DeleteAt(ring, p), at - 1) == DeleteAt(Rotation(ring, at), |ring| - 2 - at + p)
  {
    if at < p {
      DeleteAhead(ring, at, p);
    } else {
      DeleteBehind(ring, at, p);
    }
  }

  lemma DeleteAhead<T>(ring: seq<T>, at: nat, p: nat)
    requires at < p < |ring|
    ensures Rotation(DeleteAt(ring, p), at) == DeleteAt(Rotation(ring, at), p - 1 - at)
  {
    var rest := DeleteAt(ring, p);
    assert rest[at + 1..] == ring[at + 1..p] + ring[p + 1..];
    assert rest[1..at + 1] == ring[1..at + 1];
    assert Rotation(ring, at)[..p - 1 - at] == ring[at + 1..p];
    assert Rotation(ring, at)[p - at..] == ring[p + 1..] + ring[1..at + 1];
  }

  lemma DeleteBehind<T>(ring: seq<T>, at: nat, p: nat)
    requires 0 < p <= at < |ring|
    ensures Rotation(DeleteAt(ring, p), at - 1) == DeleteAt(Rotation(ring, at), |ring| - 2 - at + p)
  {
    var rest, gone := DeleteAt(ring, p), |ring| - 2 - at + p;
    assert rest[at..] == ring[at + 1..];
    assert rest[1..at] == ring[1..p] + ring[p + 1..at + 1];
    assert Rotation(ring, at)[..gone] == ring[at + 1..] + ring[1..p];
    assert Rotation(ring, at)[gone + 1..] == ring[p + 1..at + 1];
  }

  // Where NextEntry moves the list index: to the next item, passing over the end marker.
  function NextAt(at: nat, n: nat): (r: nat)
    requires at < n && 1 < n
    ensures 0 < r < n
  {
    if at + 1 == n then 1 else at + 1
  }

  lemma RotationNext<T>(ring: seq<T>, at: nat)
    requires at < |ring| && 1 < |ring|
    ensures Rotation(ring, at)[0] == ring[NextAt(at, |ring|)]
    ensures Rotation(ring, NextAt(at, |ring|)) == Rotation(ring, at)[1..] + [Rotation(ring, at)[0]]
  {
    if at + 1 == |ring| {
      assert Rotation(ring, at) == ring[1..];
      assert Rotation(ring, 1) == ring[2..] + [ring[1]];
    } else {
      assert Rotation(ring, at)[1..] == ring[at + 2..] + ring[1..at + 1];
      assert ring[1..at + 2] == ring[1..at + 1] + [ring[at + 1]];
    }
  }

  // The items the next n calls of NextEntry return.
  function Visits<T>(ring: seq<T>, at: nat, n: nat): seq<T>
    requires at < |ring| && 1 < |ring|
    decreases n
  {
    if n == 0 then [] else
      var next := NextAt(at, |ring|);
      [ring[next]] + Visits(ring, next, n - 1)
  }

  // One round visits every item once, in rotation order.
  lemma {:induction false} RoundVisitsAll<T>(ring: seq<T>, at: nat, n: nat)
    requires at < |ring| && 1 < |ring| && n < |ring|
    ensures Visits(ring, at, n) == Rotation(ring, at)[..n]
    decreases n
  {
    if n > 0 {
      RotationNext(ring, at);
      RoundVisitsAll(ring, NextAt(at, |ring|), n - 1);
      var r := Rotation(ring, at);
      assert r[..n] == [r[0]] + (r[1..] + [r[0]])[..n - 1];
    }
  }

  lemma InsertKeepsSortedKeys(keys: seq<nat>, k: nat)
    requires SortedKeys(keys)
    ensures SortedKeys(InsertAt(keys, InsertPos(keys, k), k))
  {
  }

  // The item values of a ring without its end marker.
  ghost function Values(ring: seq<ListItem>): (r: seq<nat>)
    requires ring != []
    reads ring
    ensures |r| == |ring| - 1
    ensures forall i :: 0 <= i < |r| ==> r[i] == ring[i + 1].itemValue
  {
    seq(|ring| - 1, i requires 0 <= i < |ring| - 1 reads ring => ring[i + 1].itemValue)
  }

  // The item at position p of the ring is the last one not larger than the value.
  ghost predicate LastNotLarger(ring: seq<ListItem>, value: nat, p: nat)
    reads ring
  {
    && p < |ring|
    && (forall i :: 0 < i <= p ==> ring[i].itemValue <= value)
    && (p + 1 < |ring| ==> value < ring[p + 1].itemValue)
  }

  lemma LastNotLargerIsInsertPos(ring: seq<ListItem>, value: nat, p: nat)
    requires LastNotLarger(ring, value, p)
    ensures p == InsertPos(Values(ring), value)
  {
    InsertPosUnique(Values(ring), value, p);
  }

  // Sorted insertion on the values of a ring, and so on the list as SortedLists sees it.
  lemma InsertSortedValues(ring: seq<ListItem>, p: nat, x: ListItem)
    requires LastNotLarger(ring, x.itemValue, p) && SortedKeys(Values(ring))
    ensures Values(InsertAt(ring, p + 1, x)) ==
              InsertAt(Values(ring), InsertPos(Values(ring), x.itemValue), x.itemValue)
    ensures SortedKeys(Values(InsertAt(ring, p + 1, x)))
  {
    LastNotLargerIsInsertPos(ring, x.itemValue, p);
    InsertKeepsSortedKeys(Values(ring), x.itemValue);
  }

  // ---- The sequence view of the other modules ----

  // The entries are the items of the ring behind its end marker, each with its item value.
  ghost predicate Shows(entries: seq<Entry>, ring: seq<ListItem>)
    reads ring
  {
    && |ring| == |entries| + 1
    && forall i :: 0 <= i < |entries| ==> entries[i].key == ring[i + 1].itemValue
  }

  // What Insert does to the ring is InsertSorted on the entries.
  lemma InsertShows(entries: seq<Entry>, ring: seq<ListItem>, p: nat, x: ListItem, id: nat)
    requires Shows(entries, ring) && LastNotLarger(ring, x.itemValue, p)
    ensures Shows(InsertSorted(entries, Entry(id, x.itemValue)), InsertAt(ring, p + 1, x))
    ensures InsertSorted(entries, Entry(id, x.itemValue)) == InsertAt(entries, p, Entry(id, x.itemValue))
  {
    assert Keys(entries) == Values(ring);
    LastNotLargerIsInsertPos(ring, x.itemValue, p);
  }

  lemma {:induction false} WithoutIsDelete(entries: seq<Entry>, p: nat)
    requires UniqueIds(entries) && p < |entries|
    ensures Without(entries, entries[p].id) == DeleteAt(entries, p)
  {
    hide UniqueIds, DeleteAt;
    var id, rest := entries[p].id, entries[1..];
    UniqueTail(entries, p);
    DeleteFromCons(entries, p);
    if p == 0 {
      WithoutNothing(rest, id);
    } else {
      WithoutIsDelete(rest, p - 1);
    }
  }

  lemma UniqueTail(entries: seq<Entry>, p: nat)
    requires UniqueIds(entries) && p < |entries|
    ensures UniqueIds(entries[1..])
    ensures if p == 0 then forall e :: e in entries[1..] ==> e.id != entries[0].id else entries[0].id != entries[p].id
  {
  }

  lemma DeleteFromCons<T>(s: seq<T>, p: nat)
    requires p < |s|
    ensures DeleteAt(s, p) == if p == 0 then s[1..] else [s[0]] + DeleteAt(s[1..], p - 1)
  {
  }

  lemma {:induction false} WithoutNothing(entries: seq<Entry>, id: nat)
    requires forall e :: e in entries ==> e.id != id
    ensures Without(entries, id) == entries
  {
    if entries != [] {
      WithoutNothing(entries[1..], id);
    }
  }

  // What Remove does to the ring is Without on the entries.
  lemma RemoveShows(entries: seq<Entry>, ring: seq<ListItem>, p: nat)
    requires Shows(entries, ring) && UniqueIds(entries) && 0 < p < |ring|
    ensures Shows(Without(entries, entries[p - 1].id), DeleteAt(ring, p))
    ensures Without(entries, entries[p - 1].id) == DeleteAt(entries, p - 1)
  {
    hide Without, DeleteAt, UniqueIds;
    WithoutIsDelete(entries, p - 1);
    DeleteShows(entries, ring, p);
  }

  lemma DeleteShows(entries: seq<Entry>, ring: seq<ListItem>, p: nat)
    requires Shows(entries, ring) && 0 < p < |ring|
    ensures Shows(DeleteAt(entries, p - 1), DeleteAt(ring, p))
  {
  }

  class List {
    const end: ListItem
    var index: ListItem
    var numberOfItems: nat
    // The ring: the end marker followed by the items.
    ghost var nodes: seq<ListItem>
    ghost var members: set<ListItem>
    // The position of the list index in the ring.
    ghost var at: nat

    ghost predicate Members(ring: seq<ListItem>, items: set<ListItem>)
      reads this, items
    {
      && ring != [] && ring[0] == end
      && Covers(items, ring)
      && Distinct(ring)
      && end.itemValue == M - 1
      && (forall x :: x in items ==> x == end || (x.container == this && x.itemValue < M))
    }

    ghost predicate Valid()
      reads this, members, nodes
    {
      && Members(nodes, members)
      && RingOk(nodes)
      && |nodes| == numberOfItems + 1
      && at < |nodes| && index == nodes[at]
    }

    // vListInitialise
    constructor ()
      ensures Valid() && nodes == [end] && at == 0
      ensures fresh(end)
    {
      var marker := new ListItem(M - 1);
      end := marker;
      index := marker;
      numberOfItems := 0;
      nodes := [marker];
      members := {marker};
      at := 0;
      new;
      end.next := end;
      end.previous := end;
    }

    lemma MembersInsert(ring: seq<ListItem>, items: set<ListItem>, p: nat, x: ListItem)
      requires Members(ring, items) && 0 < p <= |ring|
      requires x !in items && x.container == this && x.itemValue < M
      ensures Members(InsertAt(ring, p, x), items + {x})
    {
      InsertDistinct(ring, p, x);
    }

    lemma MembersDelete(ring: seq<ListItem>, items: set<ListItem>, p: nat)
      requires Distinct(ring) && Covers(items, ring) && 0 < p < |ring|
      ensures Distinct(DeleteAt(ring, p)) && Covers(items - {ring[p]}, DeleteAt(ring, p))
    {
      DeleteDistinct(ring, p);
    }

    // An insertion after `before`, which is at position p.
    method Splice(x: ListItem, before: ListItem, ghost p: nat)
      requires RingOk(nodes) && Distinct(nodes) && Covers(members, nodes) && x !in members
      requires p < |nodes| && before == nodes[p]
      modifies this`numberOfItems, this`nodes, this`at, this`members
      modifies members`next, members`previous, x`next, x`previous, x`container
      ensures RingOk(nodes) && members == old(members) + {x}
      ensures nodes == InsertAt(old(nodes), p + 1, x) && numberOfItems == old(numberOfItems) + 1
      ensures at == if old(at) <= p then old(at) else old(at) + 1
      ensures x.container == this
    {
      hide RingOk, Ring, Distinct, Covers;
      LinkBehind(x, before, p);
      numberOfItems := numberOfItems + 1;
      at := if at <= p then at else at + 1;
      nodes := InsertAt(nodes, p + 1, x);
      members := members + {x};
    }

    // The pointer writes of an insertion.
    method LinkBehind(x: ListItem, before: ListItem, ghost p: nat)
      requires RingOk(nodes) && Distinct(nodes) && Covers(members, nodes) && x !in members
      requires p < |nodes| && before == nodes[p]
      modifies members`next, members`previous, x`next, x`previous, x`container
      ensures RingOk(InsertAt(nodes, p + 1, x)) && x.container == this
    {
      ghost var ring, nx, pv := nodes, Nexts(nodes), Previouses(nodes);
      ghost var q := Succ(p, |ring|);
      var after := before.next;
      assert after == ring[q];
      x.next := after;
      after.previous := x;
      x.previous := before;
      before.next := x;
      x.container := this;
      RingAfterInsert(ring, nx, pv, p, x);
    }

    // The neighbours of x, which is at position p, are linked to each other.
    method Bypass(x: ListItem, ghost p: nat) returns (before: ListItem)
      requires RingOk(nodes) && Distinct(nodes) && Covers(members, nodes)
      requires 0 < p < |nodes| && x == nodes[p]
      modifies members`next, members`previous, x`container
      ensures before == nodes[p - 1]
      ensures RingOk(DeleteAt(nodes, p)) && x.container == null
    {
      ghost var ring, nx, pv := nodes, Nexts(nodes), Previouses(nodes);
      ghost var q := Succ(p, |ring|);
      assert x.next == ring[q] && x.previous == ring[p - 1] by {
        assert p == Succ(p - 1, |ring|);
      }
      var after: ListItem := x.next;
      before := x.previous;
      after.previous := before;
      before.next := after;
      x.container := null;
      RingAfterDelete(ring, nx, pv, p);
    }

    // Removing x, which is at position p.
    method Unsplice(x: ListItem, ghost p: nat)
      requires RingOk(nodes) && Distinct(nodes) && Covers(members, nodes)
      requires 0 < p < |nodes| && x == nodes[p] && 0 < numberOfItems
      modifies this, members`next, members`previous, x`container
      ensures RingOk(nodes) && members == old(members) - {x}
      ensures nodes == DeleteAt(old(nodes), p) && numberOfItems == old(numberOfItems) - 1
      ensures x.container == null
      ensures index == if old(index) == x then old(nodes)[p - 1] else old(index)
      ensures at == if old(at) < p then old(at) else old(at) - 1
    {
      hide RingOk, Ring, Distinct, Covers;
      var before := Bypass(x, p);
      if index == x {
        index := before;
      }
      numberOfItems := numberOfItems - 1;
      at := if at < p then at else at - 1;
      nodes := DeleteAt(nodes, p);
      members := members - {x};
    }

    method LinkAfter(x: ListItem, before: ListItem, ghost p: nat)
      requires Valid() && x !in members && x.itemValue < M
      requires p < |nodes| && before == nodes[p]
      modifies this`numberOfItems, this`nodes, this`at, this`members
      modifies members`next, members`previous, x`next, x`previous, x`container
      ensures Valid()
      ensures nodes == InsertAt(old(nodes), p + 1, x) && members == old(members) + {x}
      ensures at == if old(at) <= p then old(at) else old(at) + 1
    {
      hide RingOk, Ring;
      ghost var ring, items := nodes, members;
      Splice(x, before, p);
      assert Members(ring, items);
      MembersInsert(ring, items, p + 1, x);
    }

    // vListInsert: in item-value order, after all items with an equal value.
    method Insert(x: ListItem) returns (ghost p: nat)
      requires Valid() && x.container == null && x != end && x.itemValue < M
      modifies this`numberOfItems, this`nodes, this`at, this`members
      modifies members`next, members`previous, x`next, x`previous, x`container
      ensures Valid() && members == old(members) + {x}
      ensures old(LastNotLarger(nodes, x.itemValue, p))
      ensures nodes == InsertAt(old(nodes), p + 1, x)
      ensures at == if old(at) <= p then old(at) else old(at) + 1
    {
      var position;
      position, p := FindPosition(x.itemValue);
      LinkAfter(x, position, p);
    }

    // The search of vListInsert.
    method FindPosition(value: nat) returns (position: ListItem, ghost p: nat)
      requires Valid() && value < M
      ensures LastNotLarger(nodes, value, p) && position == nodes[p]
    {
      p := |nodes| - 1;
      if value == M - 1 {
        PreviousOf(0);
        position := end.previous;
      } else {
        position := end;
        p := 0;
        NextOf(p);
        while position.next.itemValue <= value
          invariant p < |nodes| && position == nodes[p] && position.next == nodes[Succ(p, |nodes|)]
          invariant forall i :: 0 < i <= p ==> nodes[i].itemValue <= value
          decreases |nodes| - p
        {
          position := position.next;
          p := p + 1;
          NextOf(p);
        }
      }
    }

    lemma NextOf(p: nat)
      requires Valid() && p < |nodes|
      ensures nodes[p].next == nodes[Succ(p, |nodes|)]
    {
    }

    lemma PreviousOf(p: nat)
      requires Valid() && p < |nodes|
      ensures nodes[p].previous == nodes[Pred(p, |nodes|)]
    {
    }

    // vListInsertEnd: just before the list index.
    method InsertEnd(x: ListItem)
      requires Valid() && x.container == null && x != end && x.itemValue < M
      modifies this`numberOfItems, this`nodes, this`at, this`members
      modifies members`next, members`previous, x`next, x`previous, x`container
      ensures Valid() && members == old(members) + {x}
      ensures nodes == InsertAt(old(nodes), if old(at) == 0 then |old(nodes)| else old(at), x)
      ensures at == if old(at) == 0 then 0 else old(at) + 1
    {
      PreviousOf(at);
      LinkAfter(x, index.previous, Pred(at, |nodes|));
    }

    // listGET_OWNER_OF_NEXT_ENTRY: advance the list index, skipping the end marker.
    method NextEntry() returns (x: ListItem)
      requires Valid() && 0 < numberOfItems
      modifies this`index, this`at
      ensures Valid()
      ensures at == NextAt(old(at), |nodes|) && x == nodes[at]
    {
      NextOf(at);
      NextOf(0);
      at := NextAt(at, |nodes|);
      index := index.next;
      if index == end {
        index := index.next;
      }
      x := index;
    }

    // uxListRemove.  A list index that stood on the item moves to the previous one.
    method Remove(x: ListItem, ghost p: nat) returns (left: nat)
      requires Valid() && 0 < p < |nodes| && nodes[p] == x
      modifies this, members`next, members`previous, x`container
      ensures Valid() && x.container == null
      ensures nodes == DeleteAt(old(nodes), p) && members == old(members) - {x}
      ensures at == if old(at) < p then old(at) else old(at) - 1
      ensures left == numberOfItems
    {
      hide RingOk, Ring;
      ghost var ring, items := nodes, members;
      Unsplice(x, p);
      MembersDelete(ring, items, p);
      assert Members(nodes, members);
      left := numberOfItems;
    }
  }
}
