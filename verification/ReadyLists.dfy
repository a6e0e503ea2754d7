/** The ready lists of the co-routine scheduler are kernel lists: what they share with the pointer
    structure of IntrusiveLists.
 */
module ReadyLists {
  import opened CoRoutineModel
  import L = IntrusiveLists

  datatype Node = EndMarker | Item(c: nat)

  // A ready list as the ring of a kernel list.
  function RingOf(r: Ready): (ring: seq<Node>)
    ensures |ring| == |r.items| + 1
    ensures forall i :: 0 <= i < |ring| ==> ring[i] == if i == 0 then EndMarker else Item(r.items[i - 1])
  {
    seq(|r.items| + 1, i requires 0 <= i < |r.items| + 1 => if i == 0 then EndMarker else Item(r.items[i - 1]))
  }

  lemma EnqueueIsInsertEnd(r: Ready, c: nat)
    requires r.at <= |r.items|
    ensures RingOf(Enqueue(r, c)) == L.InsertAt(RingOf(r), if r.at == 0 then |RingOf(r)| else r.at, Item(c))
    ensures Enqueue(r, c).at == if r.at == 0 then 0 else r.at + 1
  {
    hide RingOf;
    var p := if r.at == 0 then |r.items| else r.at - 1;
    var after := Enqueue(r, c).items;
    assert after == r.items[..p] + [c] + r.items[p..];
    assert forall i :: 0 <= i < |after| ==>
             after[i] == if i < p then r.items[i] else if i == p then c else r.items[i - 1];
    var ring, expected := RingOf(Enqueue(r, c)), L.InsertAt(RingOf(r), p + 1, Item(c));
    forall j | 0 <= j < |ring|
      ensures ring[j] == expected[j]
    {
      assert 0 < j ==> ring[j] == Item(after[j - 1]);
      assert j < p + 1 ==> expected[j] == RingOf(r)[j];
      assert p + 1 < j ==> expected[j] == RingOf(r)[j - 1];
    }
    assert ring == expected;
  }

  lemma DequeueIsRemove(r: Ready, c: nat)
    requires r.at <= |r.items| && c in r.items
    ensures var p := IndexOf(r.items, c) + 1;
            && RingOf(r)[p] == Item(c) && RingOf(Dequeue(r, c)) == L.DeleteAt(RingOf(r), p)
            && Dequeue(r, c).at == if r.at < p then r.at else r.at - 1
  {
    hide RingOf, IndexOf;
    var p := IndexOf(r.items, c);
    var after := Dequeue(r, c).items;
    assert after == r.items[..p] + r.items[p + 1..];
    assert forall i :: 0 <= i < |after| ==> after[i] == if i < p then r.items[i] else r.items[i + 1];
    var ring, expected := RingOf(Dequeue(r, c)), L.DeleteAt(RingOf(r), p + 1);
    forall j | 0 <= j < |ring|
      ensures ring[j] == expected[j]
    {
      assert 0 < j ==> ring[j] == Item(after[j - 1]);
      assert expected[j] == if j < p + 1 then RingOf(r)[j] else RingOf(r)[j + 1];
    }
    assert ring == expected;
  }
}
