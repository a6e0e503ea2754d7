/** The storage of a queue as bytes and offsets, and the bounded deque it stands for. */
module QueueRing {
  import opened Bytes

  // ---- Slots of `size` bytes ----

  lemma SlotBounds(i: nat, n: nat, size: nat)
    requires i < n
    ensures i * size + size <= n * size
  {
    SlotOrder(i, n, size);
  }

  lemma SlotOrder(i: nat, j: nat, size: nat)
    requires i < j
    ensures i * size + size <= j * size
  {
    assert j * size == i * size + (j - i) * size;
    assert (j - i) * size >= size by {
      assert (j - i) * size == size + (j - i - 1) * size;
    }
  }

  function Slot(data: seq<Byte>, size: nat, n: nat, i: nat): (r: seq<Byte>)
    requires |data| == n * size && i < n
    ensures |r| == size
  {
    SlotBounds(i, n, size);
    data[i * size..i * size + size]
  }

  lemma CopyIntoSlot(data: seq<Byte>, size: nat, n: nat, i: nat, j: nat, item: seq<Byte>)
    requires |data| == n * size && i < n && j < n && |item| == size
    ensures i * size + size <= |data|
    ensures Slot(Copied(data, i * size, item), size, n, j) == if i == j then item else Slot(data, size, n, j)
  {
    SlotBounds(i, n, size);
    SlotBounds(j, n, size);
    if i < j {
      SlotOrder(i, j, size);
    } else if j < i {
      SlotOrder(j, i, size);
    }
  }

  // ---- The ring: the k-th item is in the slot k + 1 places after the last one read ----

  function Place(r: nat, k: nat, n: nat): (p: nat)
    requires r < n && k <= n
    ensures p < n
  {
    if r + 1 + k < n then r + 1 + k else if r + 1 + k < 2 * n then r + 1 + k - n else r + 1 + k - 2 * n
  }

  function Contents(data: seq<Byte>, size: nat, n: nat, r: nat, count: nat): (c: seq<seq<Byte>>)
    requires |data| == n * size && r < n && count <= n
    ensures |c| == count
    ensures forall k :: 0 <= k < count ==> c[k] == Slot(data, size, n, Place(r, k, n))
  {
    seq(count, k requires 0 <= k < count => Slot(data, size, n, Place(r, k, n)))
  }

  function Previous(r: nat, n: nat): (p: nat)
    requires r < n
    ensures p < n && Place(p, 0, n) == r
  {
    if r == 0 then n - 1 else r - 1
  }

  // Different items are in different slots, and the slot last read is free while there is room.
  lemma PlacesDiffer(r: nat, k: nat, l: nat, n: nat)
    requires r < n && k < l <= n
    ensures l < n ==> Place(r, k, n) != Place(r, l, n)
    ensures Place(r, n - 1, n) == r
    ensures k < n - 1 ==> Place(r, k, n) != r
  {
  }

  lemma PushBack(data: seq<Byte>, size: nat, n: nat, r: nat, count: nat, item: seq<Byte>)
    requires |data| == n * size && r < n && count < n && |item| == size
    ensures var w := Place(r, count, n);
            && w * size + size <= |data|
            && Contents(Copied(data, w * size, item), size, n, r, count + 1) ==
                 Contents(data, size, n, r, count) + [item]
  {
    hide Copied, Slot;
    var w := Place(r, count, n);
    SlotBounds(w, n, size);
    var after := Copied(data, w * size, item);
    forall k | 0 <= k <= count
      ensures Slot(after, size, n, Place(r, k, n)) == (Contents(data, size, n, r, count) + [item])[k]
    {
      if k < count {
        PlacesDiffer(r, k, count, n);
      }
      CopyIntoSlot(data, size, n, w, Place(r, k, n), item);
    }
  }

  lemma PushFront(data: seq<Byte>, size: nat, n: nat, r: nat, count: nat, item: seq<Byte>)
    requires |data| == n * size && r < n && count < n && |item| == size
    ensures r * size + size <= |data|
    ensures Contents(Copied(data, r * size, item), size, n, Previous(r, n), count + 1) ==
              [item] + Contents(data, size, n, r, count)
  {
    hide Copied, Slot;
    SlotBounds(r, n, size);
    var after := Copied(data, r * size, item);
    forall k | 0 <= k <= count
      ensures Slot(after, size, n, Place(Previous(r, n), k, n)) == ([item] + Contents(data, size, n, r, count))[k]
    {
      CopyIntoSlot(data, size, n, r, Place(Previous(r, n), k, n), item);
    }
  }

  lemma PopFront(data: seq<Byte>, size: nat, n: nat, r: nat, count: nat)
    requires |data| == n * size && r < n && 0 < count <= n
    ensures Slot(data, size, n, Place(r, 0, n)) == Contents(data, size, n, r, count)[0]
    ensures Contents(data, size, n, Place(r, 0, n), count - 1) == Contents(data, size, n, r, count)[1..]
  {
  }

  // Overwriting in a queue of one slot: the slot last read is the slot of the item.
  lemma OverwriteOnly(data: seq<Byte>, size: nat, count: nat, item: seq<Byte>)
    requires |data| == size && count <= 1 && |item| == size
    ensures Contents(Copied(data, 0, item), size, 1, Previous(0, 1), 1) == [item]
  {
    CopyIntoSlot(data, size, 1, 0, 0, item);
  }
}
