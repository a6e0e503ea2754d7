/** Index arithmetic of a stream buffer and the bytes between its tail and its head. */
module StreamRing {
  import opened Bytes

  function Min(a: nat, b: nat): nat {
    if a < b then a else b
  }

  // Stepping an index forward by n <= length, as the code does it.
  function Forward(i: nat, n: nat, length: nat): (r: nat)
    requires i < length && n <= length
    ensures r < length
  {
    if length <= i + n then i + n - length else i + n
  }

  // prvBytesInBuffer
  function BytesInBuffer(length: nat, head: nat, tail: nat): (r: nat)
    requires head < length && tail < length
    ensures r < length
  {
    var count := length + head - tail;
    if length <= count then count - length else count
  }

  // xStreamBufferSpacesAvailable
  function SpacesAvailable(length: nat, head: nat, tail: nat): (r: nat)
    requires head < length && tail < length
    ensures r < length
  {
    var space := length + tail - head - 1;
    if length <= space then space - length else space
  }

  lemma BytesAndSpace(length: nat, head: nat, tail: nat)
    requires head < length && tail < length
    ensures BytesInBuffer(length, head, tail) + SpacesAvailable(length, head, tail) == length - 1
    ensures head == Forward(tail, BytesInBuffer(length, head, tail), length)
    ensures BytesInBuffer(length, head, tail) == 0 <==> head == tail
  {
  }

  // The unread bytes, oldest first.
  function Contents(buffer: seq<Byte>, head: nat, tail: nat): (c: seq<Byte>)
    requires head < |buffer| && tail < |buffer|
    ensures |c| == BytesInBuffer(|buffer|, head, tail)
    ensures forall k :: 0 <= k < |c| ==> c[k] == buffer[Forward(tail, k, |buffer|)]
  {
    var count := BytesInBuffer(|buffer|, head, tail);
    seq(count, k requires 0 <= k < count => buffer[Forward(tail, k, |buffer|)])
  }

  // A slot in the free part of the ring is not the slot of any unread byte.
  lemma FreeSlot(length: nat, head: nat, tail: nat, i: nat, k: nat)
    requires head < length && tail < length
    requires i < SpacesAvailable(length, head, tail) && k < BytesInBuffer(length, head, tail)
    ensures Forward(head, i, length) != Forward(tail, k, length)
  {
  }

  lemma SlotsDiffer(length: nat, start: nat, i: nat, j: nat)
    requires start < length && i < j < length
    ensures Forward(start, i, length) != Forward(start, j, length)
  {
  }

  // Publishing n bytes that are in place behind the head appends them.
  lemma Publish(buffer: seq<Byte>, head: nat, tail: nat, data: seq<Byte>)
    requires head < |buffer| && tail < |buffer|
    requires |data| <= SpacesAvailable(|buffer|, head, tail)
    requires forall i :: 0 <= i < |data| ==> buffer[Forward(head, i, |buffer|)] == data[i]
    ensures Contents(buffer, Forward(head, |data|, |buffer|), tail) == Contents(buffer, head, tail) + data
    ensures SpacesAvailable(|buffer|, Forward(head, |data|, |buffer|), tail) ==
              SpacesAvailable(|buffer|, head, tail) - |data|
  {
    BytesAndSpace(|buffer|, head, tail);
    var n, head' := |buffer|, Forward(head, |data|, |buffer|);
    var count := BytesInBuffer(n, head, tail);
    assert BytesInBuffer(n, head', tail) == count + |data|;
    forall k | count <= k < count + |data|
      ensures buffer[Forward(tail, k, n)] == data[k - count]
    {
      assert Forward(tail, k, n) == Forward(head, k - count, n);
    }
  }

  // Moving the tail over n unread bytes removes them.
  lemma Consume(buffer: seq<Byte>, head: nat, tail: nat, n: nat)
    requires head < |buffer| && tail < |buffer|
    requires n <= BytesInBuffer(|buffer|, head, tail)
    ensures Contents(buffer, head, Forward(tail, n, |buffer|)) == Contents(buffer, head, tail)[n..]
    ensures SpacesAvailable(|buffer|, head, Forward(tail, n, |buffer|)) ==
              SpacesAvailable(|buffer|, head, tail) + n
  {
    var len, tail' := |buffer|, Forward(tail, n, |buffer|);
    assert BytesInBuffer(len, head, tail') == BytesInBuffer(len, head, tail) - n;
    forall k | 0 <= k < BytesInBuffer(len, head, tail')
      ensures Forward(tail', k, len) == Forward(tail, n + k, len)
    {
    }
  }
}
