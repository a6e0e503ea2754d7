/** Bytes, and copying them into a buffer. */
module Bytes {

  type Byte = b: nat | b < 256

  // The buffer after memcpy of `item` to offset `at`.
  function Copied(data: seq<Byte>, at: nat, item: seq<Byte>): (r: seq<Byte>)
    requires at + |item| <= |data|
    ensures |r| == |data|
    ensures forall k :: 0 <= k < |r| ==> r[k] == if at <= k < at + |item| then item[k - at] else data[k]
  {
    data[..at] + item + data[at + |item|..]
  }

  method CopyIn(buffer: array<Byte>, at: nat, item: seq<Byte>)
    requires at + |item| <= buffer.Length
    modifies buffer
    ensures buffer[..] == Copied(old(buffer[..]), at, item)
  {
    forall k | 0 <= k < |item| {
      buffer[at + k] := item[k];
    }
  }
}
