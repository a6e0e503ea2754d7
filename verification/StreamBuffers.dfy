/** The stream buffer object: a byte array with a head and a tail index. */
module StreamBuffers {
  import opened Bytes
  import opened StreamRing
  import F = MessageFraming

  // What one send adds to the contents, judging by the space it saw: in stream mode as much of
  // the data as fits, in message mode the whole frame or nothing.
  function Added(data: seq<Byte>, isMessage: bool, space: nat): (r: seq<Byte>)
    ensures |r| <= space
  {
    if !isMessage then data[..Min(|data|, space)]
    else if F.Fits(|data|, space) then F.Frame(data)
    else []
  }

  // What one receive takes, judging by the number of bytes it saw.
  function Received(contents: seq<Byte>, isMessage: bool, available: nat, room: nat): (r: (seq<Byte>, nat))
    requires available <= |contents|
    ensures r.1 <= available
  {
    if isMessage then F.Receive(contents, available, room)
    else (contents[..Min(available, room)], Min(available, room))
  }

  // A send leaves the contents whole messages, with the new one behind the others or not at all.
  lemma AddedKeepsFraming(contents: seq<Byte>, messages: seq<F.Message>, data: seq<Byte>, space: nat)
    requires F.Framed(contents, messages, F.NoHeader) && F.Sendable(data)
    ensures F.Framed(contents + Added(data, true, space),
                     if F.Fits(|data|, space) then messages + [data] else messages, F.NoHeader)
  {
    if F.Fits(|data|, space) {
      F.HeaderPublished(contents, messages, |data|);
      F.DataPublished(contents + F.EncodeLength(|data|), messages, data);
      assert (contents + F.EncodeLength(|data|)) + data == contents + F.Frame(data);
    } else {
      assert contents + [] == contents;
    }
  }

  // ---- A send that waits for space ----

  function Sum(waits: seq<nat>): nat {
    if waits == [] then 0 else waits[0] + Sum(waits[1..])
  }

  lemma SumFrom(waits: seq<nat>, i: nat)
    requires i < |waits|
    ensures Sum(waits[i..]) == waits[i] + Sum(waits[i + 1..])
  {
    assert waits[i..][1..] == waits[i + 1..];
  }

  // The bytes the reader has taken when the writer stops waiting, and the space the writer then
  // works with.  `waits` holds, for each wait until the time-out, what the reader takes during it.
  function AfterWaiting(free: nat, required: nat, waits: seq<nat>): (r: (nat, nat))
    requires waits != []
    ensures r.0 <= Sum(waits) && r.1 <= free + r.0
    decreases |waits|
  {
    if required <= free then (0, free)
    else if |waits| == 1 then (waits[0], if free == 0 then waits[0] else free)
    else
      var rest := AfterWaiting(free + waits[0], required, waits[1..]);
      (waits[0] + rest.0, rest.1)
  }

  // The writer waits k times: as long as there is too little room, and no longer than it may.  If it
  // found room, it works with what there is; if its time expired, with what it saw before the last
  // wait, except that a count of 0 is looked at again.
  lemma {:induction false} WaitsUntilRoom(free: nat, required: nat, waits: seq<nat>) returns (k: nat)
    requires waits != []
    ensures k <= |waits| && forall i :: 0 <= i < k ==> free + Sum(waits[..i]) < required
    ensures var (taken, seen) := AfterWaiting(free, required, waits);
            && taken == Sum(waits[..k])
            && if k < |waits| then
                 required <= seen && seen == free + taken
               else
                 var before := free + Sum(waits[..|waits| - 1]);
                 seen == if before == 0 then free + taken else before
    decreases |waits|
  {
    hide AfterWaiting;
    WaitsStep(free, required, waits);
    k := 0;
    if free < required {
      if |waits| == 1 {
        k := 1;
        assert waits[..0] == [] && waits[..1] == [waits[0]];
      } else {
        var j := WaitsUntilRoom(free + waits[0], required, waits[1..]);
        k := j + 1;
        forall i | 0 < i <= |waits|
          ensures Sum(waits[..i]) == waits[0] + Sum(waits[1..][..i - 1])
        {
          assert waits[..i][1..] == waits[1..][..i - 1];
        }
      }
    }
  }

  lemma WaitsStep(free: nat, required: nat, waits: seq<nat>)
    requires waits != []
    ensures required <= free ==> AfterWaiting(free, required, waits) == (0, free)
    ensures free < required && |waits| == 1 ==>
              AfterWaiting(free, required, waits) == (waits[0], if free == 0 then waits[0] else free)
    ensures free < required && |waits| > 1 ==>
              var rest := AfterWaiting(free + waits[0], required, waits[1..]);
              AfterWaiting(free, required, waits) == (waits[0] + rest.0, rest.1)
  {
  }

  // The space seen is the space there is, unless the time-out expired after the last look: then
  // it is what it was before the last wait, except that a count of 0 is looked at again.  So a
  // message is refused although there is room exactly when the room came up in the last wait
  // and there was some room before it.
  lemma {:induction false} WaitingMissesOnlyLastWait(free: nat, required: nat, waits: seq<nat>)
    requires waits != [] && 0 < required
    ensures var (taken, seen) := AfterWaiting(free, required, waits);
            var before := free + Sum(waits[..|waits| - 1]);
            (seen < required <= free + taken) <==>
              (0 < before < required <= before + waits[|waits| - 1])
    decreases |waits|
  {
    if |waits| == 1 {
      assert waits[..0] == [];
    } else {
      assert waits[..|waits| - 1] == [waits[0]] + waits[1..][..|waits| - 2];
      if free < required {
        WaitingMissesOnlyLastWait(free + waits[0], required, waits[1..]);
      }
    }
  }

  // A message that needs 8 bytes is refused with a space of 4 seen, although the 4 bytes the
  // reader takes in the last wait make room for it.
  lemma MissedSpace()
    ensures AfterWaiting(4, 8, [4]) == (4, 4)
  {
  }

  // Where the waiting loop stands after i waits.
  ghost predicate WaitProgress(free: nat, required: nat, waits: seq<nat>, i: nat, taken: nat, space: nat)
    requires waits != [] && i <= |waits|
  {
    && space <= free + taken
    && if i < |waits| then
         && space == free + taken
         && AfterWaiting(free, required, waits).0 == taken + AfterWaiting(space, required, waits[i..]).0
         && AfterWaiting(free, required, waits).1 == AfterWaiting(space, required, waits[i..]).1
       else
         AfterWaiting(free, required, waits) == (taken, if space == 0 then free + taken else space)
  }

  lemma WaitOnce(free: nat, required: nat, waits: seq<nat>, i: nat, taken: nat, space: nat)
    requires waits != [] && i < |waits| && space < required
    requires WaitProgress(free, required, waits, i, taken, space)
    ensures var taken' := taken + waits[i];
            WaitProgress(free, required, waits, i + 1, taken', if i + 1 < |waits| then free + taken' else space)
  {
    assert waits[i..][1..] == waits[i + 1..];
  }

  lemma WaitOver(free: nat, required: nat, waits: seq<nat>, i: nat, taken: nat, space: nat)
    requires waits != [] && i <= |waits| && (i < |waits| ==> required <= space)
    requires WaitProgress(free, required, waits, i, taken, space)
    ensures space <= free + taken
    ensures AfterWaiting(free, required, waits) == (taken, if space == 0 then free + taken else space)
  {
  }

  lemma WaitStarts(free: nat, required: nat, waits: seq<nat>)
    requires waits != []
    ensures WaitProgress(free, required, waits, 0, 0, free)
  {
    assert waits[0..] == waits;
  }

  class StreamBuffer {
    const buffer: array<Byte>
    const isMessageBuffer: bool
    var head: nat
    var tail: nat

    ghost predicate Valid()
      reads this, buffer
    {
      head < buffer.Length && tail < buffer.Length
    }

    ghost function View(): (c: seq<Byte>)
      requires Valid()
      reads this, buffer
      ensures |c| == BytesInBuffer(buffer.Length, head, tail)
      ensures |c| + SpacesAvailable(buffer.Length, head, tail) == buffer.Length - 1
    {
      BytesAndSpace(buffer.Length, head, tail);
      Contents(buffer[..], head, tail)
    }

    constructor (size: nat, isMessage: bool)
      requires 0 < size
      ensures Valid() && View() == [] && buffer.Length == size && isMessageBuffer == isMessage
      ensures fresh(buffer)
    {
      buffer := new Byte[size];
      isMessageBuffer := isMessage;
      head, tail := 0, 0;
    }

    method BytesAvailable() returns (n: nat)
      requires Valid()
      ensures n == |View()|
    {
      n := BytesInBuffer(buffer.Length, head, tail);
    }

    method SpaceAvailable() returns (n: nat)
      requires Valid()
      ensures n == buffer.Length - 1 - |View()|
    {
      n := SpacesAvailable(buffer.Length, head, tail);
    }

    // prvWriteBytesToBuffer: up to the end of the array, then from its start.
    method WriteBytes(data: seq<Byte>)
      requires Valid() && 0 < |data| <= buffer.Length - 1 - |View()|
      modifies this`head, buffer
      ensures Valid() && View() == old(View()) + data
    {
      ghost var before := buffer[..];
      var first := Min(buffer.Length - head, |data|);
      CopyIn(buffer, head, data[..first]);
      if first < |data| {
        CopyIn(buffer, 0, data[first..]);
      }
      WrittenInPlace(before, buffer[..], head, tail, data, first);
      var nextHead := head + |data|;
      if buffer.Length <= nextHead {
        nextHead := nextHead - buffer.Length;
      }
      head := nextHead;
    }

    // The two copies of prvReadBytesFromBuffer.
    method CopyOut(count: nat) returns (data: seq<Byte>)
      requires Valid() && 0 < count <= |View()|
      ensures data == View()[..count]
    {
      var first := Min(buffer.Length - tail, count);
      data := buffer[tail..tail + first];
      if first < count {
        data := data + buffer[..count - first];
      }
    }

    // prvReadBytesFromBuffer, with the number of bytes its caller saw.
    method ReadBytes(maxCount: nat, bytesAvailable: nat) returns (data: seq<Byte>)
      requires Valid() && bytesAvailable <= |View()|
      modifies this`tail
      ensures Valid()
      ensures var n := Min(bytesAvailable, maxCount);
              data == old(View())[..n] && View() == old(View())[n..]
    {
      var count := Min(bytesAvailable, maxCount);
      data := [];
      if 0 < count {
        data := CopyOut(count);
        Consume(buffer[..], head, tail, count);
        var nextTail := tail + count;
        if buffer.Length <= nextTail {
          nextTail := nextTail - buffer.Length;
        }
        tail := nextTail;
      }
    }

    // prvWriteMessageToBuffer
    method WriteMessage(data: seq<Byte>, space: nat, requiredSpace: nat) returns (n: nat)
      requires Valid() && 0 < |data| && space <= buffer.Length - 1 - |View()|
      requires requiredSpace == if isMessageBuffer then |data| + F.HEADER else |data|
      modifies this`head, buffer
      ensures Valid() && View() == old(View()) + Added(data, isMessageBuffer, space)
      ensures n == if !isMessageBuffer then Min(|data|, space) else if requiredSpace <= space then |data| else 0
      ensures View() == old(View()) +
                          if !isMessageBuffer then data[..n] else if n == 0 then [] else F.Frame(data)
    {
      var shouldWrite, length := false, |data|;
      if space == 0 {
        shouldWrite := false;
      } else if !isMessageBuffer {
        shouldWrite, length := true, Min(|data|, space);
      } else if requiredSpace <= space {
        shouldWrite := true;
        WriteBytes(F.EncodeLength(|data|));
      }
      n := 0;
      if shouldWrite {
        WriteBytes(data[..length]);
        n := length;
      }
    }

    // xStreamBufferSend; no waits means a block time of 0.  Returns what was sent, and what the
    // reader took meanwhile.
    method Send(data: seq<Byte>, waits: seq<nat>) returns (n: nat, ghost taken: nat)
      requires Valid() && 0 < |data| && Sum(waits) <= |View()|
      modifies this, buffer
      ensures Valid()
      ensures var free := buffer.Length - 1 - |old(View())|;
              var required := if isMessageBuffer then |data| + F.HEADER else |data|;
              var (gone, seen) := if waits == [] then (0, free) else AfterWaiting(free, required, waits);
              && taken == gone
              && View() == old(View())[taken..] + Added(data, isMessageBuffer, seen)
              && n == (if !isMessageBuffer then Min(|data|, seen) else if required <= seen then |data| else 0)
              && View() == old(View())[taken..] +
                             (if !isMessageBuffer then data[..n] else if n == 0 then [] else F.Frame(data))
    {
      ghost var contents := View();
      var space, required := 0, |data|;
      if isMessageBuffer {
        required := required + F.HEADER;
      }
      taken := 0;
      if waits != [] {
        space, taken := WaitForSpace(required, waits);
      }
      if space == 0 {
        space := SpaceAvailable();
      }
      n := WriteMessage(data, space, required);
    }

    // While the writer is blocked, the reader takes n bytes.
    method LetReaderTake(n: nat, ghost contents: seq<Byte>, ghost taken: nat)
      requires Valid() && taken <= |contents| && View() == contents[taken..] && n <= |View()|
      modifies this`tail
      ensures Valid() && View() == contents[taken + n..]
    {
      var available := BytesAvailable();
      var _ := ReadBytes(n, available);
      assert contents[taken..][n..] == contents[taken + n..];
    }

    // The loop of xStreamBufferSend: look, and wait for the reader while there is too little.
    method WaitForSpace(required: nat, waits: seq<nat>) returns (space: nat, ghost taken: nat)
      requires Valid() && waits != [] && Sum(waits) <= |View()|
      modifies this`tail
      ensures Valid() && taken <= |old(View())| && View() == old(View())[taken..]
      ensures var free := buffer.Length - 1 - |old(View())|;
              && taken == AfterWaiting(free, required, waits).0
              && (if space == 0 then buffer.Length - 1 - |View()| else space) ==
                   AfterWaiting(free, required, waits).1
              && space <= buffer.Length - 1 - |View()|
    {
      hide WaitProgress, AfterWaiting, Sum;
      ghost var contents, free := View(), buffer.Length - 1 - |View()|;
      taken := 0;
      space := SpaceAvailable();
      var i: nat := 0;
      WaitStarts(free, required, waits);
      assert waits[0..] == waits;
      while i < |waits| && space < required
        invariant Valid() && i <= |waits| && taken <= |contents| && View() == contents[taken..]
        invariant taken + Sum(waits[i..]) <= |contents|
        invariant WaitProgress(free, required, waits, i, taken, space)
        decreases |waits| - i
      {
        WaitOnce(free, required, waits, i, taken, space);
        SumFrom(waits, i);
        LetReaderTake(waits[i], contents, taken);
        taken := taken + waits[i];
        i := i + 1;
        if i < |waits| {
          space := SpaceAvailable();
        }
      }
      WaitOver(free, required, waits, i, taken, space);
    }

    // prvReadMessageFromBuffer, for a caller that saw more than a bare length.
    method ReadMessage(room: nat, bytesAvailable: nat) returns (data: seq<Byte>)
      requires Valid() && bytesAvailable <= |View()|
      requires isMessageBuffer ==> F.HEADER < bytesAvailable
      modifies this`tail
      ensures Valid()
      ensures var r := Received(old(View()), isMessageBuffer, bytesAvailable, room);
              data == r.0 && View() == old(View())[r.1..]
      ensures !isMessageBuffer ==> data + View() == old(View()) && |data| == Min(bytesAvailable, room)
    {
      hide Contents, BytesInBuffer, SpacesAvailable, F.DecodeLength;
      var available, nextLength := bytesAvailable, room;
      if isMessageBuffer {
        var originalTail := tail;
        var header := ReadBytes(F.HEADER, available);
        nextLength := F.DecodeLength(header);
        available := available - F.HEADER;
        if room < nextLength {
          tail := originalTail;
          nextLength := 0;
        }
      }
      data := ReadBytes(nextLength, available);
    }

    // xStreamBufferReceive and its ISR form (which does not wait).  If there is nothing to read, a
    // reader that may wait blocks once; `arriving` is what the writer publishes meanwhile.
    method Receive(room: nat, mayWait: bool, arriving: seq<Byte>) returns (data: seq<Byte>)
      requires Valid() && |arriving| <= buffer.Length - 1 - |View()|
      modifies this, buffer
      ensures Valid()
      ensures var waited := mayWait && |old(View())| <= if isMessageBuffer then F.HEADER else 0;
              var contents := if waited then old(View()) + arriving else old(View());
              var r := Received(contents, isMessageBuffer, |contents|, room);
              && data == r.0 && View() == contents[r.1..]
              && (!isMessageBuffer ==> data + View() == contents && |data| == Min(|contents|, room))
    {
      var lengthBytes := if isMessageBuffer then F.HEADER else 0;
      var available := BytesAvailable();
      if mayWait && available <= lengthBytes {
        LetWriterAdd(arriving);
        available := BytesAvailable();
      }
      data := [];
      if lengthBytes < available {
        data := ReadMessage(room, available);
      }
    }

    // While the reader is blocked.
    method LetWriterAdd(arriving: seq<Byte>)
      requires Valid() && |arriving| <= buffer.Length - 1 - |View()|
      modifies this`head, buffer
      ensures Valid() && View() == old(View()) + arriving
    {
      if arriving != [] {
        WriteBytes(arriving);
      } else {
        assert View() + [] == View();
      }
    }

    // xStreamBufferNextMessageLengthBytes: reads the length and puts the tail back.  `asserted`
    // is whether the assertion that a short buffer is empty holds (MessageFraming.ShortIsEmpty).
    method NextMessageLength() returns (n: nat, asserted: bool)
      requires Valid()
      modifies this`tail
      ensures Valid() && View() == old(View())
      ensures asserted <==> !isMessageBuffer || F.HEADER < |View()| || View() == []
      ensures n == if isMessageBuffer && F.HEADER < |View()| then F.DecodeLength(View()[..F.HEADER]) else 0
    {
      n, asserted := 0, true;
      if isMessageBuffer {
        var available := BytesAvailable();
        if F.HEADER < available {
          var originalTail := tail;
          var header := ReadBytes(F.HEADER, available);
          n := F.DecodeLength(header);
          tail := originalTail;
        } else {
          asserted := available == 0;
        }
      }
    }
  }

  // The two copies of WriteBytes, slot by slot.
  lemma TwoCopies(before: seq<Byte>, head: nat, data: seq<Byte>, first: nat, x: nat)
    requires head < |before| && |data| < |before| && first == Min(|before| - head, |data|) && x < |before|
    ensures var once := Copied(before, head, data[..first]);
            var after := if first < |data| then Copied(once, 0, data[first..]) else once;
            after[x] == if head <= x < head + first then data[x - head]
                        else if x + first < |data| then data[first + x]
                        else before[x]
  {
  }

  // They leave the unread bytes alone and put the data behind the head.
  lemma WrittenInPlace(before: seq<Byte>, after: seq<Byte>, head: nat, tail: nat, data: seq<Byte>, first: nat)
    requires |before| == |after| && head < |before| && tail < |before|
    requires |data| <= SpacesAvailable(|before|, head, tail)
    requires first == Min(|before| - head, |data|) && Writes(before, after, head, data, first)
    ensures Contents(after, Forward(head, |data|, |after|), tail) == Contents(before, head, tail) + data
  {
    hide SpacesAvailable;
    UnreadStay(before, after, head, tail, data, first);
    WrittenBehind(before, after, head, data, first);
    Publish(after, head, tail, data);
  }

  predicate Writes(before: seq<Byte>, after: seq<Byte>, head: nat, data: seq<Byte>, first: nat)
    requires |before| == |after| && head < |before| && |data| < |before|
    requires first == Min(|before| - head, |data|)
  {
    var once := Copied(before, head, data[..first]);
    after == if first < |data| then Copied(once, 0, data[first..]) else once
  }

  lemma UnreadStay(before: seq<Byte>, after: seq<Byte>, head: nat, tail: nat, data: seq<Byte>, first: nat)
    requires |before| == |after| && head < |before| && tail < |before|
    requires |data| <= SpacesAvailable(|before|, head, tail)
    requires first == Min(|before| - head, |data|) && Writes(before, after, head, data, first)
    ensures Contents(after, head, tail) == Contents(before, head, tail)
  {
    var n := |before|;
    forall k: nat | k < BytesInBuffer(n, head, tail)
      ensures after[Forward(tail, k, n)] == before[Forward(tail, k, n)]
    {
      TwoCopies(before, head, data, first, Forward(tail, k, n));
    }
  }

  lemma WrittenBehind(before: seq<Byte>, after: seq<Byte>, head: nat, data: seq<Byte>, first: nat)
    requires |before| == |after| && head < |before| && |data| < |before|
    requires first == Min(|before| - head, |data|) && Writes(before, after, head, data, first)
    ensures forall i: nat :: i < |data| ==> after[Forward(head, i, |after|)] == data[i]
  {
    forall i: nat | i < |data|
      ensures after[Forward(head, i, |after|)] == data[i]
    {
      TwoCopies(before, head, data, first, Forward(head, i, |after|));
    }
  }
}
