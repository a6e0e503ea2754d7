/** One writer and one reader on a stream buffer, interleaved byte by byte.

    The writer looks at the free space once, copies one or two chunks (a message is a length and
    then its data), and publishes the head after each.  The reader looks at the number of unread
    bytes once, copies out what it wants, and publishes the tail.  Neither looks again, so both
    work on counts that may be stale by then.
 */
module StreamRace {
  import opened Bytes
  import opened StreamRing

  datatype Writer = WriterIdle | Writing(chunks: seq<seq<Byte>>, done: nat)

  // `budget` is what is left of the number of unread bytes the reader saw.
  datatype Reader = ReaderIdle | ReaderChooses(budget: nat) | Reading(want: nat, got: seq<Byte>, budget: nat)

  // accepted: all bytes published by the writer so far; received: all bytes the reader took over
  // and gave back the room of.
  datatype State = State(
    buffer: seq<Byte>,
    head: nat,
    tail: nat,
    writer: Writer,
    reader: Reader,
    accepted: seq<Byte>,
    received: seq<Byte>)

  datatype Step =
    | BeginWrite(chunks: seq<seq<Byte>>)
    | CopyByteIn
    | PublishHead
    | BeginRead
    | Choose(want: nat)
    | CopyByteOut
    | PublishTail
    | EndRead

  function Total(chunks: seq<seq<Byte>>): nat {
    if chunks == [] then 0 else |chunks[0]| + Total(chunks[1..])
  }

  predicate IndicesOk(s: State) {
    s.head < |s.buffer| && s.tail < |s.buffer|
  }

  function Unread(s: State): nat
    requires IndicesOk(s)
  {
    BytesInBuffer(|s.buffer|, s.head, s.tail)
  }

  function Space(s: State): nat
    requires IndicesOk(s)
  {
    SpacesAvailable(|s.buffer|, s.head, s.tail)
  }

  // The slot the writer is about to fill, and the slot the reader is about to look at.
  function WriteSlot(s: State): nat
    requires IndicesOk(s) && s.writer.Writing? && s.writer.done <= |s.buffer|
  {
    Forward(s.head, s.writer.done, |s.buffer|)
  }

  function ReadSlot(s: State): nat
    requires IndicesOk(s) && s.reader.Reading? && |s.reader.got| <= |s.buffer|
  {
    Forward(s.tail, |s.reader.got|, |s.buffer|)
  }

  // What the code checks before it starts: the space for a write, the bytes for a read.
  predicate Enabled(s: State, step: Step) {
    && IndicesOk(s)
    && match step
       case BeginWrite(chunks) => s.writer.WriterIdle? && chunks != [] && Total(chunks) <= Space(s)
       case CopyByteIn =>
         s.writer.Writing? && s.writer.chunks != [] && s.writer.done < |s.writer.chunks[0]|
       case PublishHead =>
         s.writer.Writing? && s.writer.chunks != [] && s.writer.done == |s.writer.chunks[0]|
       case BeginRead => s.reader.ReaderIdle?
       case Choose(want) => s.reader.ReaderChooses? && want <= s.reader.budget
       case CopyByteOut => s.reader.Reading? && |s.reader.got| < s.reader.want
       case PublishTail => s.reader.Reading? && |s.reader.got| == s.reader.want
       case EndRead => s.reader.ReaderChooses?
  }

  // The counts the two sides work with fit the buffer (part of the invariant).
  predicate CountsOk(s: State) {
    && IndicesOk(s)
    && (s.writer.Writing? ==>
          && Total(s.writer.chunks) <= Space(s)
          && s.writer.done <= (if s.writer.chunks == [] then 0 else |s.writer.chunks[0]|))
    && (s.reader.ReaderChooses? ==> s.reader.budget <= Unread(s))
    && (s.reader.Reading? ==> |s.reader.got| <= s.reader.want <= s.reader.budget <= Unread(s))
  }

  function Apply(s: State, step: Step): State
    requires Enabled(s, step) && CountsOk(s)
  {
    match step
    case BeginWrite(chunks) => s.(writer := Writing(chunks, 0))
    case CopyByteIn =>
      s.(buffer := s.buffer[WriteSlot(s) := s.writer.chunks[0][s.writer.done]],
         writer := s.writer.(done := s.writer.done + 1))
    case PublishHead =>
      s.(head := WriteSlot(s),
         accepted := s.accepted + s.writer.chunks[0],
         writer := if |s.writer.chunks| == 1 then WriterIdle else Writing(s.writer.chunks[1..], 0))
    case BeginRead => s.(reader := ReaderChooses(Unread(s)))
    case Choose(want) => s.(reader := Reading(want, [], s.reader.budget))
    case CopyByteOut =>
      s.(reader := s.reader.(got := s.reader.got + [s.buffer[ReadSlot(s)]]))
    case PublishTail =>
      s.(tail := ReadSlot(s),
         received := s.received + s.reader.got,
         reader := ReaderChooses(s.reader.budget - s.reader.want))
    case EndRead => s.(reader := ReaderIdle)
  }

  // ---- The invariant ----

  // Everything published is either received or still unread, in order.
  predicate Conserved(s: State)
    requires IndicesOk(s)
  {
    s.received + Contents(s.buffer, s.head, s.tail) == s.accepted
  }

  // The copied part of the current chunk is in place behind the head.
  ghost predicate CopiedIn(s: State)
    requires CountsOk(s)
  {
    s.writer.Writing? ==>
      forall i :: 0 <= i < s.writer.done ==>
        s.buffer[Forward(s.head, i, |s.buffer|)] == s.writer.chunks[0][i]
  }

  // What the reader has copied so far is the oldest unread part.
  predicate CopiedOut(s: State)
    requires CountsOk(s)
  {
    s.reader.Reading? ==> s.reader.got <= Contents(s.buffer, s.head, s.tail)
  }

  ghost predicate Inv(s: State) {
    CountsOk(s) && Conserved(s) && CopiedIn(s) && CopiedOut(s)
  }

  lemma ChunkFits(s: State)
    requires CountsOk(s) && s.writer.Writing? && s.writer.chunks != []
    ensures |s.writer.chunks[0]| <= Space(s)
  {
  }

  // The writer never overwrites an unread byte, in particular none the reader is reading.
  lemma WriterHitsNoUnreadByte(s: State, k: nat)
    requires Inv(s) && Enabled(s, CopyByteIn) && k < Unread(s)
    ensures WriteSlot(s) != Forward(s.tail, k, |s.buffer|)
    ensures Contents(Apply(s, CopyByteIn).buffer, s.head, s.tail) == Contents(s.buffer, s.head, s.tail)
  {
    ChunkFits(s);
    forall j: nat | j < Unread(s)
      ensures WriteSlot(s) != Forward(s.tail, j, |s.buffer|)
    {
      FreeSlot(|s.buffer|, s.head, s.tail, s.writer.done, j);
    }
  }

  // The reader never returns a byte that was not written and published: the byte it copies next
  // is the next accepted one.
  lemma ReaderSeesPublishedByte(s: State)
    requires Inv(s) && Enabled(s, CopyByteOut)
    ensures var i := |s.received| + |s.reader.got|;
            i < |s.accepted| && s.buffer[ReadSlot(s)] == s.accepted[i]
  {
  }

  lemma CopyByteInKeeps(s: State)
    requires Inv(s) && Enabled(s, CopyByteIn)
    ensures Inv(Apply(s, CopyByteIn))
  {
    ChunkFits(s);
    var s' := Apply(s, CopyByteIn);
    if 0 < Unread(s) {
      WriterHitsNoUnreadByte(s, 0);
    }
    assert Contents(s'.buffer, s.head, s.tail) == Contents(s.buffer, s.head, s.tail);
    forall i | 0 <= i < s'.writer.done
      ensures s'.buffer[Forward(s.head, i, |s.buffer|)] == s'.writer.chunks[0][i]
    {
      if i < s.writer.done {
        SlotsDiffer(|s.buffer|, s.head, i, s.writer.done);
      }
    }
  }

  lemma PublishHeadCounts(s: State)
    requires Inv(s) && Enabled(s, PublishHead)
    ensures CountsOk(Apply(s, PublishHead))
  {
    hide Contents;
    ChunkFits(s);
    BytesAndSpace(|s.buffer|, s.head, s.tail);
    BytesAndSpace(|s.buffer|, WriteSlot(s), s.tail);
  }

  lemma PublishHeadKeeps(s: State)
    requires Inv(s) && Enabled(s, PublishHead)
    ensures Inv(Apply(s, PublishHead))
  {
    hide Contents, BytesInBuffer, SpacesAvailable, Forward;
    ChunkFits(s);
    PublishHeadCounts(s);
    var chunk, contents := s.writer.chunks[0], Contents(s.buffer, s.head, s.tail);
    Publish(s.buffer, s.head, s.tail, chunk);
    assert s.received + (contents + chunk) == (s.received + contents) + chunk;
  }

  lemma CopyByteOutKeeps(s: State)
    requires Inv(s) && Enabled(s, CopyByteOut)
    ensures Inv(Apply(s, CopyByteOut))
  {
  }

  lemma PublishTailCounts(s: State)
    requires Inv(s) && Enabled(s, PublishTail)
    ensures CountsOk(Apply(s, PublishTail))
  {
    hide Contents;
    Consume(s.buffer, s.head, s.tail, s.reader.want);
    BytesAndSpace(|s.buffer|, s.head, s.tail);
    BytesAndSpace(|s.buffer|, s.head, ReadSlot(s));
  }

  lemma PublishTailKeeps(s: State)
    requires Inv(s) && Enabled(s, PublishTail)
    ensures Inv(Apply(s, PublishTail))
  {
    hide Contents, BytesInBuffer, SpacesAvailable, Forward;
    PublishTailCounts(s);
    var contents := Contents(s.buffer, s.head, s.tail);
    Consume(s.buffer, s.head, s.tail, s.reader.want);
    assert contents == s.reader.got + contents[s.reader.want..];
    assert s.received + contents == (s.received + s.reader.got) + contents[s.reader.want..];
  }

  lemma StepKeeps(s: State, step: Step)
    requires Inv(s) && Enabled(s, step)
    ensures Inv(Apply(s, step))
  {
    match step
    case CopyByteIn => CopyByteInKeeps(s);
    case PublishHead => PublishHeadKeeps(s);
    case CopyByteOut => CopyByteOutKeeps(s);
    case PublishTail => PublishTailKeeps(s);
    case _ =>
  }

  // ---- Runs ----

  ghost predicate Feasible(s: State, run: seq<Step>)
    decreases |run|
  {
    run == [] || (Enabled(s, run[0]) && CountsOk(s) && Feasible(Apply(s, run[0]), run[1..]))
  }

  ghost function Exec(s: State, run: seq<Step>): State
    requires Feasible(s, run)
    decreases |run|
  {
    if run == [] then s else Exec(Apply(s, run[0]), run[1..])
  }

  lemma {:induction false} RunKeeps(s: State, run: seq<Step>)
    requires Inv(s) && Feasible(s, run)
    ensures Inv(Exec(s, run)) && |Exec(s, run).buffer| == |s.buffer|
    decreases |run|
  {
    if run != [] {
      StepKeeps(s, run[0]);
      RunKeeps(Apply(s, run[0]), run[1..]);
    }
  }

  function Fresh(buffer: seq<Byte>): State {
    State(buffer, 0, 0, WriterIdle, ReaderIdle, [], [])
  }

  // Over every interleaving: the bytes received, followed by the bytes unread, are the bytes
  // accepted; what the reader holds continues what it has received; and room is never lost.
  lemma StreamIsFaithful(buffer: seq<Byte>, run: seq<Step>)
    requires buffer != [] && Feasible(Fresh(buffer), run)
    ensures var s := Exec(Fresh(buffer), run);
            && IndicesOk(s)
            && s.received + Contents(s.buffer, s.head, s.tail) == s.accepted
            && (s.reader.Reading? ==> s.received + s.reader.got <= s.accepted)
            && Unread(s) + Space(s) == |buffer| - 1
  {
    assert Contents(buffer, 0, 0) == [];
    RunKeeps(Fresh(buffer), run);
    var s := Exec(Fresh(buffer), run);
    BytesAndSpace(|s.buffer|, s.head, s.tail);
  }
}
