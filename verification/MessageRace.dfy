/** Message buffers at the level of bytes and indices: the race of StreamRace carries the messages of
    MessageFraming.  And what a writer may do that looks while the tail is only briefly moved.
 */
module MessageRace {
  import opened Bytes
  import opened StreamRing
  import R = StreamRace
  import F = MessageFraming

  // Where the reader is in a message: it takes the length and then the data.
  datatype Phase =
    | Between
    | InLength
    | HasLength(n: nat)
    | InData(n: nat)

  // `seen` is what had been accepted when the reader looked last: whole messages, and perhaps a
  // bare length.
  datatype State = State(
    s: R.State,
    sent: seq<F.Message>,
    delivered: seq<F.Message>,
    phase: Phase,
    seen: seq<Byte>,
    seenSent: seq<F.Message>,
    seenPending: F.Pending)

  // A message is written as its length and its data; the reader's buffer is large enough.
  predicate Enabled(w: State, step: R.Step) {
    && R.Enabled(w.s, step) && R.CountsOk(w.s)
    && match step
       case BeginWrite(chunks) =>
         |chunks| == 2 && F.Sendable(chunks[1]) && chunks[0] == F.EncodeLength(|chunks[1]|)
       case BeginRead => w.phase == Between
       case Choose(want) =>
         || (w.phase == Between && want == F.HEADER && F.HEADER < w.s.reader.budget)
         || (w.phase.HasLength? && want == Min(w.phase.n, w.s.reader.budget))
       case EndRead => w.phase == Between
       case _ => true
  }

  function Pending(w: State): F.Pending {
    if w.s.writer.Writing? && |w.s.writer.chunks| == 1 then F.Header(|w.s.writer.chunks[0]|) else F.NoHeader
  }

  function Apply(w: State, step: R.Step): State
    requires Enabled(w, step)
  {
    var w1 := w.(s := R.Apply(w.s, step));
    match step
    case PublishHead =>
      if |w.s.writer.chunks| == 1 then w1.(sent := w.sent + [w.s.writer.chunks[0]]) else w1
    case BeginRead => w1.(seen := w.s.accepted, seenSent := w.sent, seenPending := Pending(w))
    case Choose(_) => w1.(phase := if w.phase.HasLength? then InData(w.phase.n) else InLength)
    case PublishTail =>
      if w.phase.InData? then w1.(phase := Between, delivered := w.delivered + [w.s.reader.got])
      else if |w.s.reader.got| == F.HEADER then w1.(phase := HasLength(F.DecodeLength(w.s.reader.got)))
      else w1
    case _ => w1
  }

  // ---- The invariant ----

  ghost predicate WriterFramed(w: State) {
    && F.Framed(w.s.accepted, w.sent, Pending(w))
    && (w.s.writer.Writing? ==>
          || (|w.s.writer.chunks| == 1 && F.Sendable(w.s.writer.chunks[0]))
          || (|w.s.writer.chunks| == 2 && F.Sendable(w.s.writer.chunks[1]) &&
              w.s.writer.chunks[0] == F.EncodeLength(|w.s.writer.chunks[1]|)))
  }

  // The bytes taken are whole messages, and a length if the reader is inside one.
  ghost predicate TakenFramed(w: State) {
    w.s.received ==
      F.Stream(w.delivered) + if w.phase.HasLength? || w.phase.InData? then F.EncodeLength(w.phase.n) else []
  }

  // What the reader saw is a prefix of what is accepted, and its count covers it exactly.
  ghost predicate SeenFramed(w: State) {
    && w.seen <= w.s.accepted && w.seenSent <= w.sent && w.delivered <= w.seenSent
    && F.Framed(w.seen, w.seenSent, w.seenPending)
    && !w.s.reader.ReaderIdle? && |w.s.received| + w.s.reader.budget == |w.seen|
    && (w.phase.HasLength? || w.phase.InData? ==>
          |w.delivered| < |w.seenSent| && w.phase.n == |w.seenSent[|w.delivered|]|)
  }

  ghost predicate PhaseOk(w: State) {
    match w.phase
    case Between => w.s.reader.ReaderChooses?
    case InLength => w.s.reader.Reading? && w.s.reader.want == F.HEADER < w.s.reader.budget
    case HasLength(_) => w.s.reader.ReaderChooses?
    case InData(n) => w.s.reader.Reading? && w.s.reader.want == Min(n, w.s.reader.budget)
  }

  ghost predicate Inv(w: State) {
    && R.Inv(w.s) && WriterFramed(w) && TakenFramed(w) && w.delivered <= w.sent
    && if w.s.reader.ReaderIdle? then w.phase == Between else SeenFramed(w) && PhaseOk(w)
  }

  // ---- Steps of the writer ----

  lemma PublishHeadKeeps(w: State)
    requires Inv(w) && Enabled(w, R.PublishHead)
    ensures WriterFramed(Apply(w, R.PublishHead))
  {
    var chunks := w.s.writer.chunks;
    if |chunks| == 2 {
      F.HeaderPublished(w.s.accepted, w.sent, |chunks[1]|);
    } else {
      F.DataPublished(w.s.accepted, w.sent, chunks[0]);
    }
  }

  lemma WriterStepKeeps(w: State, step: R.Step)
    requires Inv(w) && Enabled(w, step) && (step.BeginWrite? || step.CopyByteIn? || step.PublishHead?)
    ensures Inv(Apply(w, step))
  {
    hide R.Inv, F.Framed, F.Stream, F.EncodeLength, R.CountsOk;
    R.StepKeeps(w.s, step);
    if step.PublishHead? {
      PublishHeadKeeps(w);
    }
  }

  // ---- Steps of the reader ----

  // What is unread of the bytes seen is again whole messages.
  lemma RestIsFramed(w: State)
    requires TakenFramed(w) && SeenFramed(w) && (w.phase == Between || w.phase == InLength)
    ensures w.s.received <= w.seen
    ensures F.Framed(w.seen[|w.s.received|..], w.seenSent[|w.delivered|..], w.seenPending)
  {
    hide F.EncodeLength;
    var k := |w.delivered|;
    assert w.seenSent == w.delivered + w.seenSent[k..];
    F.StreamConcat(w.delivered, w.seenSent[k..]);
    assert w.seen == w.s.received + (F.Stream(w.seenSent[k..]) + F.PendingBytes(w.seenPending));
  }

  // The bytes copied out continue the bytes received, within what was seen.
  lemma GotFromSeen(w: State)
    requires R.Inv(w.s) && SeenFramed(w) && w.s.reader.Reading? && |w.s.reader.got| == w.s.reader.want
    requires w.s.reader.want <= w.s.reader.budget && w.s.received <= w.seen
    ensures w.s.reader.got == w.seen[|w.s.received|..][..w.s.reader.want]
  {
    hide F.Framed, F.Stream;
    var n, contents := |w.s.received|, Contents(w.s.buffer, w.s.head, w.s.tail);
    assert w.s.accepted == w.s.received + contents;
    assert w.s.reader.got == contents[..w.s.reader.want];
    assert w.seen[n..] <= contents by {
      assert w.seen == w.s.accepted[..|w.seen|];
    }
  }

  lemma LengthTaken(w: State)
    requires Inv(w) && Enabled(w, R.PublishTail) && w.phase == InLength
    ensures Inv(Apply(w, R.PublishTail))
  {
    hide R.Inv, F.Framed, F.Stream, F.EncodeLength, F.DecodeLength, R.CountsOk;
    R.StepKeeps(w.s, R.PublishTail);
    RestIsFramed(w);
    GotFromSeen(w);
    ReaderCounts(w);
    F.WholeMessageFirst(w.seen[|w.s.received|..], w.seenSent[|w.delivered|..], w.seenPending);
    F.LengthRoundTrip(|w.seenSent[|w.delivered|]|);
  }

  lemma ReaderCounts(w: State)
    requires R.Inv(w.s)
    ensures w.s.reader.Reading? ==> |w.s.reader.got| <= w.s.reader.want <= w.s.reader.budget
  {
  }

  // The stream around one message.
  lemma AroundMessage(before: seq<F.Message>, m: F.Message, later: seq<F.Message>)
    ensures F.Stream(before + [m]) == F.Stream(before) + F.EncodeLength(|m|) + m
    ensures F.Stream(before + [m] + later) == F.Stream(before) + F.EncodeLength(|m|) + m + F.Stream(later)
  {
    hide F.EncodeLength;
    F.StreamConcat(before + [m], later);
    F.StreamConcat(before, [m]);
    assert F.Stream([m]) == F.Frame(m) + [];
    assert F.Stream(before) + F.Frame(m) == F.Stream(before) + F.EncodeLength(|m|) + m;
  }

  lemma NextPart(before: seq<Byte>, m: seq<Byte>, later: seq<Byte>)
    ensures (before + m + later)[|before|..][..|m|] == m
  {
  }

  // After the length, the bytes seen continue with the data of the next message.
  lemma DataFollows(w: State)
    requires TakenFramed(w) && SeenFramed(w) && (w.phase.HasLength? || w.phase.InData?)
    ensures w.s.received <= w.seen && w.phase.n <= w.s.reader.budget
    ensures w.seen[|w.s.received|..][..w.phase.n] == w.seenSent[|w.delivered|]
    ensures F.Stream(w.delivered + [w.seenSent[|w.delivered|]]) == w.s.received + w.seenSent[|w.delivered|]
  {
    hide F.EncodeLength, F.Stream, F.PendingBytes;
    var k := |w.delivered|;
    var m, later := w.seenSent[k], w.seenSent[k + 1..];
    assert w.seenSent == w.delivered + [m] + later;
    AroundMessage(w.delivered, m, later);
    var rest := F.Stream(later) + F.PendingBytes(w.seenPending);
    assert w.seen == w.s.received + m + rest;
    NextPart(w.s.received, m, rest);
  }

  lemma DataTaken(w: State)
    requires Inv(w) && Enabled(w, R.PublishTail) && w.phase.InData?
    ensures Inv(Apply(w, R.PublishTail))
    ensures Apply(w, R.PublishTail).delivered == w.delivered + [w.seenSent[|w.delivered|]]
  {
    hide R.Inv, F.Framed, F.Stream, F.EncodeLength, R.CountsOk;
    R.StepKeeps(w.s, R.PublishTail);
    DataFollows(w);
    ReaderCounts(w);
    GotFromSeen(w);
  }

  lemma ReaderStepKeeps(w: State, step: R.Step)
    requires Inv(w) && Enabled(w, step)
    requires step.BeginRead? || step.Choose? || step.CopyByteOut? || step.EndRead?
    ensures Inv(Apply(w, step))
  {
    hide R.Inv, F.Framed, F.Stream, F.EncodeLength, R.CountsOk;
    R.StepKeeps(w.s, step);
    if step.BeginRead? {
      LookCounts(w);
    }
  }

  lemma LookCounts(w: State)
    requires R.Inv(w.s)
    ensures |w.s.received| + R.Unread(w.s) == |w.s.accepted|
  {
  }

  lemma StepKeeps(w: State, step: R.Step)
    requires Inv(w) && Enabled(w, step)
    ensures Inv(Apply(w, step))
  {
    hide Inv, Enabled, Apply;
    match step
    case BeginWrite(_) => WriterStepKeeps(w, step);
    case CopyByteIn => WriterStepKeeps(w, step);
    case PublishHead => WriterStepKeeps(w, step);
    case PublishTail => PublishTailKeeps(w);
    case _ => ReaderStepKeeps(w, step);
  }

  lemma PublishTailKeeps(w: State)
    requires Inv(w) && Enabled(w, R.PublishTail)
    ensures Inv(Apply(w, R.PublishTail))
  {
    hide R.Inv, F.Framed, F.Stream, F.EncodeLength, R.CountsOk, Apply;
    if w.phase.InData? {
      DataTaken(w);
    } else {
      LengthTaken(w);
    }
  }

  // ---- The start, and what is unread ----

  function Fresh(buffer: seq<Byte>): State {
    State(R.Fresh(buffer), [], [], Between, [], [], F.NoHeader)
  }

  lemma FreshOk(buffer: seq<Byte>)
    requires buffer != []
    ensures Inv(Fresh(buffer))
  {
    assert Contents(buffer, 0, 0) == [];
  }

  lemma UnreadIsFramed(w: State)
    requires Inv(w) && (w.phase == Between || w.phase == InLength)
    ensures F.Framed(Contents(w.s.buffer, w.s.head, w.s.tail), w.sent[|w.delivered|..], Pending(w))
    ensures Pending(w).Header? ==> 0 < Pending(w).length < F.LENGTH_LIMIT
  {
    hide F.EncodeLength, SeenFramed, PhaseOk, R.CopiedIn, R.CopiedOut;
    var k := |w.delivered|;
    assert w.sent == w.delivered + w.sent[k..];
    F.StreamConcat(w.delivered, w.sent[k..]);
    var contents := Contents(w.s.buffer, w.s.head, w.s.tail);
    assert w.s.received + contents ==
           w.s.received + (F.Stream(w.sent[k..]) + F.PendingBytes(Pending(w)));
    assert contents == (w.s.received + contents)[|w.s.received|..];
  }

  // ---- The tail that is put back ----

  // A receive with too little room, and a call that asks for the next length, take the length and
  // then put the tail back.  A writer that looks in between sees HEADER bytes too much space.
  lemma SpaceDuringRollback(length: nat, head: nat, tail: nat)
    requires head < length && tail < length && F.HEADER <= BytesInBuffer(length, head, tail)
    ensures SpacesAvailable(length, head, Forward(tail, F.HEADER, length)) ==
              SpacesAvailable(length, head, tail) + F.HEADER
  {
  }

  // Writing n bytes on the strength of that count overwrites the length that was put back if and
  // only if n exceeds the true space by more than one; and the unread bytes are counted rightly
  // afterwards if and only if n does not exceed the true space.
  lemma RollbackOverwrites(length: nat, head: nat, tail: nat, n: nat)
    requires head < length && tail < length && F.HEADER <= BytesInBuffer(length, head, tail)
    requires n <= SpacesAvailable(length, head, Forward(tail, F.HEADER, length))
    ensures (exists i: nat, k: nat :: i < n && k < F.HEADER && SameSlot(length, head, i, tail, k)) <==>
              SpacesAvailable(length, head, tail) + 1 < n
    ensures BytesInBuffer(length, Forward(head, n, length), tail) == BytesInBuffer(length, head, tail) + n <==>
              n <= SpacesAvailable(length, head, tail)
  {
    SpaceDuringRollback(length, head, tail);
    var space := SpacesAvailable(length, head, tail);
    if space + 1 < n {
      assert SameSlot(length, head, space + 1, tail, 0);
    }
  }

  predicate SameSlot(length: nat, head: nat, i: nat, tail: nat, k: nat)
    requires head < length && tail < length
  {
    i <= length && k <= length && Forward(head, i, length) == Forward(tail, k, length)
  }

  // So a message is wrongly accepted during the rollback exactly if its frame exceeds the true space
  // by at most the size of a length.
  lemma AcceptedDuringRollback(length: nat, head: nat, tail: nat, d: nat)
    requires head < length && tail < length && F.HEADER <= BytesInBuffer(length, head, tail) && 0 < d
    ensures var (space, seen) := (SpacesAvailable(length, head, tail),
                                  SpacesAvailable(length, head, Forward(tail, F.HEADER, length)));
            F.Fits(d, seen) && !F.Fits(d, space) <==> space < d + F.HEADER <= space + F.HEADER
  {
    SpaceDuringRollback(length, head, tail);
  }

  // A buffer of 16 bytes of which 12 are unread: a message of 3 bytes does not fit, is accepted during
  // the rollback, and its frame overwrites three of the four bytes of the length put back.
  lemma RollbackExample()
    ensures SpacesAvailable(16, 12, 0) == 3 && SpacesAvailable(16, 12, Forward(0, F.HEADER, 16)) == 7
    ensures !F.Fits(3, 3) && F.Fits(3, 7)
    ensures SameSlot(16, 12, 4, 0, 0) && SameSlot(16, 12, 5, 0, 1) && SameSlot(16, 12, 6, 0, 2)
    ensures BytesInBuffer(16, Forward(12, 7, 16), 0) == 3
  {
  }
}
