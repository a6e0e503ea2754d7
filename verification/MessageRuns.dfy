/** Whole runs of a message buffer at the level of bytes and indices, with receives that are refused:
    the tail that such a receive has moved over the length is put back.
 */
module MessageRuns {
  import opened Bytes
  import opened StreamRing
  import R = StreamRace
  import F = MessageFraming
  import M = MessageRace

  // `original` is the tail before the reader took a length.  `clean` says that every write begun
  // since would also have fitted the buffer with that tail.
  datatype State = State(w: M.State, original: nat, clean: bool)

  // PutBack ends a receive whose buffer is too small, and a call that asks for the next length.
  datatype Step = Ordinary(step: R.Step) | PutBack

  predicate FitsOriginal(v: State, chunks: seq<seq<Byte>>) {
    && v.original < |v.w.s.buffer| && v.w.s.head < |v.w.s.buffer|
    && R.Total(chunks) <= SpacesAvailable(|v.w.s.buffer|, v.w.s.head, v.original)
  }

  predicate Enabled(v: State, step: Step) {
    match step
    case Ordinary(s) => M.Enabled(v.w, s)
    case PutBack => v.w.phase.HasLength? && v.clean
  }

  function Dropped(s: seq<Byte>, n: nat): seq<Byte> {
    if n <= |s| then s[..|s| - n] else []
  }

  function WithTailBack(v: State): R.State {
    v.w.s.(tail := v.original, received := Dropped(v.w.s.received, F.HEADER), reader := R.ReaderIdle)
  }

  function Apply(v: State, step: Step): State
    requires Enabled(v, step)
  {
    match step
    case PutBack => v.(w := v.w.(s := WithTailBack(v), phase := M.Between))
    case Ordinary(s) =>
      var w1 := M.Apply(v.w, s);
      match s
      case PublishTail => if w1.phase.HasLength? then State(w1, v.w.s.tail, true) else v.(w := w1)
      case BeginWrite(chunks) => v.(w := w1, clean := v.clean && FitsOriginal(v, chunks))
      case _ => v.(w := w1)
  }

  // As long as it is clean, the buffer is also in order with the tail put back.
  ghost predicate Inv(v: State) {
    M.Inv(v.w) && (v.w.phase.HasLength? && v.clean ==> R.Inv(WithTailBack(v)))
  }

  // ---- Steps ----

  // The writer does not notice where the tail is.
  lemma WriterStepKeeps(v: State, step: R.Step)
    requires Inv(v) && M.Enabled(v.w, step) && (step.BeginWrite? || step.CopyByteIn? || step.PublishHead?)
    ensures Inv(Apply(v, Ordinary(step)))
  {
    hide M.Inv, R.Inv, F.EncodeLength;
    M.StepKeeps(v.w, step);
    var v1 := Apply(v, Ordinary(step));
    if v1.w.phase.HasLength? && v1.clean {
      WriterCommutes(v, step);
      R.StepKeeps(WithTailBack(v), step);
    }
  }

  lemma WriterCommutes(v: State, step: R.Step)
    requires M.Enabled(v.w, step) && (step.BeginWrite? || step.CopyByteIn? || step.PublishHead?)
    requires R.Inv(WithTailBack(v)) && Apply(v, Ordinary(step)).clean
    ensures R.Enabled(WithTailBack(v), step) && R.CountsOk(WithTailBack(v))
    ensures R.Apply(WithTailBack(v), step) == WithTailBack(Apply(v, Ordinary(step)))
  {
    hide F.EncodeLength, R.Conserved, R.CopiedIn, Forward, SpacesAvailable, BytesInBuffer;
  }

  lemma ReaderStepKeeps(v: State, step: R.Step)
    requires Inv(v) && M.Enabled(v.w, step) && !step.BeginWrite? && !step.CopyByteIn? && !step.PublishHead?
    ensures Inv(Apply(v, Ordinary(step)))
  {
    hide R.Inv, F.EncodeLength, F.DecodeLength, M.WriterFramed, M.TakenFramed, M.SeenFramed;
    M.StepKeeps(v.w, step);
    if step.PublishTail? && v.w.phase == M.InLength {
      LengthCanGoBack(v);
    }
  }

  // Putting the tail back right after the length was taken restores the state before.
  lemma LengthCanGoBack(v: State)
    requires Inv(v) && M.Enabled(v.w, R.PublishTail) && v.w.phase == M.InLength
    ensures R.Inv(WithTailBack(Apply(v, Ordinary(R.PublishTail))))
  {
    hide F.EncodeLength, F.DecodeLength, F.Framed, F.Stream;
    var got := v.w.s.reader.got;
    assert Dropped(v.w.s.received + got, F.HEADER) == v.w.s.received;
    assert WithTailBack(Apply(v, Ordinary(R.PublishTail))) == v.w.s.(reader := R.ReaderIdle);
  }

  lemma PutBackKeeps(v: State)
    requires Inv(v) && Enabled(v, PutBack)
    ensures Inv(Apply(v, PutBack))
  {
    hide R.Inv, F.EncodeLength, F.DecodeLength, F.Framed, F.Stream;
    var length := F.EncodeLength(v.w.phase.n);
    assert Dropped(F.Stream(v.w.delivered) + length, F.HEADER) == F.Stream(v.w.delivered) + [];
  }

  lemma StepKeeps(v: State, step: Step)
    requires Inv(v) && Enabled(v, step)
    ensures Inv(Apply(v, step))
  {
    hide Inv, M.Enabled, Apply;
    match step
    case PutBack => PutBackKeeps(v);
    case Ordinary(s) =>
      if s.BeginWrite? || s.CopyByteIn? || s.PublishHead? {
        WriterStepKeeps(v, s);
      } else {
        ReaderStepKeeps(v, s);
      }
  }

  // And that is needed: after a write has begun, the buffer is in order with the tail put back if and
  // only if the write also fits with that tail.
  lemma WriteDuringRefusal(v: State, chunks: seq<seq<Byte>>)
    requires Inv(v) && v.w.phase.HasLength? && v.clean && M.Enabled(v.w, R.BeginWrite(chunks))
    ensures R.Inv(WithTailBack(Apply(v, Ordinary(R.BeginWrite(chunks))))) <==> FitsOriginal(v, chunks)
  {
    hide M.Inv, F.EncodeLength;
  }

  // ---- Runs ----

  ghost predicate Feasible(v: State, run: seq<Step>)
    decreases |run|
  {
    run == [] || (Enabled(v, run[0]) && Feasible(Apply(v, run[0]), run[1..]))
  }

  ghost function Exec(v: State, run: seq<Step>): State
    requires Feasible(v, run)
    decreases |run|
  {
    if run == [] then v else Exec(Apply(v, run[0]), run[1..])
  }

  lemma {:induction false} RunKeeps(v: State, run: seq<Step>)
    requires Inv(v) && Feasible(v, run)
    ensures Inv(Exec(v, run))
    decreases |run|
  {
    hide Inv, Enabled, Apply;
    if run != [] {
      StepKeeps(v, run[0]);
      RunKeeps(Apply(v, run[0]), run[1..]);
    }
  }

  function Fresh(buffer: seq<Byte>): State {
    State(M.Fresh(buffer), 0, false)
  }

  // Over every interleaving of byte copies and index updates, with a receive refused at any time
  // unless a write has begun since it took the length that does not fit without the room of the
  // length: the messages delivered are the first messages sent; and between two messages, parsing
  // the unread bytes gives exactly the others.
  lemma MessagesSurviveTheRace(buffer: seq<Byte>, run: seq<Step>)
    requires buffer != [] && Feasible(Fresh(buffer), run)
    ensures var w := Exec(Fresh(buffer), run).w;
            && w.delivered <= w.sent && R.IndicesOk(w.s)
            && (w.phase == M.Between || w.phase == M.InLength ==>
                  w.sent == w.delivered + F.Parse(Contents(w.s.buffer, w.s.head, w.s.tail)))
  {
    hide Exec, Feasible, F.Parse, F.EncodeLength;
    M.FreshOk(buffer);
    RunKeeps(Fresh(buffer), run);
    var w := Exec(Fresh(buffer), run).w;
    if w.phase == M.Between || w.phase == M.InLength {
      M.UnreadIsFramed(w);
      F.ParseRoundTrip(Contents(w.s.buffer, w.s.head, w.s.tail), w.sent[|w.delivered|..], M.Pending(w));
    }
  }
}
