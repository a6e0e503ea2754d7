/** Message buffers: discrete messages in a byte stream, each behind its length. */
module MessageFraming {
  import opened Bytes

  // sizeof( configMESSAGE_BUFFER_LENGTH_TYPE ): a size_t of a 32-bit port.
  const HEADER: nat := 4
  const LENGTH_LIMIT: nat := 0x1_0000_0000

  // ---- The length field, least significant byte first ----

  function EncodeLength(n: nat): (r: seq<Byte>)
    ensures |r| == HEADER
  {
    [n % 256, n / 256 % 256, n / 0x1_0000 % 256, n / 0x100_0000 % 256]
  }

  function DecodeLength(b: seq<Byte>): nat
    requires |b| == HEADER
  {
    b[0] as nat + b[1] as nat * 256 + b[2] as nat * 0x1_0000 + b[3] as nat * 0x100_0000
  }

  lemma Digits(n: nat)
    ensures n == n / 256 * 256 + n % 256
    ensures n / 256 == n / 0x1_0000 * 256 + n / 256 % 256
    ensures n / 0x1_0000 == n / 0x100_0000 * 256 + n / 0x1_0000 % 256
    ensures n / 0x100_0000 == n / LENGTH_LIMIT * 256 + n / 0x100_0000 % 256
  {
  }

  lemma DecodedRemainder(n: nat)
    ensures n == n / LENGTH_LIMIT * LENGTH_LIMIT + DecodeLength(EncodeLength(n))
  {
    Digits(n);
  }

  lemma RemainderIs(n: nat, q: nat, r: nat)
    requires n == q * LENGTH_LIMIT + r && r < LENGTH_LIMIT
    ensures n % LENGTH_LIMIT == r && (r == n <==> n < LENGTH_LIMIT)
  {
  }

  // The field holds the length modulo 2^32, so exactly the lengths below survive.
  lemma LengthRoundTrip(n: nat)
    ensures DecodeLength(EncodeLength(n)) == n % LENGTH_LIMIT
    ensures DecodeLength(EncodeLength(n)) == n <==> n < LENGTH_LIMIT
  {
    hide EncodeLength;
    DecodedRemainder(n);
    RemainderIs(n, n / LENGTH_LIMIT, DecodeLength(EncodeLength(n)));
  }

  // ---- The stream of a sequence of messages ----

  type Message = seq<Byte>

  predicate Sendable(m: Message) {
    0 < |m| < LENGTH_LIMIT
  }

  function Frame(m: Message): (r: seq<Byte>)
    ensures |r| == HEADER + |m|
  {
    EncodeLength(|m|) + m
  }

  function Stream(messages: seq<Message>): seq<Byte> {
    if messages == [] then [] else Frame(messages[0]) + Stream(messages[1..])
  }

  lemma {:induction false} StreamConcat(a: seq<Message>, b: seq<Message>)
    ensures Stream(a + b) == Stream(a) + Stream(b)
  {
    if a == [] {
      assert a + b == b;
    } else {
      assert (a + b)[1..] == a[1..] + b;
      StreamConcat(a[1..], b);
      assert Frame(a[0]) + (Stream(a[1..]) + Stream(b)) == (Frame(a[0]) + Stream(a[1..])) + Stream(b);
    }
  }

  // In the middle of a send only the length of a message has been published.
  datatype Pending = NoHeader | Header(length: nat)

  function PendingBytes(p: Pending): seq<Byte> {
    match p
    case NoHeader => []
    case Header(n) => EncodeLength(n)
  }

  ghost predicate Framed(contents: seq<Byte>, messages: seq<Message>, p: Pending) {
    && contents == Stream(messages) + PendingBytes(p)
    && forall m :: m in messages ==> Sendable(m)
  }

  // ---- Taking messages out ----

  // prvReadMessageFromBuffer on a message buffer whose reader saw `available` unread bytes and
  // offers `room` bytes: the data returned, and how many bytes the tail moves on.  With too
  // little room the tail is put back and nothing is returned.
  function ReadMessage(contents: seq<Byte>, available: nat, room: nat): (r: (seq<Byte>, nat))
    requires HEADER < available <= |contents|
    ensures r.1 <= available
  {
    var length := DecodeLength(contents[..HEADER]);
    if room < length then ([], 0)
    else
      var n := if available - HEADER < length then available - HEADER else length;
      (contents[HEADER..HEADER + n], HEADER + n)
  }

  // xStreamBufferReceive without waiting.
  function Receive(contents: seq<Byte>, available: nat, room: nat): (r: (seq<Byte>, nat))
    requires available <= |contents|
    ensures r.1 <= available
  {
    if HEADER < available then ReadMessage(contents, available, room) else ([], 0)
  }

  // More than a header means a whole message: a bare header is the last thing published.
  lemma WholeMessageFirst(contents: seq<Byte>, messages: seq<Message>, p: Pending)
    requires Framed(contents, messages, p)
    ensures HEADER < |contents| <==> messages != []
    ensures messages != [] ==>
              && |messages[0]| + HEADER <= |contents|
              && contents[..HEADER] == EncodeLength(|messages[0]|)
              && contents[HEADER..HEADER + |messages[0]|] == messages[0]
              && DecodeLength(contents[..HEADER]) == |messages[0]|
              && Framed(contents[HEADER + |messages[0]|..], messages[1..], p)
  {
    if messages != [] {
      var m, rest := messages[0], Stream(messages[1..]) + PendingBytes(p);
      assert m in messages;
      LengthRoundTrip(|m|);
      assert contents == EncodeLength(|m|) + (m + rest);
      assert contents == Frame(m) + rest;
    }
  }

  // A short buffer is empty unless just a length is published: the assertion of the call that
  // asks for the next length holds exactly if no send is in progress.
  lemma ShortIsEmpty(contents: seq<Byte>, messages: seq<Message>, p: Pending)
    requires Framed(contents, messages, p) && |contents| <= HEADER
    ensures contents == [] <==> p.NoHeader?
  {
    WholeMessageFirst(contents, messages, p);
  }

  // Nothing beyond the bytes seen matters.
  lemma ReceiveLooksNoFurther(contents: seq<Byte>, available: nat, room: nat)
    requires available <= |contents|
    ensures Receive(contents, available, room) == Receive(contents[..available], available, room)
  {
    if HEADER < available {
      assert contents[..available][..HEADER] == contents[..HEADER];
      forall n | HEADER <= n <= available
        ensures contents[..available][HEADER..n] == contents[HEADER..n]
      {
      }
    }
  }

  // A message comes out whole, on its own and in order, or, when it does not fit the receiver's
  // buffer, not at all and stays; `available` may be an old count, from when the contents were a
  // shorter framed stream.
  lemma ReceiveExactly(contents: seq<Byte>, available: nat, messages: seq<Message>, p: Pending, room: nat)
    requires available <= |contents| && Framed(contents[..available], messages, p)
    ensures messages == [] ==> Receive(contents, available, room) == ([], 0)
    ensures messages != [] && |messages[0]| <= room ==>
              Receive(contents, available, room) == (messages[0], HEADER + |messages[0]|)
    ensures messages != [] && room < |messages[0]| ==> Receive(contents, available, room) == ([], 0)
  {
    ReceiveLooksNoFurther(contents, available, room);
    WholeMessageFirst(contents[..available], messages, p);
  }

  // ---- Putting messages in ----

  // prvWriteMessageToBuffer on a message buffer: all or nothing, judged by the space seen.
  predicate Fits(length: nat, space: nat) {
    space != 0 && length + HEADER <= space
  }

  lemma HeaderPublished(contents: seq<Byte>, messages: seq<Message>, n: nat)
    requires Framed(contents, messages, NoHeader)
    ensures Framed(contents + EncodeLength(n), messages, Header(n))
  {
  }

  lemma DataPublished(contents: seq<Byte>, messages: seq<Message>, m: Message)
    requires Framed(contents, messages, Header(|m|)) && Sendable(m)
    ensures Framed(contents + m, messages + [m], NoHeader)
  {
    StreamConcat(messages, [m]);
    assert Stream([m]) == Frame(m) + [];
    assert (Stream(messages) + EncodeLength(|m|)) + m == Stream(messages) + Frame(m);
  }

  // ---- Parsing: the stream determines the messages ----

  function Parse(contents: seq<Byte>): seq<Message> {
    if |contents| < HEADER then []
    else
      var n := DecodeLength(contents[..HEADER]);
      if |contents| < HEADER + n then []
      else [contents[HEADER..HEADER + n]] + Parse(contents[HEADER + n..])
  }

  lemma {:induction false} ParseRoundTrip(contents: seq<Byte>, messages: seq<Message>, p: Pending)
    requires Framed(contents, messages, p) && (p.Header? ==> 0 < p.length < LENGTH_LIMIT)
    ensures Parse(contents) == messages
  {
    WholeMessageFirst(contents, messages, p);
    if messages == [] {
      if p.Header? {
        LengthRoundTrip(p.length);
        assert contents[..HEADER] == EncodeLength(p.length);
      }
    } else {
      ParseRoundTrip(contents[HEADER + |messages[0]|..], messages[1..], p);
    }
  }

  // ---- Runs of one writer and one reader ----

  // The reader works on the count it saw when it looked, the writer publishes in two parts.
  datatype State = State(
    contents: seq<Byte>,
    sending: seq<Byte>,         // the message whose length is published but whose data is not
    seen: nat,                  // the count the reader saw last, less what it took since
    sent: seq<Message>,
    received: seq<Message>)

  datatype Step =
    | PublishLength(m: Message)
    | PublishData
    | Look
    | Take(room: nat)

  predicate Enabled(s: State, step: Step) {
    match step
    case PublishLength(m) => s.sending == [] && Sendable(m)
    case PublishData => s.sending != []
    case Look => true
    case Take(room) => s.seen <= |s.contents|
  }

  function Apply(s: State, step: Step): State
    requires Enabled(s, step)
  {
    match step
    case PublishLength(m) => s.(contents := s.contents + EncodeLength(|m|), sending := m)
    case PublishData => s.(contents := s.contents + s.sending, sending := [], sent := s.sent + [s.sending])
    case Look => s.(seen := |s.contents|)
    case Take(room) =>
      var (data, n) := Receive(s.contents, s.seen, room);
      if n == 0 then s
      else s.(contents := s.contents[n..], seen := s.seen - n, received := s.received + [data])
  }

  function PendingOf(s: State): Pending {
    if s.sending == [] then NoHeader else Header(|s.sending|)
  }

  // The first length published makes a buffer that is short and not empty.
  lemma BareLengthIsShort()
    ensures var s := State([], [], 0, [], []);
            && Inv(s) && Enabled(s, PublishLength([7]))
            && Apply(s, PublishLength([7])).contents == [1, 0, 0, 0] && 4 <= HEADER
  {
    var s := State([], [], 0, [], []);
    assert Framed([], [], NoHeader) && s.contents[..0] == [];
    assert InvWith(s, []);
  }

  // What the reader saw is itself a framed stream.
  ghost predicate SeenFramed(s: State) {
    s.seen <= |s.contents| && exists messages, p :: Framed(s.contents[..s.seen], messages, p)
  }

  ghost predicate InvWith(s: State, messages: seq<Message>) {
    && Framed(s.contents, messages, PendingOf(s))
    && s.sent == s.received + messages
    && (s.sending != [] ==> Sendable(s.sending))
    && SeenFramed(s)
  }

  ghost predicate Inv(s: State) {
    exists messages :: InvWith(s, messages)
  }

  lemma SliceOfPrefix(c: seq<Byte>, n: nat, i: nat, j: nat)
    requires i <= j <= n <= |c|
    ensures c[..n][i..j] == c[i..j]
  {
  }

  // The part of the stream that was seen starts with the same message.
  lemma SeenStartsAlike(s: State, messages: seq<Message>, seen: seq<Message>, p: Pending)
    requires InvWith(s, messages) && Framed(s.contents[..s.seen], seen, p)
    ensures seen != [] ==> messages != [] && messages[0] == seen[0]
  {
    hide Stream, PendingBytes, Framed, EncodeLength, DecodeLength;
    WholeMessageFirst(s.contents[..s.seen], seen, p);
    WholeMessageFirst(s.contents, messages, PendingOf(s));
    if seen != [] {
      SliceOfPrefix(s.contents, s.seen, 0, HEADER);
      SliceOfPrefix(s.contents, s.seen, HEADER, HEADER + |seen[0]|);
    }
  }

  lemma PublishKeeps(s: State, step: Step, messages: seq<Message>)
    requires InvWith(s, messages) && Enabled(s, step) && (step.PublishLength? || step.PublishData?)
    ensures Inv(Apply(s, step))
  {
    var s' := Apply(s, step);
    assert s'.contents[..s.seen] == s.contents[..s.seen];
    match step
    case PublishLength(m) =>
      HeaderPublished(s.contents, messages, |m|);
      assert InvWith(s', messages);
    case PublishData =>
      DataPublished(s.contents, messages, s.sending);
      assert s.received + messages + [s.sending] == s.received + (messages + [s.sending]);
      assert InvWith(s', messages + [s.sending]);
  }

  lemma TakeKeeps(s: State, room: nat, messages: seq<Message>)
    requires InvWith(s, messages)
    ensures Inv(Apply(s, Take(room)))
    ensures var s' := Apply(s, Take(room));
            || s' == s
            || (messages != [] && |messages[0]| <= room && s'.received == s.received + [messages[0]])
  {
    hide Stream, PendingBytes, Framed, EncodeLength, DecodeLength, ReadMessage;
    var seen, p :| Framed(s.contents[..s.seen], seen, p);
    SeenStartsAlike(s, messages, seen, p);
    ReceiveExactly(s.contents, s.seen, seen, p, room);
    if seen != [] && |seen[0]| <= room {
      var n := HEADER + |seen[0]|;
      var s' := Apply(s, Take(room));
      WholeMessageFirst(s.contents, messages, PendingOf(s));
      WholeMessageFirst(s.contents[..s.seen], seen, p);
      assert s'.contents[..s'.seen] == s.contents[..s.seen][n..];
      assert s.received + messages == (s.received + [messages[0]]) + messages[1..];
      assert InvWith(s', messages[1..]);
    }
  }

  lemma StepKeeps(s: State, step: Step)
    requires Inv(s) && Enabled(s, step)
    ensures Inv(Apply(s, step))
  {
    var messages :| InvWith(s, messages);
    match step
    case PublishLength(_) => PublishKeeps(s, step, messages);
    case PublishData => PublishKeeps(s, step, messages);
    case Look =>
      assert s.contents[..|s.contents|] == s.contents;
      assert InvWith(Apply(s, step), messages);
    case Take(room) => TakeKeeps(s, room, messages);
  }

  ghost predicate Feasible(s: State, run: seq<Step>)
    decreases |run|
  {
    run == [] || (Enabled(s, run[0]) && Feasible(Apply(s, run[0]), run[1..]))
  }

  ghost function Exec(s: State, run: seq<Step>): State
    requires Feasible(s, run)
    decreases |run|
  {
    if run == [] then s else Exec(Apply(s, run[0]), run[1..])
  }

  lemma {:induction false} RunKeeps(s: State, run: seq<Step>)
    requires Inv(s) && Feasible(s, run)
    ensures Inv(Exec(s, run))
    decreases |run|
  {
    if run != [] {
      StepKeeps(s, run[0]);
      RunKeeps(Apply(s, run[0]), run[1..]);
    }
  }

  // Over every run: the messages received are the first messages sent, whole and in order, and
  // parsing what is buffered gives exactly the others.
  lemma MessagesArriveWhole(run: seq<Step>)
    requires Feasible(State([], [], 0, [], []), run)
    ensures var s := Exec(State([], [], 0, [], []), run);
            s.sent == s.received + Parse(s.contents)
  {
    var start := State([], [], 0, [], []);
    assert Framed(start.contents[..0], [], NoHeader);
    assert InvWith(start, []);
    RunKeeps(start, run);
    var s := Exec(start, run);
    var messages :| InvWith(s, messages);
    ParseRoundTrip(s.contents, messages, PendingOf(s));
  }
}
