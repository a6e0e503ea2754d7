/** Any sequence of calls on one stream buffer object: a stream comes out as it went in, and so do
    the messages of a message buffer.
 */
module StreamBufferRuns {
  import opened Bytes
  import opened StreamRing
  import opened StreamBuffers
  import F = MessageFraming

  // `waits` is what the other side takes while a send waits, `arriving` what it adds while a
  // receive does.
  datatype Call =
    | Sends(data: seq<Byte>, waits: seq<nat>)
    | Receives(room: nat, mayWait: bool, arriving: seq<Byte>)

  // What happens on the object: bytes go in, and bytes come out.
  datatype Traffic = Traffic(sent: seq<Byte>, received: seq<Byte>)

  // Every byte that came out, in order, followed by the bytes left, is every byte that was left at
  // the start followed by those that went in.  A call that the other side cannot do its part of is
  // left out.
  method Exchange(b: StreamBuffer, calls: seq<Call>) returns (ghost t: Traffic)
    requires b.Valid() && !b.isMessageBuffer
    modifies b, b.buffer
    ensures b.Valid() && t.received + b.View() == old(b.View()) + t.sent
  {
    t := Traffic([], []);
    ghost var start := b.View();
    assert [] + b.View() == start + [];
    for i := 0 to |calls|
      invariant b.Valid() && t.received + b.View() == start + t.sent
    {
      match calls[i]
      case Sends(data, waits) => t := SendOne(b, data, waits, start, t);
      case Receives(room, mayWait, arriving) => t := ReceiveOne(b, room, mayWait, arriving, start, t);
    }
  }

  method SendOne(b: StreamBuffer, data: seq<Byte>, waits: seq<nat>, ghost start: seq<Byte>, ghost t: Traffic)
    returns (ghost t': Traffic)
    requires b.Valid() && !b.isMessageBuffer && t.received + b.View() == start + t.sent
    modifies b, b.buffer
    ensures b.Valid() && t'.received + b.View() == start + t'.sent
  {
    t' := t;
    var available := b.BytesAvailable();
    if data != [] && Sum(waits) <= available {
      ghost var contents := b.View();
      var n, taken := b.Send(data, waits);
      t' := Traffic(t.sent + data[..n], t.received + contents[..taken]);
      InAndOut(start, t.sent, t.received, contents, taken, data[..n]);
    }
  }

  method ReceiveOne(b: StreamBuffer, room: nat, mayWait: bool, arriving: seq<Byte>, ghost start: seq<Byte>,
                    ghost t: Traffic)
    returns (ghost t': Traffic)
    requires b.Valid() && !b.isMessageBuffer && t.received + b.View() == start + t.sent
    modifies b, b.buffer
    ensures b.Valid() && t'.received + b.View() == start + t'.sent
  {
    t' := t;
    var space := b.SpaceAvailable();
    if |arriving| <= space {
      hide Received;
      ghost var contents := b.View();
      ghost var added := if mayWait && contents == [] then arriving else [];
      assert contents + [] == contents;
      var data := b.Receive(room, mayWait, arriving);
      t' := Traffic(t.sent + added, t.received + data);
      InThenOut(start, t.sent, t.received, contents, added, data, b.View());
    }
  }

  lemma InThenOut(start: seq<Byte>, sent: seq<Byte>, received: seq<Byte>, contents: seq<Byte>, more: seq<Byte>,
                  data: seq<Byte>, left: seq<Byte>)
    requires received + contents == start + sent && data + left == contents + more
    ensures (received + data) + left == start + (sent + more)
  {
    assert (received + data) + left == received + (data + left);
    assert received + (contents + more) == (received + contents) + more;
    assert start + (sent + more) == (start + sent) + more;
  }

  // n bytes come out of the contents and then more go in.
  lemma InAndOut(start: seq<Byte>, sent: seq<Byte>, received: seq<Byte>, contents: seq<Byte>, n: nat, more: seq<Byte>)
    requires received + contents == start + sent && n <= |contents|
    ensures (received + contents[..n]) + (contents[n..] + more) == start + (sent + more)
  {
    assert contents == contents[..n] + contents[n..];
    assert (received + contents[..n]) + (contents[n..] + more) == (received + contents) + more;
    assert start + (sent + more) == (start + sent) + more;
  }

  // ---- Messages ----

  datatype MessageCall = SendsMessage(m: F.Message) | ReceivesMessage(room: nat)

  // The calls of a message buffer that do not wait: the messages received followed by those in the
  // buffer are those there were followed by those whose send was accepted; and a send is accepted
  // exactly if the message and its length fit, a receive refused exactly if there is no message or
  // the first one is larger than the caller's buffer.
  method ExchangeMessages(b: StreamBuffer, calls: seq<MessageCall>, ghost start: seq<F.Message>)
    returns (sent: seq<F.Message>, received: seq<F.Message>, ghost left: seq<F.Message>)
    requires b.Valid() && b.isMessageBuffer && F.Framed(b.View(), start, F.NoHeader)
    modifies b, b.buffer
    ensures b.Valid() && F.Framed(b.View(), left, F.NoHeader) && start + sent == received + left
  {
    sent, received, left := [], [], start;
    assert start + [] == [] + start;
    for i := 0 to |calls|
      invariant b.Valid() && F.Framed(b.View(), left, F.NoHeader) && start + sent == received + left
    {
      match calls[i]
      case SendsMessage(m) =>
        if F.Sendable(m) {
          var accepted;
          accepted, left := SendMessage(b, m, left);
          assert accepted ==> start + (sent + [m]) == (start + sent) + [m];
          assert accepted ==> left[..|left| - 1] + [m] == left;
          if accepted {
            sent := sent + [m];
          }
        }
      case ReceivesMessage(room) =>
        var taken, m;
        ghost var before := left;
        taken, m, left := ReceiveMessage(b, room, left);
        if taken {
          assert before == [m] + left;
          received := received + [m];
        }
    }
  }

  method SendMessage(b: StreamBuffer, m: F.Message, ghost messages: seq<F.Message>)
    returns (accepted: bool, ghost left: seq<F.Message>)
    requires b.Valid() && b.isMessageBuffer && F.Sendable(m) && F.Framed(b.View(), messages, F.NoHeader)
    modifies b, b.buffer
    ensures b.Valid() && F.Framed(b.View(), left, F.NoHeader)
    ensures accepted <==> |m| + F.HEADER <= b.buffer.Length - 1 - |old(b.View())|
    ensures left == if accepted then messages + [m] else messages
  {
    hide F.Framed, F.EncodeLength;
    AddedKeepsFraming(b.View(), messages, m, b.buffer.Length - 1 - |b.View()|);
    var n, taken := b.Send(m, []);
    accepted := n != 0;
    left := if accepted then messages + [m] else messages;
  }

  method ReceiveMessage(b: StreamBuffer, room: nat, ghost messages: seq<F.Message>)
    returns (taken: bool, m: F.Message, ghost left: seq<F.Message>)
    requires b.Valid() && b.isMessageBuffer && F.Framed(b.View(), messages, F.NoHeader)
    modifies b, b.buffer
    ensures b.Valid() && F.Framed(b.View(), left, F.NoHeader)
    ensures taken <==> messages != [] && |messages[0]| <= room
    ensures if taken then messages == [m] + left else left == messages && b.View() == old(b.View())
  {
    hide F.Framed, F.EncodeLength, F.DecodeLength, F.Receive;
    ghost var contents := b.View();
    assert contents[..|contents|] == contents;
    F.ReceiveExactly(contents, |contents|, messages, F.NoHeader, room);
    F.WholeMessageFirst(contents, messages, F.NoHeader);
    FramedAreSendable(contents, messages);
    m := b.Receive(room, false, []);
    taken := m != [];
    left := if taken then messages[1..] else messages;
  }

  lemma FramedAreSendable(contents: seq<Byte>, messages: seq<F.Message>)
    requires F.Framed(contents, messages, F.NoHeader)
    ensures forall i :: 0 <= i < |messages| ==> F.Sendable(messages[i])
  {
  }
}
