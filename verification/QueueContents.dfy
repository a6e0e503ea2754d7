/** The items of a queue over all interleavings of tasks and interrupts: what QueueProtocol counts,
    with the effect on the deque that the methods of Queues are proved to have.
 */
module QueueContents {
  import opened Bytes
  import opened SortedLists
  import opened QueueProtocol
  import W = QueueWakeups
  import Q = Queues

  type Item = seq<Byte>

  // sent and received: the items that sends and receives have completed with; lost: those that were
  // overwritten.
  datatype Contents = Contents(
    s: State,
    items: seq<Item>,
    sent: seq<Item>,
    received: seq<Item>,
    lost: seq<Item>)

  // The item and the position matter only for the steps that send.
  datatype ItemStep = ItemStep(step: Step, item: Item, position: Q.Position)

  datatype Effect = Puts(overwrite: bool) | Gets | Keeps

  // What a step does to the items: only a send and a receive that succeed do anything.
  function EffectOf(s: State, step: Step): Effect
    requires Enabled(s, step)
  {
    match step
    case Attempt(t, overwrite, _) =>
      if !Serves(s.q, s.pc[t].op, overwrite) || s.pc[t].op == Peek then Keeps
      else if s.pc[t].op == Send then Puts(overwrite)
      else Gets
    case InterruptSend(overwrite) => Puts(overwrite)
    case InterruptReceive => Gets
    case _ => Keeps
  }

  predicate Allowed(c: Contents, i: ItemStep) {
    && HolderOk(c.s) && Enabled(c.s, i.step)
    && match EffectOf(c.s, i.step)
       case Puts(overwrite) => overwrite <==> i.position == Q.Overwrite
       case Gets => c.items != []
       case Keeps => true
  }

  function Apply(c: Contents, i: ItemStep): Contents
    requires Allowed(c, i)
  {
    var c1 := c.(s := QueueProtocol.Apply(c.s, i.step));
    match EffectOf(c.s, i.step)
    case Keeps => c1
    case Gets => c1.(items := c.items[1..], received := c.received + [c.items[0]])
    case Puts(overwrite) =>
      c1.(items := Q.Sent(c.items, i.item, i.position),
          sent := c.sent + [i.item],
          lost := if overwrite then c.lost + c.items else c.lost)
  }

  // ---- The invariant ----

  ghost predicate Conserved(c: Contents) {
    multiset(c.received) + multiset(c.items) + multiset(c.lost) == multiset(c.sent)
  }

  ghost predicate Inv(c: Contents) {
    && QueueProtocol.Inv(c.s)
    && |c.items| == c.s.q.count
    && Conserved(c)
  }

  // The number of items is counted as the effect says.
  lemma StepCounts(s: State, step: Step)
    requires QueueProtocol.Inv(s) && Enabled(s, step)
    ensures var count := QueueProtocol.Apply(s, step).q.count;
            match EffectOf(s, step)
            case Puts(overwrite) => count == CountAfterSend(s.q, overwrite) && (overwrite ==> s.q.length == 1)
            case Gets => 0 < s.q.count && count == s.q.count - 1
            case Keeps => count == s.q.count
  {
    hide Books, Rouse, Ids, Deferred, Int8, ReceiversServed, SendersServed, AboutToWait;
  }

  lemma PutConserves(c: Contents, item: Item, position: Q.Position)
    requires |c.items| <= 1 || position != Q.Overwrite
    ensures var lost := if position == Q.Overwrite then c.items else [];
            && multiset(Q.Sent(c.items, item, position)) + multiset(lost) == multiset(c.items) + multiset{item}
            && multiset(c.lost + lost) == multiset(c.lost) + multiset(lost)
            && (position != Q.Overwrite ==> |Q.Sent(c.items, item, position)| == |c.items| + 1)
  {
  }

  lemma GetConserves(c: Contents)
    requires c.items != []
    ensures multiset(c.items[1..]) + multiset{c.items[0]} == multiset(c.items)
    ensures multiset(c.received + [c.items[0]]) == multiset(c.received) + multiset{c.items[0]}
  {
    assert c.items == [c.items[0]] + c.items[1..];
  }

  // Moving x between the parts of a sum.
  lemma SumsMove(received: multiset<Item>, items: multiset<Item>, lost: multiset<Item>, x: multiset<Item>)
    ensures (received + x) + items + lost == received + (items + x) + lost
    ensures received + (items + x) + lost == (received + items + lost) + x
  {
  }

  lemma SameItems(c: Contents, c1: Contents)
    requires Conserved(c) && c1 == c.(s := c1.s)
    ensures Conserved(c1)
  {
  }

  lemma GetKeeps(c: Contents, c1: Contents)
    requires Conserved(c) && c.items != []
    requires c1.items == c.items[1..] && c1.received == c.received + [c.items[0]]
    requires c1.lost == c.lost && c1.sent == c.sent
    ensures Conserved(c1)
  {
    GetConserves(c);
    SumsMove(multiset(c.received), multiset(c1.items), multiset(c.lost), multiset{c.items[0]});
  }

  lemma PutKeeps(c: Contents, c1: Contents, item: Item, position: Q.Position)
    requires Conserved(c) && (|c.items| <= 1 || position != Q.Overwrite)
    requires c1.items == Q.Sent(c.items, item, position) && c1.received == c.received
    requires c1.lost == (if position == Q.Overwrite then c.lost + c.items else c.lost) && c1.sent == c.sent + [item]
    ensures Conserved(c1)
  {
    PutConserves(c, item, position);
    SumsMove(multiset(c.received), multiset(c.items), multiset(c.lost), multiset{item});
    var lost := if position == Q.Overwrite then c.items else [];
    assert c1.lost == c.lost + lost;
    PutSums(multiset(c.received), multiset(c.items), multiset(c.lost), multiset{item},
            multiset(c1.items), multiset(lost));
  }

  lemma PutSums(received: multiset<Item>, items: multiset<Item>, lost: multiset<Item>, x: multiset<Item>,
                items1: multiset<Item>, more: multiset<Item>)
    requires items1 + more == items + x
    ensures received + items1 + (lost + more) == (received + items + lost) + x
  {
    assert received + items1 + (lost + more) == received + (items1 + more) + lost;
  }

  lemma StepKeeps(c: Contents, i: ItemStep)
    requires Inv(c) && Allowed(c, i)
    ensures Inv(Apply(c, i))
  {
    hide QueueProtocol.Inv, QueueProtocol.Apply, Enabled, EffectOf, Conserved;
    W.StepKeeps(c.s, i.step);
    StepCounts(c.s, i.step);
    CountFits(c.s);
    match EffectOf(c.s, i.step)
    case Keeps =>
      SameItems(c, Apply(c, i));
    case Gets =>
      GetKeeps(c, Apply(c, i));
    case Puts(overwrite) =>
      PutKeeps(c, Apply(c, i), i.item, i.position);
  }

  lemma CountFits(s: State)
    requires QueueProtocol.Inv(s)
    ensures s.q.count <= s.q.length
  {
  }

  // In a state of a run, a receive that may complete finds an item.
  lemma ReceiveFindsItem(c: Contents, step: Step)
    requires Inv(c) && Enabled(c.s, step) && EffectOf(c.s, step).Gets?
    ensures c.items != []
  {
    StepCounts(c.s, step);
  }

  // ---- Runs ----

  ghost predicate Feasible(c: Contents, run: seq<ItemStep>)
    decreases |run|
  {
    run == [] || (Allowed(c, run[0]) && Feasible(Apply(c, run[0]), run[1..]))
  }

  ghost function Exec(c: Contents, run: seq<ItemStep>): Contents
    requires Feasible(c, run)
    decreases |run|
  {
    if run == [] then c else Exec(Apply(c, run[0]), run[1..])
  }

  lemma {:induction false} RunKeeps(c: Contents, run: seq<ItemStep>)
    requires Inv(c) && Feasible(c, run)
    ensures Inv(Exec(c, run))
    decreases |run|
  {
    hide Inv, Allowed, Apply;
    if run != [] {
      StepKeeps(c, run[0]);
      RunKeeps(Apply(c, run[0]), run[1..]);
    }
  }

  function Fresh(length: nat, tasks: set<nat>): Contents {
    Contents(W.Fresh(length, tasks), [], [], [], [])
  }

  // Over every interleaving of tasks and interrupts, whatever ends of the queue they send to: the
  // items received, those in the queue and those overwritten are the items sent, each as often.
  lemma NoItemLost(length: nat, tasks: set<nat>, run: seq<ItemStep>)
    requires Feasible(Fresh(length, tasks), run)
    ensures var c := Exec(Fresh(length, tasks), run);
            && |c.items| == c.s.q.count <= length
            && multiset(c.received) + multiset(c.items) + multiset(c.lost) == multiset(c.sent)
  {
    hide Exec, Feasible;
    RunKeeps(Fresh(length, tasks), run);
    LengthStays(Fresh(length, tasks), run);
  }

  lemma StepLength(s: State, step: Step)
    requires HolderOk(s) && Enabled(s, step)
    ensures QueueProtocol.Apply(s, step).q.length == s.q.length
  {
    hide Rouse, Ids, Deferred, Int8, InsertSorted, Without;
  }

  lemma {:induction false} LengthStays(c: Contents, run: seq<ItemStep>)
    requires Inv(c) && Feasible(c, run)
    ensures Exec(c, run).s.q.length == c.s.q.length
    decreases |run|
  {
    hide Inv, QueueProtocol.Apply, Enabled, EffectOf;
    if run != [] {
      StepKeeps(c, run[0]);
      StepLength(c.s, run[0].step);
      LengthStays(Apply(c, run[0]), run[1..]);
    }
  }

  lemma {:induction false} RunInOrder(c: Contents, run: seq<ItemStep>)
    requires Feasible(c, run) && c.received + c.items == c.sent
    requires forall i :: i in run ==> i.position == Q.ToBack
    ensures var r := Exec(c, run); r.received + r.items == r.sent && r.lost == c.lost
    decreases |run|
  {
    hide EffectOf, QueueProtocol.Apply, Enabled;
    if run != [] {
      RunInOrder(Apply(c, run[0]), run[1..]);
    }
  }

  // If all of them send to the back, the items are received in the order in which they were sent:
  // those received, followed by those in the queue, are those sent.
  lemma FirstInFirstOut(length: nat, tasks: set<nat>, run: seq<ItemStep>)
    requires Feasible(Fresh(length, tasks), run)
    requires forall i :: i in run ==> i.position == Q.ToBack
    ensures var c := Exec(Fresh(length, tasks), run);
            c.received + c.items == c.sent && c.lost == []
  {
    hide Exec, Feasible;
    RunInOrder(Fresh(length, tasks), run);
  }

  // An item sent to the front is the next one received, whatever is sent to the back meanwhile.
  lemma FrontIsNext(c: Contents, i: ItemStep, run: seq<ItemStep>)
    requires Allowed(c, i) && EffectOf(c.s, i.step) == Puts(false) && i.position == Q.ToFront
    requires Feasible(Apply(c, i), run)
    requires forall j :: j in run ==> j.position == Q.ToBack
    ensures var r, n := Exec(Apply(c, i), run), |c.received|;
            && c.received <= r.received
            && if |r.received| == n then r.items != [] && r.items[0] == i.item else r.received[n] == i.item
  {
    hide Exec, Feasible, EffectOf, QueueProtocol.Apply, Enabled;
    NextIs(Apply(c, i), run, c.received, i.item);
  }

  ghost predicate Next(c: Contents, received: seq<Item>, item: Item) {
    && received <= c.received
    && if |c.received| == |received| then c.items != [] && c.items[0] == item else c.received[|received|] == item
  }

  lemma {:induction false} NextIs(c: Contents, run: seq<ItemStep>, received: seq<Item>, item: Item)
    requires Feasible(c, run) && Next(c, received, item)
    requires forall j :: j in run ==> j.position == Q.ToBack
    ensures Next(Exec(c, run), received, item)
    decreases |run|
  {
    hide EffectOf, QueueProtocol.Apply, Enabled;
    if run != [] {
      NextIs(Apply(c, run[0]), run[1..], received, item);
    }
  }
}
