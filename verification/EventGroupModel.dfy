/** An event group as a state: its bits, the blocked calls in list order, the calls that have been
    unblocked but have not resumed, and the request of every call in progress.  Runs interleave
    any number of tasks, each in at most one call.
 */
module EventGroupModel {
  import opened EventBits

  // The arguments of a call that waits.
  datatype Request = Request(wanted: Bits, clear: bool, all: bool)

  predicate Meets(current: Bits, r: Request) {
    TestWaitCondition(current, r.wanted, r.all)
  }

  function Item(r: Request): Bits {
    ItemValue(r.wanted, r.clear, r.all)
  }

  datatype Waiter = Waiter(task: nat, value: Bits)

  // `items` holds the event item values of unblocked tasks that have not resumed.
  datatype Group = Group(bits: Bits, waiters: seq<Waiter>, items: map<nat, Bits>, calls: map<nat, Request>)

  // ---- xEventGroupSetBits: what its walk over the list leaves ----

  function Kept(ws: seq<Waiter>, now: Bits): (r: seq<Waiter>)
    ensures forall w :: w in r <==> w in ws && !ItemMatches(w.value, now)
  {
    if ws == [] then []
    else
      var n := |ws| - 1;
      assert ws == ws[..n] + [ws[n]];
      if ItemMatches(ws[n].value, now) then Kept(ws[..n], now) else Kept(ws[..n], now) + [ws[n]]
  }

  function Cleared(ws: seq<Waiter>, now: Bits): Bits {
    if ws == [] then 0
    else
      var n := |ws| - 1;
      if ItemMatches(ws[n].value, now) then Union(Cleared(ws[..n], now), ItemClears(ws[n].value))
      else Cleared(ws[..n], now)
  }

  function Released(items: map<nat, Bits>, ws: seq<Waiter>, now: Bits): (r: map<nat, Bits>)
    ensures forall t :: t in r <==> t in items || Releases(ws, now, t)
    ensures forall t :: t in r ==> r[t] == if Releases(ws, now, t) then Unblocking(now) else items[t]
  {
    if ws == [] then items
    else
      var n := |ws| - 1;
      assert ws == ws[..n] + [ws[n]];
      if ItemMatches(ws[n].value, now) then Released(items, ws[..n], now)[ws[n].task := Unblocking(now)]
      else Released(items, ws[..n], now)
  }

  predicate Releases(ws: seq<Waiter>, now: Bits, t: nat) {
    exists w :: w in ws && w.task == t && ItemMatches(w.value, now)
  }

  function SetBits(g: Group, bits: Bits): Group {
    var now := Union(g.bits, bits);
    g.(bits := Minus(now, Cleared(g.waiters, now)),
       waiters := Kept(g.waiters, now),
       items := Released(g.items, g.waiters, now))
  }

  // ---- The other operations ----

  datatype Outcome = Blocks | Returns(value: Bits)

  // vTaskPlaceOnUnorderedEventList
  function Block(g: Group, t: nat, r: Request): Group {
    g.(waiters := g.waiters + [Waiter(t, Item(r))], calls := g.calls[t := r])
  }

  // xEventGroupWaitBits up to the point where the task blocks
  function WaitBits(g: Group, t: nat, r: Request, mayBlock: bool): (Group, Outcome) {
    if Meets(g.bits, r) then (if r.clear then g.(bits := Minus(g.bits, r.wanted)) else g, Returns(g.bits))
    else if !mayBlock then (g, Returns(g.bits))
    else (Block(g, t, r), Blocks)
  }

  // xEventGroupSync up to the point where the task blocks
  function Sync(g: Group, t: nat, bits: Bits, wanted: Bits, mayBlock: bool): (Group, Outcome) {
    var g1 := SetBits(g, bits);
    if Within(wanted, Union(g.bits, bits)) then (g1.(bits := Minus(g1.bits, wanted)), Returns(Union(g.bits, bits)))
    else if mayBlock then (Block(g1, t, Request(wanted, true, true)), Blocks)
    else (g1, Returns(g1.bits))
  }

  function ClearBits(g: Group, bits: Bits): Group {
    g.(bits := Minus(g.bits, bits))
  }

  function Remove(ws: seq<Waiter>, t: nat): (r: seq<Waiter>)
    ensures forall w :: w in r <==> w in ws && w.task != t
  {
    if ws == [] then []
    else if ws[0].task == t then Remove(ws[1..], t)
    else [ws[0]] + Remove(ws[1..], t)
  }

  // The block time of t expires: its item value stays as it was.
  function TimeOut(g: Group, t: nat): Group
    requires t in g.calls
  {
    g.(waiters := Remove(g.waiters, t), items := g.items[t := Item(g.calls[t])])
  }

  // The rest of xEventGroupWaitBits or xEventGroupSync, once the task runs again.
  function Resume(g: Group, t: nat): (Group, Bits)
    requires t in g.items && t in g.calls
  {
    var r, g1 := g.calls[t], g.(items := g.items - {t}, calls := g.calls - {t});
    if WasUnblocked(g.items[t]) then (g1, Plain(g.items[t]))
    else if Meets(g.bits, r) && r.clear then (g1.(bits := Minus(g.bits, r.wanted)), Plain(g.bits))
    else (g1, Plain(g.bits))
  }

  // ---- The invariant ----

  ghost predicate OneEach(ws: seq<Waiter>) {
    forall i, j :: 0 <= i < j < |ws| ==> ws[i].task != ws[j].task
  }

  // Every blocked call is on the list with its request; no request is met by the bits.
  ghost predicate WaitersOk(bits: Bits, ws: seq<Waiter>, items: map<nat, Bits>, calls: map<nat, Request>) {
    && OneEach(ws)
    && (forall w :: w in ws ==>
          w.task in calls && w.task !in items && w.value == Item(calls[w.task]) && !Meets(bits, calls[w.task]))
    && (forall t :: t in calls && t !in items ==> Waiter(t, Item(calls[t])) in ws)
  }

  // An unblocked task finds bits that meet its request.
  predicate Fulfils(v: Bits, r: Request) {
    WasUnblocked(v) ==> Clean(Plain(v)) && Meets(Plain(v), r)
  }

  ghost predicate ItemsOk(items: map<nat, Bits>, calls: map<nat, Request>) {
    forall t :: t in items ==> t in calls && Fulfils(items[t], calls[t])
  }

  ghost predicate CallsOk(calls: map<nat, Request>) {
    forall t :: t in calls ==> Clean(calls[t].wanted)
  }

  ghost predicate Inv(g: Group) {
    && Clean(g.bits)
    && CallsOk(g.calls)
    && WaitersOk(g.bits, g.waiters, g.items, g.calls)
    && ItemsOk(g.items, g.calls)
  }

  // ---- Runs ----

  datatype Step =
    | DoSet(bits: Bits)
    | DoClear(bits: Bits)
    | DoWait(t: nat, r: Request, mayBlock: bool)
    | DoSync(t: nat, bits: Bits, wanted: Bits, mayBlock: bool)
    | Expire(t: nat)
    | Wake(t: nat)

  // The arguments the kernel asserts: no control bits.  A task is in one call at a time.
  predicate Enabled(g: Group, step: Step) {
    match step
    case DoSet(bits) => Clean(bits)
    case DoClear(bits) => Clean(bits)
    case DoWait(t, r, _) => t !in g.calls && t !in g.items && Clean(r.wanted) && r.wanted != 0
    case DoSync(t, bits, wanted, _) => t !in g.calls && t !in g.items && Clean(bits) && Clean(wanted) && wanted != 0
    case Expire(t) => t in g.calls && t !in g.items
    case Wake(t) => t in g.items && t in g.calls
  }

  function Apply(g: Group, step: Step): Group
    requires Enabled(g, step)
  {
    match step
    case DoSet(bits) => SetBits(g, bits)
    case DoClear(bits) => ClearBits(g, bits)
    case DoWait(t, r, mayBlock) => WaitBits(g, t, r, mayBlock).0
    case DoSync(t, bits, wanted, mayBlock) => Sync(g, t, bits, wanted, mayBlock).0
    case Expire(t) => TimeOut(g, t)
    case Wake(t) => Resume(g, t).0
  }

  ghost predicate Feasible(g: Group, run: seq<Step>)
    decreases |run|
  {
    run == [] || (Enabled(g, run[0]) && Feasible(Apply(g, run[0]), run[1..]))
  }

  ghost function Exec(g: Group, run: seq<Step>): Group
    requires Feasible(g, run)
    decreases |run|
  {
    if run == [] then g else Exec(Apply(g, run[0]), run[1..])
  }
}
