/** Event bits and the item values in which a blocked call leaves its request: the bits it waits
    for, and in the control byte whether it clears them on exit and whether it needs all of them.
 */
module EventBits {

  // EventBits_t with 64-bit ticks
  type Bits = bv64

  const CLEAR_EVENTS_ON_EXIT: Bits := 0x01000000
  const UNBLOCKED_DUE_TO_BIT_SET: Bits := 0x02000000
  const WAIT_FOR_ALL: Bits := 0x04000000
  const CONTROL_BYTES: Bits := 0xff000000

  function Union(a: Bits, b: Bits): Bits {
    a | b
  }

  function Minus(a: Bits, b: Bits): Bits {
    a & !b
  }

  predicate Within(a: Bits, b: Bits) {
    a & b == a
  }

  predicate Apart(a: Bits, b: Bits) {
    a & b == 0
  }

  predicate Clean(b: Bits) {
    b & CONTROL_BYTES == 0
  }

  // prvTestWaitCondition
  predicate TestWaitCondition(current: Bits, wanted: Bits, all: bool) {
    if !all then !Apart(current, wanted) else Within(wanted, current)
  }

  function ControlBits(clear: bool, all: bool): Bits {
    (if clear then CLEAR_EVENTS_ON_EXIT else 0) | (if all then WAIT_FOR_ALL else 0)
  }

  function ItemValue(wanted: Bits, clear: bool, all: bool): Bits {
    wanted | ControlBits(clear, all)
  }

  function Plain(v: Bits): Bits {
    v & !CONTROL_BYTES
  }

  // How xEventGroupSetBits reads an item value.
  predicate NeedsAll(v: Bits) {
    v & CONTROL_BYTES & WAIT_FOR_ALL != 0
  }

  predicate ClearsOnExit(v: Bits) {
    v & CONTROL_BYTES & CLEAR_EVENTS_ON_EXIT != 0
  }

  predicate ItemMatches(v: Bits, current: Bits) {
    if !NeedsAll(v) then !Apart(Plain(v), current) else Within(Plain(v), current)
  }

  function ItemClears(v: Bits): Bits {
    if ClearsOnExit(v) then Plain(v) else 0
  }

  function Unblocking(current: Bits): Bits {
    current | UNBLOCKED_DUE_TO_BIT_SET
  }

  predicate WasUnblocked(v: Bits) {
    v & UNBLOCKED_DUE_TO_BIT_SET != 0
  }

  // ---- Item values ----

  lemma ControlParts(clear: bool, all: bool)
    ensures var f := ControlBits(clear, all);
            && f & CONTROL_BYTES == f && f & UNBLOCKED_DUE_TO_BIT_SET == 0
            && (f & WAIT_FOR_ALL != 0 <==> all) && (f & CLEAR_EVENTS_ON_EXIT != 0 <==> clear)
  {
  }

  lemma SplitItem(wanted: Bits, f: Bits)
    requires wanted & CONTROL_BYTES == 0 && f & CONTROL_BYTES == f
    ensures (wanted | f) & !CONTROL_BYTES == wanted
    ensures (wanted | f) & CONTROL_BYTES == f
  {
  }

  lemma ControlOnly(wanted: Bits, f: Bits)
    requires wanted & CONTROL_BYTES == 0
    ensures (wanted | f) & UNBLOCKED_DUE_TO_BIT_SET == f & UNBLOCKED_DUE_TO_BIT_SET
  {
  }

  lemma ApartCommutes(a: Bits, b: Bits)
    ensures Apart(a, b) <==> Apart(b, a)
  {
  }

  lemma ItemParts(wanted: Bits, clear: bool, all: bool)
    requires Clean(wanted)
    ensures var v := ItemValue(wanted, clear, all);
            Plain(v) == wanted && (NeedsAll(v) <==> all) && (ClearsOnExit(v) <==> clear)
  {
    hide ControlBits;
    ControlParts(clear, all);
    SplitItem(wanted, ControlBits(clear, all));
  }

  lemma ItemIsNoUnblocking(wanted: Bits, clear: bool, all: bool)
    requires Clean(wanted)
    ensures !WasUnblocked(ItemValue(wanted, clear, all))
  {
    hide ControlBits;
    ControlParts(clear, all);
    ControlOnly(wanted, ControlBits(clear, all));
  }

  // Reading an item value gives back the request, and it is never taken for an unblocking.
  lemma ItemValueRoundTrip(wanted: Bits, clear: bool, all: bool, current: Bits)
    requires Clean(wanted)
    ensures ItemMatches(ItemValue(wanted, clear, all), current) <==> TestWaitCondition(current, wanted, all)
    ensures ItemClears(ItemValue(wanted, clear, all)) == if clear then wanted else 0
    ensures !WasUnblocked(ItemValue(wanted, clear, all))
  {
    hide ItemValue, NeedsAll, ClearsOnExit, WasUnblocked, Plain, Apart, Within, Clean;
    ItemParts(wanted, clear, all);
    ItemIsNoUnblocking(wanted, clear, all);
    ApartCommutes(current, wanted);
  }

  lemma UnblockingRoundTrip(current: Bits)
    requires Clean(current)
    ensures WasUnblocked(Unblocking(current)) && Plain(Unblocking(current)) == current
  {
  }

  // ---- Sets of bits ----

  lemma WithinBoth(a: Bits, b: Bits)
    requires Within(a, b) && Within(b, a)
    ensures a == b
  {
  }

  lemma WithinTrans(a: Bits, b: Bits, c: Bits)
    requires Within(a, b) && Within(b, c)
    ensures Within(a, c)
  {
  }

  lemma UnionIsUpper(a: Bits, b: Bits)
    ensures Within(a, Union(a, b)) && Within(b, Union(a, b))
  {
  }

  lemma UnionIsLeast(a: Bits, b: Bits, c: Bits)
    requires Within(a, c) && Within(b, c)
    ensures Within(Union(a, b), c)
  {
  }

  lemma NothingWithin(c: Bits)
    ensures Within(0, c)
  {
  }

  // ---- What the test means, bit by bit ----

  predicate OneBit(b: Bits) {
    b != 0 && b & (b - 1) == 0
  }

  function LowestBit(b: Bits): Bits {
    b & !(b - 1)
  }

  lemma LowestIsNonzero(b: Bits)
    requires b != 0
    ensures LowestBit(b) != 0
  {
  }

  lemma LowestIsAlone(b: Bits)
    ensures LowestBit(b) & (LowestBit(b) - 1) == 0
  {
  }

  lemma LowestIsWithin(b: Bits)
    ensures Within(LowestBit(b), b)
  {
  }

  lemma InBoth(bit: Bits, a: Bits, b: Bits)
    requires Within(bit, a & b)
    ensures Within(bit, a) && Within(bit, b)
  {
  }

  lemma InFirstOnly(bit: Bits, a: Bits, b: Bits)
    requires bit != 0 && Within(bit, a & !b)
    ensures Within(bit, a) && !Within(bit, b)
  {
  }

  lemma Shared(bit: Bits, a: Bits, b: Bits)
    requires bit != 0 && Within(bit, a) && Within(bit, b)
    ensures !Apart(b, a)
  {
  }

  ghost predicate HasAll(current: Bits, wanted: Bits) {
    forall bit :: OneBit(bit) && Within(bit, wanted) ==> Within(bit, current)
  }

  ghost predicate HasAny(current: Bits, wanted: Bits) {
    exists bit :: OneBit(bit) && Within(bit, wanted) && Within(bit, current)
  }

  lemma AllMeans(current: Bits, wanted: Bits)
    ensures Within(wanted, current) <==> HasAll(current, wanted)
  {
    hide OneBit, LowestBit;
    if !Within(wanted, current) {
      var missing := LowestOf(wanted & !current);
      InFirstOnly(missing, wanted, current);
    }
    forall bit | Within(wanted, current) && Within(bit, wanted)
      ensures Within(bit, current)
    {
      WithinTrans(bit, wanted, current);
    }
  }

  lemma AnyMeans(current: Bits, wanted: Bits)
    ensures !Apart(current, wanted) <==> HasAny(current, wanted)
  {
    hide LowestBit;
    if !Apart(current, wanted) {
      var common := LowestOf(current & wanted);
      InBoth(common, current, wanted);
    }
    forall bit | OneBit(bit) && Within(bit, wanted) && Within(bit, current)
      ensures !Apart(current, wanted)
    {
      Shared(bit, wanted, current);
    }
  }

  lemma LowestOf(b: Bits) returns (bit: Bits)
    requires b != 0
    ensures bit != 0 && OneBit(bit) && Within(bit, b)
  {
    hide LowestBit;
    LowestIsNonzero(b);
    LowestIsAlone(b);
    LowestIsWithin(b);
    bit := LowestBit(b);
  }

  // The test asks whether each, or whether some, of the wanted bits is set.
  lemma TestMeans(current: Bits, wanted: Bits, all: bool)
    ensures TestWaitCondition(current, wanted, all) <==>
              if all then HasAll(current, wanted) else HasAny(current, wanted)
  {
    hide Within, Apart, HasAll, HasAny;
    AllMeans(current, wanted);
    AnyMeans(current, wanted);
  }

  // A request that is met after clearing bits was met before.
  lemma ClearingMeetsNothing(current: Bits, cleared: Bits, wanted: Bits, all: bool)
    requires TestWaitCondition(Minus(current, cleared), wanted, all)
    ensures TestWaitCondition(current, wanted, all)
  {
  }

  lemma ClearedAreClear(current: Bits, cleared: Bits, part: Bits)
    requires Within(part, cleared)
    ensures Apart(Minus(current, cleared), part)
  {
  }

  lemma ApartIsOutside(a: Bits, other: Bits)
    requires Apart(a, other)
    ensures Within(a, Minus(!0, other))
  {
  }

  lemma OutsideSurvives(now: Bits, cleared: Bits, other: Bits)
    requires Within(cleared, Minus(!0, other))
    ensures Minus(now, cleared) & other == now & other
  {
  }

  lemma CleanMinus(a: Bits, b: Bits)
    requires Clean(a)
    ensures Clean(Minus(a, b))
  {
  }

  lemma CleanUnion(a: Bits, b: Bits)
    requires Clean(a) && Clean(b)
    ensures Clean(Union(a, b))
  {
  }

  lemma CleanIsPlain(a: Bits)
    requires Clean(a)
    ensures Plain(a) == a
  {
  }
}
