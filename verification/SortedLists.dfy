/** The sequence view of a kernel list kept in item-value order: what vListInsert and
    uxListRemove do to the sequence of (owner, value) pairs.  IntrusiveLists proves that the
    pointer structure implements these functions; the other modules work on the sequences.
 */
module SortedLists {
  import opened Ticks

  // A list item: the object that owns it and the item value it is sorted by.
  datatype Entry = Entry(id: nat, key: nat)

  ghost predicate Distinct<T>(s: seq<T>) {
    forall i, j :: 0 <= i < j < |s| ==> s[i] != s[j]
  }

  function Keys(s: seq<Entry>): (r: seq<nat>)
    ensures |r| == |s|
    ensures forall i :: 0 <= i < |s| ==> r[i] == s[i].key
  {
    seq(|s|, i requires 0 <= i < |s| => s[i].key)
  }

  // Where vListInsert's loop stops: after every leading key that is not larger.
  function InsertPos(keys: seq<nat>, k: nat): (p: nat)
    ensures p <= |keys|
    ensures forall i :: 0 <= i < p ==> keys[i] <= k
    ensures p < |keys| ==> k < keys[p]
  {
    if keys == [] || k < keys[0] then 0 else 1 + InsertPos(keys[1..], k)
  }

  // The two properties InsertPos promises determine the position.
  lemma InsertPosUnique(keys: seq<nat>, k: nat, p: nat)
    requires p <= |keys|
    requires forall i :: 0 <= i < p ==> keys[i] <= k
    requires p < |keys| ==> k < keys[p]
    ensures p == InsertPos(keys, k)
  {
  }

  ghost predicate SortedKeys(keys: seq<nat>) {
    forall i, j :: 0 <= i < j < |keys| ==> keys[i] <= keys[j]
  }

  ghost predicate Sorted(s: seq<Entry>) {
    forall i, j :: 0 <= i < j < |s| ==> s[i].key <= s[j].key
  }

  function InsertSorted(s: seq<Entry>, e: Entry): (r: seq<Entry>)
    ensures forall x :: x in r <==> x == e || x in s
  {
    var p := InsertPos(Keys(s), e.key);
    assert forall x :: x in s <==> x in s[..p] || x in s[p..] by {
      assert s == s[..p] + s[p..];
    }
    s[..p] + [e] + s[p..]
  }

  lemma InsertKeepsSorted(s: seq<Entry>, e: Entry)
    requires Sorted(s)
    ensures Sorted(InsertSorted(s, e))
  {
    var p := InsertPos(Keys(s), e.key);
    if p < |s| {
      assert e.key < Keys(s)[p] == s[p].key;
    }
    forall i | 0 <= i < p
      ensures s[i].key <= e.key
    {
      assert Keys(s)[i] <= e.key;
    }
  }

  // ---- At most one item per owner ----

  ghost predicate HasId(s: seq<Entry>, id: nat) {
    exists e :: e in s && e.id == id
  }

  ghost predicate UniqueIds(s: seq<Entry>) {
    forall i, j :: 0 <= i < j < |s| ==> s[i].id != s[j].id
  }

  lemma InsertKeepsUnique(s: seq<Entry>, e: Entry)
    requires UniqueIds(s) && !HasId(s, e.id)
    ensures UniqueIds(InsertSorted(s, e))
  {
    var p := InsertPos(Keys(s), e.key);
    forall i | 0 <= i < |s|
      ensures s[i].id != e.id
    {
      assert s[i] in s;
    }
  }

  // Removing the item owned by `id`, wherever it is (uxListRemove).
  function Without(s: seq<Entry>, id: nat): (r: seq<Entry>)
    ensures forall e :: e in r <==> e in s && e.id != id
  {
    if s == [] then []
    else if s[0].id == id then Without(s[1..], id)
    else [s[0]] + Without(s[1..], id)
  }

  lemma {:induction false} WithoutKeepsUnique(s: seq<Entry>, id: nat)
    requires UniqueIds(s)
    ensures UniqueIds(Without(s, id))
  {
    if s != [] {
      var rest := Without(s[1..], id);
      WithoutKeepsUnique(s[1..], id);
      forall j | 0 <= j < |rest|
        ensures s[0].id != rest[j].id
      {
        assert rest[j] in s[1..];
      }
    }
  }

  lemma {:induction false} WithoutKeepsSorted(s: seq<Entry>, id: nat)
    requires Sorted(s)
    ensures Sorted(Without(s, id))
  {
    if s != [] {
      var rest := Without(s[1..], id);
      WithoutKeepsSorted(s[1..], id);
      forall j | 0 <= j < |rest|
        ensures s[0].key <= rest[j].key
      {
        assert rest[j] in s[1..];
      }
    }
  }

  // The list as the kernel stores it, its item values truncated to ticks.
  function TickList(s: seq<Entry>): (r: seq<Entry>)
    ensures |r| == |s|
    ensures forall i :: 0 <= i < |s| ==> r[i] == Entry(s[i].id, Tick(s[i].key))
  {
    seq(|s|, i requires 0 <= i < |s| => Entry(s[i].id, Tick(s[i].key)))
  }

  ghost predicate InEpoch(s: seq<Entry>, epoch: nat) {
    forall e :: e in s ==> Epoch(e.key) == epoch
  }

  lemma TickOrder(s: seq<Entry>, k: nat, i: nat)
    requires InEpoch(s, Epoch(k)) && i < |s|
    ensures Keys(TickList(s))[i] <= Tick(k) <==> Keys(s)[i] <= k
  {
    assert s[i] in s;
    SameEpochOrder(s[i].key, k);
  }

  lemma InsertPosByTick(s: seq<Entry>, k: nat)
    requires InEpoch(s, Epoch(k))
    ensures InsertPos(Keys(TickList(s)), Tick(k)) == InsertPos(Keys(s), k)
  {
    forall i: nat | i < |s|
      ensures Keys(TickList(s))[i] <= Tick(k) <==> Keys(s)[i] <= k
    {
      TickOrder(s, k, i);
    }
    InsertPosUnique(Keys(TickList(s)), Tick(k), InsertPos(Keys(s), k));
  }

  // Inserting by tick and inserting by true time agree on a list that spans one epoch.
  lemma InsertByTick(s: seq<Entry>, e: Entry)
    requires InEpoch(s, Epoch(e.key))
    ensures TickList(InsertSorted(s, e)) == InsertSorted(TickList(s), Entry(e.id, Tick(e.key)))
  {
    InsertPosByTick(s, e.key);
    var p := InsertPos(Keys(s), e.key);
    assert TickList(s)[..p] == TickList(s[..p]);
    assert TickList(s)[p..] == TickList(s[p..]);
  }

  lemma {:induction false} WithoutByTick(s: seq<Entry>, id: nat)
    ensures TickList(Without(s, id)) == Without(TickList(s), id)
  {
    if s != [] {
      var head := Entry(s[0].id, Tick(s[0].key));
      WithoutByTick(s[1..], id);
      assert TickList(s) == [head] + TickList(s[1..]);
      if s[0].id != id {
        assert TickList(Without(s, id)) == [head] + TickList(Without(s[1..], id));
      }
    }
  }
}
