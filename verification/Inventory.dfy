/** Inventory records exchanged between workers and the scheduler. */
module Inventory {
  import opened Collections

  /** A digest of 64 lowercase hex digits, read as a number: the lexical order
      of equally long hex strings is the order of the numbers. */
  type Key = nat
  type Rank = nat

  const MAX_COUNTER: int := 0x7FFF_FFFF_FFFF_FFFF
  const MAX_GENERATION_LENGTH: int := 128
  const MAX_INVENTORY_REPORTS: int := 4096
  const DELTA_HISTORY: int := 64
  const GENERATION_HISTORY: int := 64

  datatype Entry = Entry(key: Key, span: int)

  datatype Identity = Identity(generation: string, epoch: int)

  predicate ValidIdentity(id: Identity) {
    0 < |id.generation| <= MAX_GENERATION_LENGTH && 0 <= id.epoch <= MAX_COUNTER
  }

  datatype Checkpoint = Checkpoint(sequence: int, cycle: int, index: int, count: int,
                                   heldCount: int, entries: seq<Entry>)

  datatype Delta = Delta(sequence: int, base: int, added: seq<Entry>, removed: seq<Key>)

  datatype Report = Report(rank: Rank, id: Identity, checkpoint: Checkpoint, delta: Option<Delta>)

  /** Memory and report bounds; `entryBytes` is the charge for one record. */
  datatype Bounds = Bounds(maxBytes: int, entryBytes: int, maxReport: int) {
    predicate Wf() { 0 < entryBytes <= maxBytes && 0 < maxReport }

    function Capacity(): (n: nat)
      requires Wf()
      ensures n >= 1
    { maxBytes / entryBytes }
  }

  /** The byte test that the loops use is the record-count test. */
  lemma FitsIsCapacity(b: Bounds, n: nat)
    requires b.Wf()
    ensures n * b.entryBytes > b.maxBytes <==> n > b.Capacity()
  {
    var q, e := b.Capacity(), b.entryBytes;
    assert b.maxBytes == q * e + b.maxBytes % e;
    if n > q {
      assert n * e >= (q + 1) * e;
    } else {
      assert n * e <= q * e;
    }
  }

  // ---- Python dictionaries: insertion order plus lookup ----

  datatype Dict = Dict(keys: seq<Key>, at: map<Key, int>) {
    ghost predicate Wf() {
      Distinct(keys) && ToSet(keys) == at.Keys
    }

    function Without(gone: set<Key>): Dict {
      Dict(Drop(keys, gone), at - gone)
    }

    function Put(key: Key, span: int): Dict {
      Dict(if key in at then keys else keys + [key], at[key := span])
    }
  }

  const EmptyDict := Dict([], map[])

  function PutAll(d: Dict, items: seq<Entry>): Dict {
    if items == [] then d else PutAll(d, items[..|items| - 1]).Put(items[|items| - 1].key, items[|items| - 1].span)
  }

  function MapOf(items: seq<Entry>): map<Key, int> { PutAll(EmptyDict, items).at }

  lemma WithoutWf(d: Dict, gone: set<Key>)
    requires d.Wf()
    ensures d.Without(gone).Wf()
  {
    DropDistinct(d.keys, gone);
    DropMembers(d.keys, gone);
  }

  lemma WithoutTwice(d: Dict, a: set<Key>, b: set<Key>)
    ensures d.Without(a).Without(b) == d.Without(a + b)
  {
    DropTwice(d.keys, a, b);
    assert d.at - a - b == d.at - (a + b);
  }

  lemma WithoutNothing(d: Dict, gone: set<Key>)
    requires d.Wf() && gone !! d.at.Keys
    ensures d.Without(gone) == d
  {
    DropNothing(d.keys, gone);
    assert d.at - gone == d.at;
  }

  lemma PutWf(d: Dict, key: Key, span: int)
    requires d.Wf()
    ensures d.Put(key, span).Wf()
  {
    if key !in d.at {
      assert ToSet([key]) == {key};
      DistinctAppend(d.keys, [key]);
      ToSetAppend(d.keys, [key]);
    }
  }

  lemma {:induction false} PutAllWf(d: Dict, items: seq<Entry>)
    requires d.Wf()
    ensures PutAll(d, items).Wf()
  {
    if items != [] {
      PutAllWf(d, items[..|items| - 1]);
      PutWf(PutAll(d, items[..|items| - 1]), items[|items| - 1].key, items[|items| - 1].span);
    }
  }

  lemma {:induction false} PutAllMap(d: Dict, items: seq<Entry>)
    ensures PutAll(d, items).at == d.at + MapOf(items)
  {
    if items != [] { PutAllMap(d, items[..|items| - 1]); }
  }

  lemma {:induction false} MapOfKeys(items: seq<Entry>)
    ensures forall k :: k in MapOf(items) <==> exists i :: 0 <= i < |items| && items[i].key == k
    ensures forall k :: k in MapOf(items) ==> Entry(k, MapOf(items)[k]) in items
    ensures |MapOf(items)| <= |items|
  {
    if items != [] {
      var front := items[..|items| - 1];
      MapOfKeys(front);
      assert items == front + [items[|items| - 1]];
      forall k ensures k in MapOf(items) <==> exists i :: 0 <= i < |items| && items[i].key == k {
        if k in MapOf(front) {
          var i :| 0 <= i < |front| && front[i].key == k;
          assert items[i].key == k;
        }
      }
    }
  }

  lemma {:induction false} MapOfDistinct(items: seq<Entry>)
    requires forall i, j :: 0 <= i < j < |items| ==> items[i].key != items[j].key
    ensures |MapOf(items)| == |items|
    ensures forall i :: 0 <= i < |items| ==> items[i].key in MapOf(items) && MapOf(items)[items[i].key] == items[i].span
  {
    if items != [] {
      var front, last := items[..|items| - 1], items[|items| - 1];
      MapOfDistinct(front);
      MapOfKeys(front);
      assert last.key !in MapOf(front);
      assert MapOf(items) == MapOf(front)[last.key := last.span];
      forall i | 0 <= i < |items| ensures items[i].key in MapOf(items) && MapOf(items)[items[i].key] == items[i].span {
        if i < |front| { assert front[i] == items[i]; }
      }
    }
  }

  /** `tuple(sorted(m.items()))`. */
  function Sorted(m: map<Key, int>): seq<Entry> {
    if m.Keys == {} then [] else
      var k := Least(m.Keys);
      [Entry(k, m[k])] + Sorted(m - {k})
  }

  /** `s` lists each item of `m` once, in key order. */
  ghost predicate Listing(s: seq<Entry>, m: map<Key, int>) {
    && |s| == |m|
    && (forall i, j :: 0 <= i < j < |s| ==> s[i].key < s[j].key)
    && (forall i :: 0 <= i < |s| ==> s[i].key in m && m[s[i].key] == s[i].span)
  }

  lemma {:induction false} SortedIsListing(m: map<Key, int>)
    ensures Listing(Sorted(m), m)
  {
    if m.Keys != {} {
      SortedIsListing(m - {Least(m.Keys)});
    }
  }

  lemma ListingIsExact(s: seq<Entry>, m: map<Key, int>)
    requires Listing(s, m)
    ensures MapOf(s) == m
  {
    MapOfDistinct(s);
    MapOfKeys(s);
    SubMapSize(MapOf(s), m);
  }

  // ---- validation ----

  predicate ValidSpan(span: int) { 0 < span <= MAX_COUNTER }

  predicate ValidEntries(entries: seq<Entry>) {
    forall i :: 0 <= i < |entries| ==> ValidSpan(entries[i].span)
  }

  ghost predicate ValidSpans(m: map<Key, int>) {
    forall k :: k in m ==> ValidSpan(m[k])
  }

  function AddedKeys(d: Delta): seq<Key> {
    seq(|d.added|, i requires 0 <= i < |d.added| => d.added[i].key)
  }

  predicate ValidCheckpoint(c: Checkpoint, b: Bounds)
    requires b.Wf()
  {
    && 0 <= c.sequence <= MAX_COUNTER
    && 0 <= c.cycle <= MAX_COUNTER
    && 0 < c.count <= Max(1, c.heldCount)
    && 0 <= c.index < c.count
    && 0 <= c.heldCount <= b.Capacity()
    && |c.entries| <= b.maxReport
    && |c.entries| <= c.heldCount
    && ValidEntries(c.entries)
  }

  predicate ValidDelta(d: Delta, b: Bounds) {
    && 0 <= d.base <= MAX_COUNTER
    && 0 < d.sequence <= MAX_COUNTER
    && d.sequence == d.base + 1
    && ValidEntries(d.added)
    && |d.added| + |d.removed| <= b.maxReport
    && NoRepeats(AddedKeys(d)) && NoRepeats(d.removed)
    && (forall k :: k in AddedKeys(d) ==> k !in d.removed)
  }

  /** Whether `validate_inventory_report` accepts the report. */
  predicate ValidReport(r: Report, b: Bounds)
    requires b.Wf()
  {
    && r.rank < MAX_INVENTORY_REPORTS
    && ValidIdentity(r.id)
    && ValidCheckpoint(r.checkpoint, b)
    && (r.delta.Some? ==> ValidDelta(r.delta.value, b))
  }

  // ---- pages of a checkpoint ----

  /** Python's `items[i * batch : (i + 1) * batch]`. */
  function Page(items: seq<Entry>, batch: nat, i: nat): seq<Entry> {
    items[Min(i * batch, |items|)..Min(i * batch + batch, |items|)]
  }

  function PageCount(n: nat, batch: nat): (count: nat)
    requires batch > 0
    ensures 1 <= count <= Max(1, n)
    ensures n <= count * batch
  {
    var q := (n + batch - 1) / batch;
    PageCountBounds(n, batch);
    Max(1, q)
  }

  lemma Product(a: int, b: int)
    requires a >= 0 && b >= 0
    ensures a * b >= 0
  {
  }

  lemma Expand(n: int, b: int)
    ensures (n - 1) * (b - 1) == n * b - n - b + 1
    ensures (n + 1) * b == n * b + b
  {
  }

  lemma PageCountBounds(n: nat, batch: nat)
    requires batch > 0
    ensures 0 <= (n + batch - 1) / batch <= Max(1, n)
    ensures n <= Max(1, (n + batch - 1) / batch) * batch
  {
    var m := n + batch - 1;
    var q := m / batch;
    assert m == q * batch + m % batch;
    MulMonotone(q, 0, batch);
    MulMonotone(n + 1, q, batch);
    Expand(n, batch);
    if n >= 1 { Product(n - 1, batch - 1); }
  }

  function PageAt(pages: map<int, seq<Entry>>, i: int): seq<Entry> {
    if i in pages then pages[i] else []
  }

  function Flatten(pages: map<int, seq<Entry>>, count: nat): seq<Entry> {
    if count == 0 then [] else Flatten(pages, count - 1) + PageAt(pages, count - 1)
  }

  lemma ConsecutiveSlices(items: seq<Entry>, k: nat, batch: nat)
    ensures items[..Min(k, |items|)] + items[Min(k, |items|)..Min(k + batch, |items|)] == items[..Min(k + batch, |items|)]
  {
  }

  lemma {:induction false} FlattenPages(items: seq<Entry>, batch: nat, pages: map<int, seq<Entry>>, count: nat)
    requires batch > 0
    requires forall i :: 0 <= i < count ==> i in pages && pages[i] == Page(items, batch, i)
    ensures Flatten(pages, count) == items[..Min(count * batch, |items|)]
  {
    if count > 0 {
      var done := (count - 1) * batch;
      assert done + batch == count * batch;
      FlattenPages(items, batch, pages, count - 1);
      ConsecutiveSlices(items, done, batch);
    }
  }

  // ---- deltas ----

  /** What one delta does to an image. */
  function Applied(m: map<Key, int>, d: Delta): map<Key, int> {
    (m - ToSet(d.removed)) + MapOf(d.added)
  }

  function AppliedDict(image: Dict, d: Delta): Dict {
    PutAll(image.Without(ToSet(d.removed)), d.added)
  }

  lemma AppliedDictMap(image: Dict, d: Delta)
    requires image.Wf()
    ensures AppliedDict(image, d).Wf() && AppliedDict(image, d).at == Applied(image.at, d)
  {
    var w := image.Without(ToSet(d.removed));
    WithoutWf(image, ToSet(d.removed));
    PutAllWf(w, d.added);
    PutAllMap(w, d.added);
    assert w.at == image.at - ToSet(d.removed);
  }

  lemma AppliedMonotone(a: map<Key, int>, b: map<Key, int>, d: Delta)
    requires SubMap(a, b)
    ensures SubMap(Applied(a, d), Applied(b, d))
  {
  }
}
