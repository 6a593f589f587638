/** The catalog object: it keeps a reverse index and a memoised count in step
    with the rank images, and moves exactly as the view does. */
module QuorumCatalogs {
  import opened Collections
  import opened Inventory
  import opened Catalog
  import opened CatalogIndex
  import opened CatalogSteps

  class QuorumCatalog {
    const expected: set<Rank>
    const bounds: Bounds
    /** The dictionaries and sets keyed by rank, as one record per rank. */
    var ranks: map<Rank, RankState>
    var entryRanks: map<Key, set<Rank>>
    var recency: seq<Key>
    var changes: int
    var quorumCount: Option<nat>

    function Content(): View
      reads this
    {
      View(bounds, ranks, recency, changes)
    }

    /** The catalog shows the view `v`, its index is the exact inverse of the
        images, and a memoised count is the true one. */
    ghost predicate Tracks(v: View)
      reads this
    {
      && Content() == v
      && entryRanks == Index(ImagesOf(v))
      && (quorumCount.Some? ==> quorumCount.value == |QuorumKeys(ImagesOf(v))|)
    }

    ghost predicate Valid()
      reads this
    {
      expected != {} && ranks.Keys == expected && Tracks(Content()) && Wf(Content())
    }

    constructor (expected: set<Rank>, bounds: Bounds)
      requires expected != {} && bounds.Wf()
      ensures Valid() && this.expected == expected && Content() == Unheard(expected, bounds)
    {
      this.expected, this.bounds := expected, bounds;
      ranks := map q | q in expected :: NoRecord;
      entryRanks, recency, changes, quorumCount := map[], [], 0, None;
      new;
      UnheardFacts(expected, bounds);
    }

    // ---- the reverse index ----

    /** Removes one key of rank `r` from the index. */
    method Unlist(r: Rank, key: Key)
      requires key in entryRanks
      modifies this`entryRanks, this`recency
      ensures var left := old(entryRanks)[key] - {r};
        entryRanks == (if left == {} then old(entryRanks) - {key} else old(entryRanks)[key := left])
        && recency == (if left == {} then Drop(old(recency), {key}) else old(recency))
    {
      var left := entryRanks[key] - {r};
      if left == {} {
        entryRanks := entryRanks - {key};
        recency := Drop(recency, {key});
      } else {
        entryRanks := entryRanks[key := left];
      }
    }

    /** Removes every key of the image `d` of rank `r` from the index. */
    method UnlistAll(r: Rank, d: Dict, ghost images: Images)
      requires r in images && images[r] == d && d.Wf() && entryRanks == Index(images)
      modifies this`entryRanks, this`recency
      ensures entryRanks == Index(images[r := EmptyDict])
      ensures recency == Drop(old(recency), Advertised(images) - Advertised(images[r := EmptyDict]))
    {
      var n := 0;
      ghost var before := recency;
      UnlistStart(images, r, before);
      while n < |d.keys|
        invariant 0 <= n <= |d.keys|
        invariant entryRanks == Index(images[r := d.Without(ToSet(d.keys[..n]))])
        invariant recency == Drop(before, Advertised(images) - Advertised(images[r := d.Without(ToSet(d.keys[..n]))]))
      {
        UnlistStep(images, r, d, n, before);
        Unlist(r, d.keys[n]);
        n := n + 1;
      }
      WithoutAll(d);
      assert d.keys[..n] == d.keys;
    }

    /** Lists the keys of `d` under rank `r`, newest last. */
    method Announce(r: Rank, d: Dict, ghost images: Images)
      requires r in images && d.Wf() && entryRanks == Index(images[r := EmptyDict])
      modifies this`entryRanks, this`recency
      ensures entryRanks == Index(images[r := d])
      ensures recency == Drop(old(recency), d.at.Keys) + d.keys
    {
      var n := 0;
      ghost var before := recency;
      DropNothing(before, {});
      assert ToSet(d.keys[..0]) == {} && Prefix(d, 0) == EmptyDict;
      while n < |d.keys|
        invariant 0 <= n <= |d.keys|
        invariant entryRanks == Index(images[r := Prefix(d, n)])
        invariant recency == Drop(before, ToSet(d.keys[..n])) + d.keys[..n]
      {
        var k := d.keys[n];
        ListStep(images, r, d, n);
        TouchStep(before, d.keys, n);
        entryRanks := entryRanks[k := (if k in entryRanks then entryRanks[k] else {}) + {r}];
        recency := Drop(recency, {k}) + [k];
        n := n + 1;
      }
      assert d.keys[..n] == d.keys && ToSet(d.keys) == d.at.Keys && Prefix(d, n) == d;
    }

    // ---- eviction ----

    /** Removes `key` from the images of `holders`. */
    method Evict(key: Key, holders: set<Rank>)
      requires holders <= ranks.Keys
      requires forall q :: q in ranks && q !in holders ==> ranks[q].image.Without({key}) == ranks[q].image
      modifies this`ranks
      ensures ranks == Trimmed(old(ranks), {key})
    {
      var left := holders;
      while left != {}
        invariant left <= holders && ranks.Keys == old(ranks).Keys
        invariant forall q :: q in old(ranks) ==>
          ranks[q] == if q in holders - left then old(ranks)[q].(image := old(ranks)[q].image.Without({key})) else old(ranks)[q]
        decreases left
      {
        var q :| q in left;
        ranks := ranks[q := ranks[q].(image := ranks[q].image.Without({key}))];
        left := left - {q};
      }
    }

    method Exceeds(n: nat) returns (over: bool)
      requires bounds.Wf()
      ensures over <==> n > bounds.Capacity()
    {
      FitsIsCapacity(bounds, n);
      over := n * bounds.entryBytes > bounds.maxBytes;
    }

    /** Evicts oldest keys until the bound holds, along the given stages. */
    method DropOldest(ghost stages: seq<Stage>)
      requires bounds.Wf() && Staged(stages, bounds.Capacity())
      requires Stage(ranks, entryRanks, recency) == stages[0] && quorumCount.None?
      modifies this`quorumCount, this`entryRanks, this`recency, this`ranks
      ensures quorumCount.None? && Stage(ranks, entryRanks, recency) == stages[|stages| - 1]
    {
      ghost var n := 0;
      var over := Exceeds(|entryRanks|);
      while over && recency != []
        invariant 0 <= n < |stages| && Stage(ranks, entryRanks, recency) == stages[n]
        invariant over <==> |entryRanks| > bounds.Capacity()
        invariant quorumCount.None?
        decreases |recency|
      {
        assert n < |stages| - 1 && Evicts(stages[n], stages[n + 1]);
        quorumCount := None;
        var key := recency[0];
        recency := recency[1..];
        var holders := entryRanks[key];
        entryRanks := entryRanks - {key};
        Evict(key, holders);
        n := n + 1;
        over := Exceeds(|entryRanks|);
      }
    }

    method EnforceBound(ghost v: View)
      requires Tracks(v) && Enforceable(v) && quorumCount.None?
      modifies this`quorumCount, this`entryRanks, this`recency, this`ranks
      ensures Tracks(Enforced(v))
    {
      ghost var stages := EvictionStages(v);
      DropOldest(stages);
    }

    // ---- steps of a rank ----

    /** Changes the records of a rank other than its image. */
    method Note(r: Rank, s: RankState, ghost v: View)
      requires Tracks(v) && r in v.ranks && s.image == v.ranks[r].image
      modifies this`ranks
      ensures Tracks(With(v, r, s))
    {
      ImagesAt(ranks, r, s);
      ImagesKept(ImagesOf(v), r);
      ranks := ranks[r := s];
    }

    method WithdrawRank(r: Rank, ghost v: View)
      requires Tracks(v) && r in v.ranks && v.ranks[r].image.Wf()
      modifies this`quorumCount, this`entryRanks, this`recency, this`ranks
      ensures Tracks(Withdrawn(v, r)) && quorumCount.None?
    {
      quorumCount := None;
      UnlistAll(r, ranks[r].image, ImagesOf(v));
      ImagesAt(ranks, r, ranks[r].(image := EmptyDict));
      ranks := ranks[r := ranks[r].(image := EmptyDict)];
    }

    method ReplaceRank(r: Rank, d: Dict, ghost v: View)
      requires Tracks(v) && Open(v, r) && WfDict(d)
      modifies this`quorumCount, this`entryRanks, this`recency, this`ranks
      ensures Tracks(Replaced(v, r, d))
    {
      ImageWf(v, r);
      WithdrawRank(r, v);
      ImagesAt(ranks, r, ranks[r].(image := d, desync := false));
      ImagesEmptied(v, r);
      Announce(r, d, ImagesIn(ranks));
      ranks := ranks[r := ranks[r].(image := d, desync := false)];
      WithdrawThenAdvertise(v, r, d);
      EnforceBound(Advertise(Withdrawn(v, r), r, d));
    }

    /** Withdraws the rank until a complete checkpoint arrives. */
    method Distrust(r: Rank, ghost v: View)
      requires Tracks(v) && r in v.ranks && v.ranks[r].image.Wf()
      modifies this`quorumCount, this`entryRanks, this`recency, this`ranks
      ensures Tracks(Lost(v, r))
    {
      WithdrawRank(r, v);
      Note(r, ranks[r].(desync := true), Withdrawn(v, r));
    }

    method MarkConflict(r: Rank, ghost v: View)
      requires Tracks(v) && r in v.ranks && v.ranks[r].image.Wf()
      modifies this`quorumCount, this`entryRanks, this`recency, this`ranks, this`changes
      ensures Tracks(Conflicted(v, r))
    {
      var known := ranks[r].conflict;
      WithdrawRank(r, v);
      Note(r, ConflictedRank(ranks[r]), Withdrawn(v, r));
      if !known {
        changes := changes + 1;
      }
    }

    method Adopt(r: Rank, id: Identity, ghost v: View)
      requires Tracks(v) && r in v.ranks && v.ranks[r].image.Wf()
      modifies this`quorumCount, this`entryRanks, this`recency, this`ranks, this`changes
      ensures Tracks(Adopted(v, r, id))
    {
      var previous := ranks[r].generation;
      WithdrawRank(r, v);
      Note(r, AdoptedRank(ranks[r], id), Withdrawn(v, r));
      if previous.Some? && previous.value != id {
        changes := changes + 1;
      }
    }

    /** Orders the packet's identity against the rank's generation. */
    method Identify(r: Rank, id: Identity, ghost v: View) returns (how: Disposition)
      requires Tracks(v) && r in v.ranks && v.ranks[r].image.Wf()
      modifies this`quorumCount, this`entryRanks, this`recency, this`ranks, this`changes
      ensures Tracks(Identified(v, r, id)) && how == DispositionOf(v.ranks[r], id)
    {
      how := DispositionOf(ranks[r], id);
      if how == Conflict {
        MarkConflict(r, v);
      } else if how == Initial || how == Newer {
        Adopt(r, id, v);
      }
    }

    method Advance(r: Rank, sequence: int, d: Dict, ghost v: View)
      requires Tracks(v) && Open(v, r) && WfDict(d)
      modifies this`quorumCount, this`entryRanks, this`recency, this`ranks
      ensures Tracks(Advanced(v, r, sequence, d))
    {
      var s := ranks[r].(sequence := sequence);
      OpenWith(v, r, s);
      Note(r, s, v);
      ReplaceRank(r, d, With(v, r, s));
    }

    // ---- the parts of a report ----

    method ApplyDelta(r: Rank, d: Option<Delta>, ghost v: View)
      requires Tracks(v) && Open(v, r) && (d.Some? ==> ValidEntries(d.value.added))
      modifies this`quorumCount, this`entryRanks, this`recency, this`ranks
      ensures Tracks(AfterDelta(v, r, d))
    {
      ImageWf(v, r);
      if d.Some? && !ranks[r].desync {
        var delta, current := d.value, ranks[r].sequence;
        if delta.base == current && delta.sequence == current + 1 {
          DeltaImage(ranks[r].image, delta);
          var image := UpdatedImage(ranks[r].image, delta);
          Advance(r, delta.sequence, image, v);
        } else if delta.sequence > current {
          Distrust(r, v);
        }
      }
    }

    method ApplyGap(r: Rank, c: Checkpoint, ghost v: View)
      requires Tracks(v) && Open(v, r)
      modifies this`quorumCount, this`entryRanks, this`recency, this`ranks
      ensures Tracks(AfterGap(v, r, c))
    {
      ImageWf(v, r);
      if !ranks[r].desync && c.sequence > ranks[r].sequence {
        Distrust(r, v);
      }
    }

    /** All pages have arrived and the rank no longer has a pending checkpoint. */
    method Complete(r: Rank, p: Pending, ghost v: View)
      requires Tracks(v) && Open(v, r)
      requires 0 < p.count && forall i :: 0 <= i < p.count ==> i in p.pages
      requires forall i :: i in p.pages ==> ValidEntries(p.pages[i])
      modifies this`quorumCount, this`entryRanks, this`recency, this`ranks
      ensures Tracks(Completed(v, r, p))
    {
      ImageWf(v, r);
      FlatImage(p.pages, p.count);
      var flat := Flattened(p.pages, p.count);
      if p.sequence >= ranks[r].sequence {
        var image := Materialized(flat);
        if |flat| != p.heldCount || |image.at| != |flat| {
          Distrust(r, v);
        } else {
          Advance(r, p.sequence, image, v);
        }
      }
    }

    method ApplyPage(r: Rank, c: Checkpoint, ghost v: View)
      requires Tracks(v) && Open(v, r) && ValidEntries(c.entries)
      modifies this`quorumCount, this`entryRanks, this`recency, this`ranks
      ensures Tracks(AfterPage(v, r, c))
    {
      var p := ranks[r].pending;
      var q := if p.Some? && p.value.cycle == c.cycle && p.value.sequence == c.sequence
               then p.value else Pending(c.sequence, c.cycle, c.count, c.heldCount, map[], 0);
      var projected := q.entryCount - |PageAt(q.pages, c.index)| + |c.entries|;
      if !(0 < c.count && 0 <= c.index < c.count && c.count == q.count && c.heldCount == q.heldCount
           && projected <= q.heldCount) {
        OpenWith(v, r, ranks[r].(pending := None));
        Note(r, ranks[r].(pending := None), v);
        ImageWf(DropPending(v, r), r);
        Distrust(r, DropPending(v, r));
        return;
      }
      PageFacts(v, r, c);
      q := q.(pages := q.pages[c.index := c.entries], entryCount := projected);
      if |q.pages| == q.count {
        Note(r, ranks[r].(pending := None), v);
        Complete(r, q, DropPending(v, r));
      } else {
        Note(r, ranks[r].(pending := Some(q)), v);
      }
    }

    method ApplyBody(r: Rank, d: Option<Delta>, c: Checkpoint, ghost v: View)
      requires Tracks(v) && Open(v, r) && ValidEntries(c.entries) && (d.Some? ==> ValidEntries(d.value.added))
      modifies this`quorumCount, this`entryRanks, this`recency, this`ranks
      ensures Tracks(AfterBody(v, r, d, c))
    {
      DeltaStep(v, r, d);
      ApplyDelta(r, d, v);
      GapStep(AfterDelta(v, r, d), r, c);
      ApplyGap(r, c, AfterDelta(v, r, d));
      ApplyPage(r, c, AfterGap(AfterDelta(v, r, d), r, c));
    }

    method ApplyTracked(rep: Report, ghost v: View)
      requires Tracks(v) && Wf(v) && rep.rank in v.ranks
      modifies this`quorumCount, this`entryRanks, this`recency, this`ranks, this`changes
      ensures Tracks(AfterReport(v, rep))
    {
      var r := rep.rank;
      ImageWf(v, r);
      if !ValidIdentity(rep.id) {
        MarkConflict(r, v);
        return;
      }
      IdentifiedFacts(v, r, rep.id);
      var how := Identify(r, rep.id, v);
      if how == Stale || how == Conflict {
        return;
      }
      ghost var w := Identified(v, r, rep.id);
      if !ValidReport(rep, bounds) {
        ImageWf(w, r);
        Distrust(r, w);
        Note(r, ranks[r].(pending := None), Lost(w, r));
      } else {
        ApplyBody(r, rep.delta, rep.checkpoint, w);
      }
    }

    method StartTracked(r: Rank, id: Identity, entries: seq<Entry>, ghost v: View) returns (raised: bool)
      requires Tracks(v) && Wf(v) && r in v.ranks
      modifies this`quorumCount, this`entryRanks, this`recency, this`ranks, this`changes
      ensures Tracks(AfterStartup(v, r, id, entries))
      ensures raised <==> (!ValidIdentity(id) ||
        (DispositionOf(v.ranks[r], id) in {Initial, Newer} && !AcceptableStartup(entries, v.bounds)))
    {
      ImageWf(v, r);
      raised := !ValidIdentity(id);
      if raised {
        MarkConflict(r, v);
        return;
      }
      IdentifiedFacts(v, r, id);
      var how := Identify(r, id, v);
      if how != Initial && how != Newer {
        return;
      }
      var over := Exceeds(|entries|);
      raised := !ValidEntries(entries) || over;
      if !raised {
        StartupImage(entries);
        var image := Materialized(entries);
        raised := |image.at| != |entries|;
        if !raised {
          ReplaceRank(r, image, Identified(v, r, id));
        }
      }
    }

    // ---- public calls ----

    /** One packet, honest or malformed, moves the catalog as the view moves. */
    method ApplyReport(rep: Report) returns (raised: bool)
      requires Valid()
      modifies this
      ensures Valid()
      ensures raised <==> rep.rank !in expected || !ValidIdentity(rep.id)
      ensures Content() == if rep.rank in expected then AfterReport(old(Content()), rep) else old(Content())
    {
      if rep.rank !in expected {
        return true;
      }
      ReportStep(Content(), rep);
      raised := !ValidIdentity(rep.id);
      ApplyTracked(rep, Content());
    }

    method ApplyStartup(r: Rank, id: Identity, entries: seq<Entry>) returns (raised: bool)
      requires Valid()
      modifies this
      ensures Valid()
      ensures Content() == if r in expected then AfterStartup(old(Content()), r, id, entries) else old(Content())
      ensures raised <==> (r !in expected || !ValidIdentity(id) ||
        (DispositionOf(old(ranks)[r], id) in {Initial, Newer} && !AcceptableStartup(entries, bounds)))
    {
      if r !in expected {
        return true;
      }
      StartupStep(Content(), r, id, entries);
      raised := StartTracked(r, id, entries, Content());
    }

    ghost predicate Indexed()
      reads this
    {
      expected != {} && ranks.Keys == expected && entryRanks == Index(ImagesIn(ranks))
    }

    /** Exactly the keys that every expected rank advertises with one span. */
    method HasQuorum(key: Key, span: Option<int>) returns (yes: bool)
      requires Indexed()
      ensures yes <==> if span.Some? then Quorum(ImagesIn(ranks), key, span.value) else AnyQuorum(ImagesIn(ranks), key)
    {
      IndexLookup(ImagesIn(ranks), key);
      yes := key in entryRanks && entryRanks[key] == expected;
      if yes {
        var spans := set q | q in expected :: ranks[q].image.at[key];
        UniformSpans(ImagesIn(ranks), key, spans);
        yes := |spans| == 1 && (span.Some? ==> span.value in spans);
      } else {
        MissingHolder(ImagesIn(ranks), key);
      }
    }

    method CountQuorum() returns (n: nat)
      requires Indexed()
      ensures n == |QuorumKeys(ImagesIn(ranks))|
    {
      var left := entryRanks.Keys;
      n := 0;
      ghost var all := QuorumKeys(ImagesIn(ranks));
      assert all - left == {};
      while left != {}
        invariant left <= Advertised(ImagesIn(ranks)) && n == |all - left|
        decreases left
      {
        var key :| key in left;
        var yes := HasQuorum(key, None);
        CountOne(all, left, key);
        left := left - {key};
        n := if yes then n + 1 else n;
      }
      assert all - left == all;
    }

    /** The memoised count is recomputed only when it was dropped. */
    method QuorumCount() returns (n: nat)
      requires Valid()
      modifies this`quorumCount
      ensures Valid() && Content() == old(Content()) && n == |QuorumKeys(ImagesOf(Content()))|
      ensures quorumCount == Some(n) && (old(quorumCount).Some? ==> quorumCount == old(quorumCount))
    {
      if quorumCount.None? {
        var count := CountQuorum();
        quorumCount := Some(count);
      }
      n := quorumCount.value;
    }
  }

  // ---- local computations ----

  method UpdatedImage(image: Dict, d: Delta) returns (u: Dict)
    requires image.Wf()
    ensures u == AppliedDict(image, d)
  {
    u := image;
    var n := 0;
    assert ToSet(d.removed[..0]) == {};
    WithoutNothing(image, {});
    while n < |d.removed|
      invariant 0 <= n <= |d.removed| && u == image.Without(ToSet(d.removed[..n]))
    {
      WithoutTwice(image, ToSet(d.removed[..n]), {d.removed[n]});
      PrefixStep(d.removed, n);
      u := u.Without({d.removed[n]});
      n := n + 1;
    }
    assert d.removed[..n] == d.removed;
    ghost var base := u;
    n := 0;
    while n < |d.added|
      invariant 0 <= n <= |d.added| && u == PutAll(base, d.added[..n])
    {
      assert d.added[..n + 1][..n] == d.added[..n];
      u := u.Put(d.added[n].key, d.added[n].span);
      n := n + 1;
    }
    assert d.added[..n] == d.added;
  }

  method Flattened(pages: map<int, seq<Entry>>, count: nat) returns (flat: seq<Entry>)
    requires forall i :: 0 <= i < count ==> i in pages
    ensures flat == Flatten(pages, count)
  {
    flat := [];
    var index := 0;
    while index < count
      invariant 0 <= index <= count && flat == Flatten(pages, index)
    {
      flat := flat + pages[index];
      index := index + 1;
    }
  }

  method Materialized(items: seq<Entry>) returns (image: Dict)
    ensures image == PutAll(EmptyDict, items) && image.at == MapOf(items)
  {
    image := EmptyDict;
    var n := 0;
    while n < |items|
      invariant 0 <= n <= |items| && image == PutAll(EmptyDict, items[..n])
    {
      assert items[..n + 1][..n] == items[..n];
      image := image.Put(items[n].key, items[n].span);
      n := n + 1;
    }
    assert items[..n] == items;
  }

  // ---- loop steps ----

  function Prefix(d: Dict, n: nat): Dict
    requires n <= |d.keys|
  {
    Dict(d.keys[..n], map k | k in d.keys[..n] && k in d.at :: d.at[k])
  }

  lemma WithoutAll(d: Dict)
    requires d.Wf()
    ensures d.Without(ToSet(d.keys)) == EmptyDict
  {
    DropAll(d.keys, ToSet(d.keys));
    assert d.at - ToSet(d.keys) == map[];
  }

  lemma UnlistStep(images: Images, r: Rank, d: Dict, n: nat, recency: seq<Key>)
    requires r in images && images[r] == d && d.Wf() && n < |d.keys|
    ensures var cur := images[r := d.Without(ToSet(d.keys[..n]))];
      var next := images[r := d.Without(ToSet(d.keys[..n + 1]))];
      var k := d.keys[n];
      && k in Index(cur)
      && Index(next) == (if Index(cur)[k] - {r} == {} then Index(cur) - {k} else Index(cur)[k := Index(cur)[k] - {r}])
      && Drop(recency, Advertised(images) - Advertised(next)) ==
         (if Index(cur)[k] - {r} == {} then Drop(Drop(recency, Advertised(images) - Advertised(cur)), {k})
          else Drop(recency, Advertised(images) - Advertised(cur)))
  {
    var a, k := ToSet(d.keys[..n]), d.keys[n];
    var cur, next := images[r := d.Without(a)], images[r := d.Without(ToSet(d.keys[..n + 1]))];
    DistinctSplit(d.keys, n);
    assert d.keys[..n + 1] == d.keys[..n] + [k];
    ToSetAppend(d.keys[..n], [k]);
    assert ToSet([k]) == {k} && k in ToSet(d.keys);
    WithoutTwice(d, a, {k});
    assert cur[r := cur[r].Without({k})] == next;
    IndexWithoutKey(cur, r, k);
    IndexKeys(cur);
    IndexKeys(next);
    var gone := Advertised(images) - Advertised(cur);
    if Index(cur)[k] - {r} == {} {
      assert k in Advertised(images) by { assert k in images[r].at; }
      assert Advertised(images) - Advertised(next) == gone + {k};
      DropTwice(recency, gone, {k});
    } else {
      assert Advertised(next) == Advertised(cur);
    }
  }

  lemma ListStep(images: Images, r: Rank, d: Dict, n: nat)
    requires r in images && d.Wf() && n < |d.keys|
    ensures var cur, k := images[r := Prefix(d, n)], d.keys[n];
      Index(images[r := Prefix(d, n + 1)]) ==
      Index(cur)[k := (if k in Index(cur) then Index(cur)[k] else {}) + {r}]
  {
    var cur, k := images[r := Prefix(d, n)], d.keys[n];
    assert d.keys[..n + 1] == d.keys[..n] + [k];
    DistinctSplit(d.keys, n);
    assert k in ToSet(d.keys) && k !in Prefix(d, n).at;
    assert Prefix(d, n + 1) == Prefix(d, n).Put(k, d.at[k]);
    assert cur[r := Prefix(d, n + 1)] == images[r := Prefix(d, n + 1)];
    IndexWithKey(cur, r, k, d.at[k]);
  }

  lemma TouchStep(before: seq<Key>, keys: seq<Key>, n: nat)
    requires Distinct(keys) && n < |keys|
    ensures Drop(Drop(before, ToSet(keys[..n])) + keys[..n], {keys[n]}) + [keys[n]] ==
            Drop(before, ToSet(keys[..n + 1])) + keys[..n + 1]
  {
    var a, k, front := ToSet(keys[..n]), keys[n], keys[..n];
    DistinctSplit(keys, n);
    assert keys[..n + 1] == front + [k];
    ToSetAppend(front, [k]);
    assert ToSet([k]) == {k};
    MoveToEnd(before, a, front, k);
  }

  lemma MoveToEnd(before: seq<Key>, a: set<Key>, front: seq<Key>, k: Key)
    requires k !in ToSet(front)
    ensures Drop(Drop(before, a) + front, {k}) + [k] == Drop(before, a + {k}) + (front + [k])
  {
    DropAppend(Drop(before, a), front, {k});
    DropTwice(before, a, {k});
    DropNothing(front, {k});
  }

  lemma UnlistStart(images: Images, r: Rank, recency: seq<Key>)
    requires r in images && images[r].Wf()
    ensures images[r := images[r].Without(ToSet(images[r].keys[..0]))] == images
    ensures Drop(recency, Advertised(images) - Advertised(images)) == recency
  {
    assert ToSet(images[r].keys[..0]) == {};
    WithoutNothing(images[r], {});
    DropNothing(recency, Advertised(images) - Advertised(images));
  }

  lemma ImageWf(v: View, q: Rank)
    requires WfRanks(v) && q in v.ranks
    ensures ImagesOf(v)[q].Wf()
  {
    assert WfRank(v.ranks[q]);
  }

  lemma TrimNothing(v: View)
    requires WfRanks(v)
    ensures Trimmed(v.ranks, ToSet(v.recency[..0])) == v.ranks
  {
    assert ToSet(v.recency[..0]) == {};
    forall q | q in v.ranks ensures v.ranks[q].image.Without({}) == v.ranks[q].image {
      ImageWf(v, q);
      WithoutNothing(v.ranks[q].image, {});
    }
  }

  lemma TrimTwice(ranks: map<Rank, RankState>, a: set<Key>, b: set<Key>)
    ensures Trimmed(Trimmed(ranks, a), b) == Trimmed(ranks, a + b)
  {
    forall q | q in ranks ensures ranks[q].image.Without(a).Without(b) == ranks[q].image.Without(a + b) {
      WithoutTwice(ranks[q].image, a, b);
    }
  }

  lemma TrimmedImages(ranks: map<Rank, RankState>, gone: set<Key>)
    ensures ImagesIn(Trimmed(ranks, gone)) == WithoutEverywhere(ImagesIn(ranks), gone)
  {
  }

  lemma ImagesAt(ranks: map<Rank, RankState>, r: Rank, s: RankState)
    ensures ImagesIn(ranks[r := s]) == ImagesIn(ranks)[r := s.image]
  {
  }

  lemma ImagesKept(images: Images, r: Rank)
    requires r in images
    ensures images[r := images[r]] == images
  {
  }

  lemma ImagesEmptied(v: View, r: Rank)
    requires r in v.ranks
    ensures ImagesOf(Withdrawn(v, r))[r := EmptyDict] == ImagesOf(Withdrawn(v, r))
    ensures r in ImagesOf(Withdrawn(v, r))
  {
    ImagesKept(ImagesOf(Withdrawn(v, r)), r);
  }

  lemma OpenWith(v: View, r: Rank, s: RankState)
    requires Open(v, r) && WfRank(s) && s.image == v.ranks[r].image && s.generation.Some? && !s.conflict
    ensures Open(With(v, r, s), r)
  {
    WithFacts(v, r, s);
  }

  lemma PageFacts(v: View, r: Rank, c: Checkpoint)
    requires Open(v, r) && ValidEntries(c.entries) && Acceptable(Collecting(v.ranks[r].pending, c), c)
    ensures Open(DropPending(v, r), r)
    ensures var q := WithPage(Collecting(v.ranks[r].pending, c), c);
      && 0 < q.count && (forall i :: i in q.pages ==> ValidEntries(q.pages[i]))
      && (|q.pages| == q.count ==> forall i :: 0 <= i < q.count ==> i in q.pages)
  {
    OpenWith(v, r, v.ranks[r].(pending := None));
    CollectingFacts(v.ranks[r].pending, c);
    var q := WithPage(Collecting(v.ranks[r].pending, c), c);
    PagesBelow(q.pages, q.count);
  }

  lemma UniformSpans(images: Images, key: Key, spans: set<int>)
    requires images != map[] && forall q :: q in images ==> key in images[q].at
    requires spans == set q | q in images :: images[q].at[key]
    ensures |spans| == 1 <==> AnyQuorum(images, key)
    ensures forall span :: |spans| == 1 && span in spans <==> Quorum(images, key, span)
  {
    var q0 :| q0 in images;
    var x := images[q0].at[key];
    assert x in spans;
    if |spans| == 1 {
      assert spans == {x} by { SubsetSameSize({x}, spans); }
      assert forall q :: q in images ==> images[q].at[key] in spans;
      assert Quorum(images, key, x);
    }
    forall span | Quorum(images, key, span) ensures spans == {span} {
      assert forall y :: y in spans <==> y == span;
    }
  }

  lemma MissingHolder(images: Images, key: Key)
    requires images != map[] && Holders(images, key) != images.Keys
    ensures !AnyQuorum(images, key)
    ensures forall span :: !Quorum(images, key, span)
  {
    var q :| q in images && key !in images[q].at;
  }

  lemma CountOne(all: set<Key>, left: set<Key>, key: Key)
    requires key in left
    ensures |all - (left - {key})| == |all - left| + if key in all then 1 else 0
  {
    if key in all {
      assert all - (left - {key}) == (all - left) + {key};
    } else {
      assert all - (left - {key}) == all - left;
    }
  }

  lemma NonHolder(v: View, gone: set<Key>, q: Rank, k: Key)
    requires WfRanks(v) && q in v.ranks && k !in ImagesOf(v)[q].Without(gone).at
    ensures ImagesOf(v)[q].Without(gone).Without({k}) == ImagesOf(v)[q].Without(gone)
  {
    ImageWf(v, q);
    WithoutWf(ImagesOf(v)[q], gone);
    WithoutNothing(ImagesOf(v)[q].Without(gone), {k});
  }

  /** The loop's variables at one moment of an eviction. */
  datatype Stage = Stage(ranks: map<Rank, RankState>, index: map<Key, set<Rank>>, recency: seq<Key>)

  /** One turn: the oldest key leaves the index and every image. */
  ghost predicate Evicts(s: Stage, t: Stage) {
    && s.recency != [] && t.recency == s.recency[1..]
    && s.recency[0] in s.index && s.index[s.recency[0]] <= s.ranks.Keys
    && t.index == s.index - {s.recency[0]}
    && t.ranks == Trimmed(s.ranks, {s.recency[0]})
    && (forall q :: q in s.ranks && q !in s.index[s.recency[0]] ==>
          s.ranks[q].image.Without({s.recency[0]}) == s.ranks[q].image)
  }

  ghost predicate Staged(stages: seq<Stage>, capacity: nat) {
    && stages != []
    && (forall n :: 0 <= n < |stages| ==> |stages[n].index| == |stages[n].recency|)
    && (forall n :: 0 <= n < |stages| - 1 ==> |stages[n].index| > capacity && Evicts(stages[n], stages[n + 1]))
    && |stages[|stages| - 1].index| <= capacity
  }

  ghost function StageOf(v: View, n: nat): Stage
    requires n <= |v.recency|
  {
    var ranks := Trimmed(v.ranks, ToSet(v.recency[..n]));
    Stage(ranks, Index(ImagesIn(ranks)), v.recency[n..])
  }

  lemma StageSize(v: View, n: nat)
    requires Enforceable(v) && n <= |v.recency|
    ensures |StageOf(v, n).index| == |v.recency| - n
  {
    TrimmedImages(v.ranks, ToSet(v.recency[..n]));
    EnforcedRecency(ImagesOf(v), v.recency, n);
    RecencySize(v.recency[n..], ImagesIn(StageOf(v, n).ranks));
  }

  lemma EvictStep(v: View, n: nat)
    requires Enforceable(v) && n < |v.recency|
    ensures Evicts(StageOf(v, n), StageOf(v, n + 1))
  {
    var k, gone, s := v.recency[n], ToSet(v.recency[..n]), StageOf(v, n);
    var images := ImagesIn(s.ranks);
    TrimmedImages(v.ranks, gone);
    EnforcedRecency(ImagesOf(v), v.recency, n);
    assert s.recency[0] == k;
    IndexKeys(images);
    IndexLookup(images, k);
    IndexWithoutEverywhere(images, k);
    TrimmedImages(s.ranks, {k});
    PrefixStep(v.recency, n);
    TrimTwice(v.ranks, gone, {k});
    assert k in s.index by { assert k in ToSet(s.recency); }
    forall q | q in s.ranks && q !in s.index[k] ensures s.ranks[q].image.Without({k}) == s.ranks[q].image {
      NonHolder(v, gone, q, k);
    }
  }

  ghost function StagesOf(v: View, excess: nat): seq<Stage>
    requires excess <= |v.recency|
  {
    seq(excess + 1, n requires 0 <= n <= excess => StageOf(v, n))
  }

  lemma StagesEnd(v: View, excess: nat)
    requires Enforceable(v) && excess == Max(0, |v.recency| - v.bounds.Capacity())
    ensures StagesOf(v, excess)[0] == Stage(v.ranks, Index(ImagesOf(v)), v.recency)
    ensures StagesOf(v, excess)[excess] == Stage(Enforced(v).ranks, Index(ImagesOf(Enforced(v))), Enforced(v).recency)
  {
    TrimNothing(v);
  }

  /** The stages an eviction passes through, ending where the bound holds. */
  lemma EvictionStages(v: View) returns (stages: seq<Stage>)
    requires Enforceable(v)
    ensures Staged(stages, v.bounds.Capacity())
    ensures stages[0] == Stage(v.ranks, Index(ImagesOf(v)), v.recency)
    ensures stages[|stages| - 1] == Stage(Enforced(v).ranks, Index(ImagesOf(Enforced(v))), Enforced(v).recency)
  {
    var excess := Max(0, |v.recency| - v.bounds.Capacity());
    stages := StagesOf(v, excess);
    StagesEnd(v, excess);
    forall n | 0 <= n <= excess ensures |stages[n].index| == |v.recency| - n == |stages[n].recency| {
      StageSize(v, n);
    }
    forall n | 0 <= n < excess ensures Evicts(stages[n], stages[n + 1]) {
      EvictStep(v, n);
    }
  }
}
