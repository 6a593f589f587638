/** One packet against one rank: the image stays inside a single observed image. */
module Snapshots {
  import opened Collections
  import opened Inventory
  import opened ReporterHistory
  import opened Catalog
  import opened CatalogIndex
  import opened CatalogSteps

  ghost predicate PendingFits(hist: History, batch: nat, p: Pending)
    requires batch > 0
  {
    && p.sequence in hist
    && p.heldCount == |hist[p.sequence]|
    && p.count == PageCount(p.heldCount, batch)
    && p.entryCount == |Flatten(p.pages, p.count)|
    && PagesFrom(p.pages, Sorted(hist[p.sequence]), batch, p.count)
  }

  ghost predicate PagesFrom(pages: map<int, seq<Entry>>, items: seq<Entry>, batch: nat, count: int) {
    forall i :: i in pages ==> 0 <= i < count && pages[i] == Page(items, batch, i)
  }

  /** A synchronized image is part of the image observed at its sequence
      number, and pending pages all come from one observed image. */
  ghost predicate Snapshot(s: RankState, hist: History, batch: nat)
    requires batch > 0
  {
    && 0 <= s.sequence && s.sequence in hist
    && (!s.desync ==> SubMap(s.image.at, hist[s.sequence]))
    && (s.pending.Some? ==> PendingFits(hist, batch, s.pending.value))
  }

  /** `t` is `s` moved to an image within `d` at a sequence number. */
  ghost predicate MovedTo(s: RankState, t: RankState, sequence: int, d: Dict) {
    Shrunk(s.(sequence := sequence, image := d, desync := false), t)
  }

  lemma MovedSnapshot(s: RankState, t: RankState, sequence: int, d: Dict, hist: History, batch: nat)
    requires batch > 0 && MovedTo(s, t, sequence, d) && 0 <= sequence
    requires s.pending.Some? ==> PendingFits(hist, batch, s.pending.value)
    requires sequence in hist && SubMap(d.at, hist[sequence])
    ensures Snapshot(t, hist, batch)
  {
  }

  lemma SnapshotShrinks(s: RankState, t: RankState, hist: History, batch: nat)
    requires batch > 0 && Snapshot(s, hist, batch) && Shrunk(s, t)
    ensures Snapshot(t, hist, batch)
  {
  }

  /** A later observation changes nothing that was already recorded. */
  lemma SnapshotLater(s: RankState, hist: History, batch: nat, q: int, image: map<Key, int>)
    requires batch > 0 && Snapshot(s, hist, batch) && q !in hist
    ensures Snapshot(s, hist[q := image], batch)
  {
  }

  // ---- the delta ----

  lemma DeltaMoves(v: View, r: Rank, d: Delta, hist: History)
    requires Open(v, r) && ValidEntries(d.added) && Continues(v.ranks[r], d)
    requires v.ranks[r].sequence in hist && SubMap(v.ranks[r].image.at, hist[v.ranks[r].sequence])
    requires DeltaFits(hist, d.sequence, d)
    ensures MovedTo(v.ranks[r], WithDelta(v, r, d).ranks[r], d.sequence, AppliedDict(v.ranks[r].image, d))
    ensures SubMap(AppliedDict(v.ranks[r].image, d).at, hist[d.sequence])
  {
    DeltaImage(v.ranks[r].image, d);
    AdvancedFacts(v, r, d.sequence, AppliedDict(v.ranks[r].image, d));
    AppliedMonotone(v.ranks[r].image.at, hist[v.ranks[r].sequence], d);
  }

  /** Generation, conflict and sequence of a rank between two views. */
  ghost predicate Later(s: RankState, t: RankState, low: int, high: int) {
    && t.generation == s.generation && t.past == s.past && t.conflict == s.conflict
    && low <= t.sequence <= high
  }

  lemma DeltaSnapshot(v: View, r: Rank, d: Option<Delta>, hist: History, batch: nat, top: int)
    requires batch > 0 && Open(v, r) && Snapshot(v.ranks[r], hist, batch)
    requires d.Some? ==> ValidEntries(d.value.added) && DeltaFits(hist, top, d.value)
    ensures Snapshot(AfterDelta(v, r, d).ranks[r], hist, batch)
    ensures Later(v.ranks[r], AfterDelta(v, r, d).ranks[r], v.ranks[r].sequence, Max(v.ranks[r].sequence, top))
    ensures AfterDelta(v, r, d).ranks[r].pending == v.ranks[r].pending
  {
    var s := v.ranks[r];
    LostFacts(v, r);
    if d.Some? && !s.desync && Continues(s, d.value) {
      DeltaMoves(v, r, d.value, hist);
      MovedSnapshot(s, WithDelta(v, r, d.value).ranks[r], d.value.sequence, AppliedDict(s.image, d.value), hist, batch);
    }
  }

  // ---- the page ----

  lemma {:induction false} FlattenSize(pages: map<int, seq<Entry>>, items: seq<Entry>, batch: nat, count: nat, upTo: nat)
    requires batch > 0 && upTo <= count && PagesFrom(pages, items, batch, count)
    ensures |Flatten(pages, upTo)| <= Min(upTo * batch, |items|)
  {
    if upTo > 0 {
      FlattenSize(pages, items, batch, count, upTo - 1);
      assert (upTo - 1) * batch + batch == upTo * batch;
    }
  }

  lemma {:induction false} FlattenSame(pages: map<int, seq<Entry>>, i: int, page: seq<Entry>, upTo: nat)
    requires i >= upTo
    ensures Flatten(pages[i := page], upTo) == Flatten(pages, upTo)
  {
    if upTo > 0 { FlattenSame(pages, i, page, upTo - 1); }
  }

  lemma {:induction false} FlattenReplaced(pages: map<int, seq<Entry>>, i: int, page: seq<Entry>, count: nat)
    requires 0 <= i < count
    ensures |Flatten(pages[i := page], count)| == |Flatten(pages, count)| - |PageAt(pages, i)| + |page|
  {
    if i < count - 1 {
      FlattenReplaced(pages, i, page, count - 1);
    } else {
      FlattenSame(pages, i, page, i);
    }
  }

  /** A page that an honest reporter cut is always acceptable. */
  lemma PageAccepted(pending: Option<Pending>, c: Checkpoint, hist: History, batch: nat)
    requires batch > 0 && CheckpointFits(hist, batch, c)
    requires pending.Some? ==> PendingFits(hist, batch, pending.value)
    ensures Acceptable(Collecting(pending, c), c)
    ensures PendingFits(hist, batch, WithPage(Collecting(pending, c), c))
  {
    var p, items := Collecting(pending, c), Sorted(hist[c.sequence]);
    SortedIsListing(hist[c.sequence]);
    if !(pending.Some? && p == pending.value) {
      FlattenEmpty(p.count);
    }
    FlattenReplaced(p.pages, c.index, c.entries, p.count);
    FlattenSize(p.pages[c.index := c.entries], items, batch, p.count, p.count);
  }

  lemma {:induction false} FlattenEmpty(count: nat)
    ensures Flatten(map[], count) == []
  {
    if count > 0 { FlattenEmpty(count - 1); }
  }

  /** All pages together are the whole observed image. */
  lemma AllPages(p: Pending, hist: History, batch: nat)
    requires batch > 0 && PendingFits(hist, batch, p) && |p.pages| == p.count
    ensures Flatten(p.pages, p.count) == Sorted(hist[p.sequence])
    ensures MapOf(Flatten(p.pages, p.count)) == hist[p.sequence]
    ensures |Flatten(p.pages, p.count)| == p.heldCount == |MapOf(Flatten(p.pages, p.count))|
  {
    var items := Sorted(hist[p.sequence]);
    SortedIsListing(hist[p.sequence]);
    PagesBelow(p.pages, p.count);
    FlattenPages(items, batch, p.pages, p.count);
    assert items[..|items|] == items;
    ListingIsExact(items, hist[p.sequence]);
  }

  lemma CompletedSnapshot(v: View, r: Rank, p: Pending, hist: History, batch: nat)
    requires batch > 0 && Open(v, r) && Snapshot(v.ranks[r], hist, batch)
    requires PendingFits(hist, batch, p) && |p.pages| == p.count && 0 <= p.sequence
    requires forall i :: i in p.pages ==> ValidEntries(p.pages[i])
    ensures p.sequence < v.ranks[r].sequence ==> Completed(v, r, p) == v
    ensures p.sequence >= v.ranks[r].sequence ==>
      MovedTo(v.ranks[r], Completed(v, r, p).ranks[r], p.sequence, PutAll(EmptyDict, Flatten(p.pages, p.count)))
    ensures Snapshot(Completed(v, r, p).ranks[r], hist, batch)
  {
    if p.sequence >= v.ranks[r].sequence {
      var d := PutAll(EmptyDict, Flatten(p.pages, p.count));
      AllPages(p, hist, batch);
      FlatImage(p.pages, p.count);
      AdvancedFacts(v, r, p.sequence, d);
      MovedSnapshot(v.ranks[r], Completed(v, r, p).ranks[r], p.sequence, d, hist, batch);
    }
  }

  lemma PageSnapshot(v: View, r: Rank, c: Checkpoint, hist: History, batch: nat)
    requires batch > 0 && Open(v, r) && Snapshot(v.ranks[r], hist, batch)
    requires CheckpointFits(hist, batch, c) && ValidEntries(c.entries) && 0 <= c.sequence
    ensures Snapshot(AfterPage(v, r, c).ranks[r], hist, batch)
    ensures Later(v.ranks[r], AfterPage(v, r, c).ranks[r], v.ranks[r].sequence, Max(v.ranks[r].sequence, c.sequence))
    ensures v.ranks[r].desync && !AfterPage(v, r, c).ranks[r].desync ==> AfterPage(v, r, c).ranks[r].sequence == c.sequence
  {
    var u, p := DropPending(v, r), Collecting(v.ranks[r].pending, c);
    DropPendingFacts(v, r);
    PageAccepted(v.ranks[r].pending, c, hist, batch);
    CollectingFacts(v.ranks[r].pending, c);
    var q := WithPage(p, c);
    if |q.pages| == q.count {
      CompletedSnapshot(u, r, q, hist, batch);
    }
  }

  // ---- the whole report ----

  ghost predicate Honest(hist: History, batch: nat, d: Option<Delta>, c: Checkpoint)
    requires batch > 0
  {
    && CheckpointFits(hist, batch, c) && 0 <= c.sequence && ValidEntries(c.entries)
    && (d.Some? ==> ValidEntries(d.value.added) && DeltaFits(hist, c.sequence, d.value))
  }

  /** After a report the rank is withdrawn, or stands at least at its checkpoint. */
  lemma BodySnapshot(v: View, r: Rank, d: Option<Delta>, c: Checkpoint, hist: History, batch: nat)
    requires batch > 0 && Open(v, r) && Snapshot(v.ranks[r], hist, batch) && Honest(hist, batch, d, c)
    ensures Snapshot(AfterBody(v, r, d, c).ranks[r], hist, batch)
    ensures Later(v.ranks[r], AfterBody(v, r, d, c).ranks[r], v.ranks[r].sequence, Max(v.ranks[r].sequence, c.sequence))
    ensures !AfterBody(v, r, d, c).ranks[r].desync ==> AfterBody(v, r, d, c).ranks[r].sequence >= c.sequence
  {
    var a := AfterDelta(v, r, d);
    var b := AfterGap(a, r, c);
    DeltaSnapshot(v, r, d, hist, batch, c.sequence);
    DeltaStep(v, r, d);
    LostFacts(a, r);
    GapStep(a, r, c);
    PageSnapshot(b, r, c, hist, batch);
  }

  lemma AdoptedSnapshot(v: View, r: Rank, id: Identity, hist: History, batch: nat)
    requires batch > 0 && Wf(v) && r in v.ranks && 0 in hist
    ensures Snapshot(Adopted(v, r, id).ranks[r], hist, batch)
  {
    AdoptedFacts(v, r, id);
  }
}
