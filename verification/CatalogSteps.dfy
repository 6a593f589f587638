/** Every packet keeps the catalog well formed and leaves the other ranks'
    records alone, except that eviction may shrink their images. */
module CatalogSteps {
  import opened Collections
  import opened Inventory
  import opened Catalog
  import opened CatalogIndex

  /** The same record with a possibly smaller image. */
  ghost predicate Shrunk(s: RankState, t: RankState) {
    t == s.(image := t.image) && SubMap(t.image.at, s.image.at)
  }

  ghost predicate OnlyRank(v: View, w: View, r: Rank) {
    && w.bounds == v.bounds && w.ranks.Keys == v.ranks.Keys
    && forall q :: q in v.ranks && q != r ==> Shrunk(v.ranks[q], w.ranks[q])
  }

  lemma OnlyRankChain(u: View, v: View, w: View, r: Rank)
    requires OnlyRank(u, v, r) && OnlyRank(v, w, r)
    ensures OnlyRank(u, w, r)
  {
    forall q | q in u.ranks && q != r ensures Shrunk(u.ranks[q], w.ranks[q]) {
      assert Shrunk(u.ranks[q], v.ranks[q]) && Shrunk(v.ranks[q], w.ranks[q]);
    }
  }

  lemma UnheardFacts(expected: set<Rank>, bounds: Bounds)
    requires bounds.Wf()
    ensures Wf(Unheard(expected, bounds)) && Index(ImagesOf(Unheard(expected, bounds))) == map[]
  {
    var images := ImagesOf(Unheard(expected, bounds));
    assert Advertised(images) == {};
    assert ToSet<Key>([]) == {};
  }

  lemma WithFacts(v: View, r: Rank, s: RankState)
    requires Wf(v) && r in v.ranks && WfRank(s) && s.image == v.ranks[r].image
    ensures Wf(With(v, r, s)) && OnlyRank(v, With(v, r, s), r)
  {
    assert ImagesOf(With(v, r, s)) == ImagesOf(v);
  }

  lemma WithdrawnImages(v: View, r: Rank)
    requires r in v.ranks
    ensures ImagesOf(Withdrawn(v, r)) == ImagesOf(v)[r := EmptyDict]
  {
  }

  lemma WithdrawnFacts(v: View, r: Rank)
    requires Wf(v) && r in v.ranks
    ensures Wf(Withdrawn(v, r)) && OnlyRank(v, Withdrawn(v, r), r)
    ensures Withdrawn(v, r).ranks[r] == v.ranks[r].(image := EmptyDict)
  {
    WithdrawnRecency(v.recency, ImagesOf(v), r);
    DropMembers(v.recency, Advertised(ImagesOf(v)) - Advertised(ImagesOf(v)[r := EmptyDict]));
    WithdrawnImages(v, r);
  }

  /** Withdrawal followed by a change of the rank's other records. */
  lemma EmptiedFacts(v: View, r: Rank, s: RankState)
    requires Wf(v) && r in v.ranks && WfRank(s) && s.image == EmptyDict
    ensures Wf(With(Withdrawn(v, r), r, s)) && OnlyRank(v, With(Withdrawn(v, r), r, s), r)
  {
    WithdrawnFacts(v, r);
    WithFacts(Withdrawn(v, r), r, s);
    OnlyRankChain(v, Withdrawn(v, r), With(Withdrawn(v, r), r, s), r);
  }

  lemma LostFacts(v: View, r: Rank)
    requires Wf(v) && r in v.ranks
    ensures Wf(Lost(v, r)) && OnlyRank(v, Lost(v, r), r)
    ensures Lost(v, r).ranks[r] == v.ranks[r].(image := EmptyDict, desync := true)
  {
    EmptiedFacts(v, r, v.ranks[r].(image := EmptyDict, desync := true));
  }

  lemma DropPendingFacts(v: View, r: Rank)
    requires Wf(v) && r in v.ranks
    ensures Wf(DropPending(v, r)) && OnlyRank(v, DropPending(v, r), r)
  {
    WithFacts(v, r, v.ranks[r].(pending := None));
  }

  lemma ConflictedFacts(v: View, r: Rank)
    requires Wf(v) && r in v.ranks
    ensures Wf(Conflicted(v, r)) && OnlyRank(v, Conflicted(v, r), r)
    ensures Conflicted(v, r).ranks[r] == ConflictedRank(v.ranks[r])
  {
    var s := ConflictedRank(v.ranks[r]);
    EmptiedFacts(v, r, s);
    assert ImagesOf(Conflicted(v, r)) == ImagesOf(With(Withdrawn(v, r), r, s));
  }

  lemma AdoptedFacts(v: View, r: Rank, id: Identity)
    requires Wf(v) && r in v.ranks
    ensures Wf(Adopted(v, r, id)) && OnlyRank(v, Adopted(v, r, id), r)
    ensures Adopted(v, r, id).ranks[r] == AdoptedRank(v.ranks[r], id)
  {
    var s := AdoptedRank(v.ranks[r], id);
    EmptiedFacts(v, r, s);
    assert ImagesOf(Adopted(v, r, id)) == ImagesOf(With(Withdrawn(v, r), r, s));
  }

  lemma IdentifiedFacts(v: View, r: Rank, id: Identity)
    requires Wf(v) && r in v.ranks
    ensures Wf(Identified(v, r, id)) && OnlyRank(v, Identified(v, r, id), r)
    ensures Listens(v.ranks[r], id) ==>
      Identified(v, r, id).ranks[r].generation == Some(id) && !Identified(v, r, id).ranks[r].conflict
  {
    match DispositionOf(v.ranks[r], id)
    case Initial => AdoptedFacts(v, r, id);
    case Newer => AdoptedFacts(v, r, id);
    case Conflict => ConflictedFacts(v, r);
    case Stale => assert OnlyRank(v, v, r);
    case Current => assert OnlyRank(v, v, r);
  }

  // ---- replacement and eviction ----

  ghost predicate Enforceable(v: View) {
    WfRanks(v) && WfRecency(v.recency, ImagesOf(v))
  }

  lemma AdvertiseFacts(v: View, r: Rank, d: Dict)
    requires Wf(v) && r in v.ranks && v.ranks[r].image == EmptyDict
    requires !v.ranks[r].conflict && v.ranks[r].generation.Some? && WfDict(d)
    ensures Enforceable(Advertise(v, r, d)) && OnlyRank(v, Advertise(v, r, d), r)
    ensures ImagesOf(Advertise(v, r, d)) == ImagesOf(v)[r := d]
  {
    AdvertisedRecency(v.recency, ImagesOf(v), r, d);
    assert ImagesOf(Advertise(v, r, d)) == ImagesOf(v)[r := d];
  }

  lemma ShrunkWithout(s: RankState, gone: set<Key>)
    requires WfRank(s)
    ensures WfRank(s.(image := s.image.Without(gone))) && Shrunk(s, s.(image := s.image.Without(gone)))
    ensures gone == {} ==> s.image.Without(gone) == s.image
  {
    WithoutWf(s.image, gone);
    if gone == {} {
      WithoutNothing(s.image, gone);
    }
    if s.desync {
      WithoutNothing(s.image, gone);
    }
  }

  lemma EnforcedImages(v: View)
    requires v.bounds.Wf() && WfRecency(v.recency, ImagesOf(v))
    ensures WfRecency(Enforced(v).recency, ImagesOf(Enforced(v)))
    ensures |Enforced(v).recency| <= v.bounds.Capacity()
  {
    var excess := Max(0, |v.recency| - v.bounds.Capacity());
    EnforcedRecency(ImagesOf(v), v.recency, excess);
    assert ImagesOf(Enforced(v)) == WithoutEverywhere(ImagesOf(v), ToSet(v.recency[..excess]));
  }

  /** Eviction only shrinks images, and the bound holds afterwards. */
  lemma EnforcedFacts(v: View)
    requires Enforceable(v)
    ensures Wf(Enforced(v)) && Enforced(v).ranks.Keys == v.ranks.Keys && Enforced(v).bounds == v.bounds
    ensures forall q :: q in v.ranks ==> Shrunk(v.ranks[q], Enforced(v).ranks[q])
    ensures |v.recency| <= v.bounds.Capacity() ==> Enforced(v).ranks == v.ranks
  {
    var excess := Max(0, |v.recency| - v.bounds.Capacity());
    var gone, w := ToSet(v.recency[..excess]), Enforced(v);
    EnforcedImages(v);
    forall q | q in v.ranks ensures WfRank(w.ranks[q]) && Shrunk(v.ranks[q], w.ranks[q])
      ensures excess == 0 ==> w.ranks[q] == v.ranks[q]
    {
      ShrunkWithout(v.ranks[q], gone);
    }
  }

  lemma ReadvertisedRanks(v: View, r: Rank, d: Dict)
    requires r in v.ranks
    ensures Advertise(Withdrawn(v, r), r, d).ranks == v.ranks[r := v.ranks[r].(image := d, desync := false)]
    ensures ImagesOf(Advertise(Withdrawn(v, r), r, d)) == ImagesOf(v)[r := d]
  {
  }

  lemma WithdrawThenAdvertise(v: View, r: Rank, d: Dict)
    requires Wf(v) && r in v.ranks && !v.ranks[r].conflict && v.ranks[r].generation.Some? && WfDict(d)
    ensures Enforceable(Advertise(Withdrawn(v, r), r, d))
    ensures OnlyRank(v, Advertise(Withdrawn(v, r), r, d), r)
  {
    var w := Withdrawn(v, r);
    WithdrawnFacts(v, r);
    AdvertiseFacts(w, r, d);
    OnlyRankChain(v, w, Advertise(w, r, d), r);
  }

  /** After a replacement the rank's image is within the new one, the other
      images only shrink, and nothing is evicted when the union fits. */
  lemma ReplacedFacts(v: View, r: Rank, d: Dict)
    requires Wf(v) && r in v.ranks && !v.ranks[r].conflict && v.ranks[r].generation.Some? && WfDict(d)
    ensures Wf(Replaced(v, r, d)) && OnlyRank(v, Replaced(v, r, d), r)
    ensures Shrunk(v.ranks[r].(image := d, desync := false), Replaced(v, r, d).ranks[r])
    ensures |Advertised(ImagesOf(v)[r := d])| <= v.bounds.Capacity() ==>
      Replaced(v, r, d).ranks == v.ranks[r := v.ranks[r].(image := d, desync := false)]
  {
    var x := Advertise(Withdrawn(v, r), r, d);
    WithdrawThenAdvertise(v, r, d);
    ReadvertisedRanks(v, r, d);
    RecencySize(x.recency, ImagesOf(x));
    EnforcedFacts(x);
    assert OnlyRank(x, Enforced(x), r);
    OnlyRankChain(v, x, Enforced(x), r);
  }

  lemma OldestFirst(older: seq<Key>, d: Dict, excess: nat)
    requires ToSet(older) !! d.at.Keys && excess <= |older|
    ensures ToSet((older + d.keys)[..excess]) !! d.at.Keys
  {
    assert (older + d.keys)[..excess] == older[..excess];
    forall k | k in ToSet(older[..excess]) ensures k in ToSet(older) {
    }
  }

  /** A replaced rank's keys are the newest: what is evicted to make room for them
      is never one of them. */
  lemma OwnImageKept(v: View, r: Rank, d: Dict)
    requires v.bounds.Wf() && r in v.ranks && d.Wf() && |d.keys| <= v.bounds.Capacity()
    ensures r in Replaced(v, r, d).ranks
    ensures Replaced(v, r, d).ranks[r] == v.ranks[r].(image := d, desync := false)
  {
    var w := Withdrawn(v, r);
    var x, older := Advertise(w, r, d), Drop(w.recency, d.at.Keys);
    var excess := Max(0, |x.recency| - v.bounds.Capacity());
    DropMembers(w.recency, d.at.Keys);
    OldestFirst(older, d, excess);
    WithoutNothing(d, ToSet(x.recency[..excess]));
    ReadvertisedRanks(v, r, d);
  }

  /** The oldest keys go, from every rank, and no other key does. */
  lemma EvictsByAge(v: View, i: nat, q: Rank)
    requires Enforceable(v) && i < |v.recency| && q in v.ranks
    ensures Enforced(v).ranks.Keys == v.ranks.Keys
    ensures var k, image := v.recency[i], Enforced(v).ranks[q].image.at;
      if |v.recency| - i > v.bounds.Capacity() then k !in image
      else (k in image <==> k in v.ranks[q].image.at) && (k in image ==> image[k] == v.ranks[q].image.at[k])
  {
    var excess := Max(0, |v.recency| - v.bounds.Capacity());
    var gone := v.recency[..excess];
    DistinctIsNoRepeats(v.recency);
    if i < excess {
      assert gone[i] == v.recency[i];
    } else {
      forall j | 0 <= j < excess ensures gone[j] != v.recency[i] {
        assert gone[j] == v.recency[j];
      }
    }
  }

  lemma AdvancedOwnImage(v: View, r: Rank, sequence: int, d: Dict)
    requires v.bounds.Wf() && r in v.ranks && d.Wf() && |d.keys| <= v.bounds.Capacity()
    ensures r in Advanced(v, r, sequence, d).ranks
    ensures Advanced(v, r, sequence, d).ranks[r] == v.ranks[r].(sequence := sequence, image := d, desync := false)
  {
    OwnImageKept(With(v, r, v.ranks[r].(sequence := sequence)), r, d);
  }

  lemma AdvancedFacts(v: View, r: Rank, sequence: int, d: Dict)
    requires Wf(v) && r in v.ranks && !v.ranks[r].conflict && v.ranks[r].generation.Some? && WfDict(d)
    ensures Wf(Advanced(v, r, sequence, d)) && OnlyRank(v, Advanced(v, r, sequence, d), r)
    ensures Shrunk(v.ranks[r].(sequence := sequence, image := d, desync := false), Advanced(v, r, sequence, d).ranks[r])
  {
    var s := v.ranks[r].(sequence := sequence);
    var w := With(v, r, s);
    WithFacts(v, r, s);
    ReplacedFacts(w, r, d);
    OnlyRankChain(v, w, Replaced(w, r, d), r);
  }

  // ---- the parts of a report ----

  lemma MapOfSpans(items: seq<Entry>)
    requires ValidEntries(items)
    ensures ValidSpans(MapOf(items))
  {
    MapOfKeys(items);
    forall k | k in MapOf(items) ensures ValidSpan(MapOf(items)[k]) {
      var i :| 0 <= i < |items| && items[i] == Entry(k, MapOf(items)[k]);
    }
  }

  lemma DeltaImage(image: Dict, d: Delta)
    requires WfDict(image) && ValidEntries(d.added)
    ensures WfDict(AppliedDict(image, d)) && AppliedDict(image, d).at == Applied(image.at, d)
  {
    AppliedDictMap(image, d);
    MapOfSpans(d.added);
  }

  /** A rank that the current generation may speak for. */
  ghost predicate Open(v: View, r: Rank) {
    Wf(v) && r in v.ranks && !v.ranks[r].conflict && v.ranks[r].generation.Some?
  }

  ghost predicate Stepped(v: View, w: View, r: Rank) {
    Open(w, r) && OnlyRank(v, w, r)
  }

  lemma SteppedChain(u: View, v: View, w: View, r: Rank)
    requires Stepped(u, v, r) && Stepped(v, w, r)
    ensures Stepped(u, w, r)
  {
    OnlyRankChain(u, v, w, r);
  }

  lemma LostStep(v: View, r: Rank)
    requires Open(v, r)
    ensures Stepped(v, Lost(v, r), r)
  {
    LostFacts(v, r);
  }

  lemma OpenAfter(v: View, w: View, r: Rank, s: RankState)
    requires Open(v, r) && Wf(w) && OnlyRank(v, w, r)
    requires Shrunk(s, w.ranks[r]) && s.generation == v.ranks[r].generation && !s.conflict
    ensures Open(w, r)
  {
  }

  lemma AppliedStep(v: View, r: Rank, d: Delta)
    requires Open(v, r) && ValidEntries(d.added)
    ensures Stepped(v, WithDelta(v, r, d), r)
  {
    var image := AppliedDict(v.ranks[r].image, d);
    DeltaImage(v.ranks[r].image, d);
    AdvancedFacts(v, r, d.sequence, image);
    OpenAfter(v, Advanced(v, r, d.sequence, image), r, v.ranks[r].(sequence := d.sequence, image := image, desync := false));
  }

  lemma DeltaStep(v: View, r: Rank, d: Option<Delta>)
    requires Open(v, r) && (d.Some? ==> ValidEntries(d.value.added))
    ensures Stepped(v, AfterDelta(v, r, d), r)
  {
    assert Stepped(v, v, r);
    LostStep(v, r);
    if d.Some? {
      AppliedStep(v, r, d.value);
    }
  }

  lemma GapStep(v: View, r: Rank, c: Checkpoint)
    requires Open(v, r)
    ensures Stepped(v, AfterGap(v, r, c), r)
  {
    assert OnlyRank(v, v, r);
    LostStep(v, r);
  }

  lemma {:induction false} FlattenValid(pages: map<int, seq<Entry>>, count: nat)
    requires forall i :: i in pages ==> ValidEntries(pages[i])
    ensures ValidEntries(Flatten(pages, count))
  {
    if count > 0 { FlattenValid(pages, count - 1); }
  }

  lemma PagesBelow(pages: map<int, seq<Entry>>, count: nat)
    requires forall i :: i in pages ==> 0 <= i < count
    ensures |pages| <= count
    ensures |pages| == count ==> forall i :: 0 <= i < count ==> i in pages
  {
    SubsetSize(pages.Keys, Below(count));
    assert |pages| == |pages.Keys|;
    if |pages| == count {
      SubsetSameSize(pages.Keys, Below(count));
    }
  }

  lemma FlatImage(pages: map<int, seq<Entry>>, count: nat)
    requires forall i :: i in pages ==> ValidEntries(pages[i])
    ensures WfDict(PutAll(EmptyDict, Flatten(pages, count)))
  {
    FlattenValid(pages, count);
    PutAllWf(EmptyDict, Flatten(pages, count));
    MapOfSpans(Flatten(pages, count));
  }

  lemma CompletedStep(v: View, r: Rank, p: Pending)
    requires Open(v, r) && 0 < p.count && forall i :: i in p.pages ==> ValidEntries(p.pages[i])
    ensures Stepped(v, Completed(v, r, p), r)
  {
    var flat := Flatten(p.pages, p.count);
    assert OnlyRank(v, v, r);
    if p.sequence >= v.ranks[r].sequence {
      if |flat| != p.heldCount || |MapOf(flat)| != |flat| {
        LostStep(v, r);
      } else {
        FlatImage(p.pages, p.count);
        AdvancedFacts(v, r, p.sequence, PutAll(EmptyDict, flat));
      }
    }
  }

  lemma CollectingFacts(pending: Option<Pending>, c: Checkpoint)
    requires (pending.Some? ==> WfPending(pending.value)) && ValidEntries(c.entries)
    requires Acceptable(Collecting(pending, c), c)
    ensures var q := WithPage(Collecting(pending, c), c);
      && 0 < q.count && |q.pages| <= q.count
      && (forall i :: i in q.pages ==> 0 <= i < q.count && ValidEntries(q.pages[i]))
  {
    var q := WithPage(Collecting(pending, c), c);
    PagesBelow(q.pages, q.count);
  }

  lemma PageStep(v: View, r: Rank, c: Checkpoint)
    requires Open(v, r) && ValidEntries(c.entries)
    ensures Stepped(v, AfterPage(v, r, c), r)
  {
    var u, p := DropPending(v, r), Collecting(v.ranks[r].pending, c);
    DropPendingFacts(v, r);
    if !Acceptable(p, c) {
      LostStep(u, r);
      SteppedChain(v, u, Lost(u, r), r);
    } else {
      CollectingFacts(v.ranks[r].pending, c);
      var q := WithPage(p, c);
      if |q.pages| == q.count {
        CompletedStep(u, r, q);
        SteppedChain(v, u, Completed(u, r, q), r);
      } else {
        WithFacts(v, r, v.ranks[r].(pending := Some(q)));
      }
    }
  }

  lemma BodyStep(v: View, r: Rank, d: Option<Delta>, c: Checkpoint)
    requires Open(v, r) && ValidEntries(c.entries) && (d.Some? ==> ValidEntries(d.value.added))
    ensures Stepped(v, AfterBody(v, r, d, c), r)
  {
    var a := AfterDelta(v, r, d);
    var b := AfterGap(a, r, c);
    DeltaStep(v, r, d);
    GapStep(a, r, c);
    PageStep(b, r, c);
    SteppedChain(v, a, b, r);
    SteppedChain(v, b, AfterPage(b, r, c), r);
  }

  /** Any report, honest or malformed, from an expected rank. */
  lemma ReportStep(v: View, rep: Report)
    requires Wf(v) && rep.rank in v.ranks
    ensures Wf(AfterReport(v, rep)) && OnlyRank(v, AfterReport(v, rep), rep.rank)
  {
    var r := rep.rank;
    var w := Identified(v, r, rep.id);
    ConflictedFacts(v, r);
    IdentifiedFacts(v, r, rep.id);
    if ValidIdentity(rep.id) && Listens(v.ranks[r], rep.id) {
      if ValidReport(rep, v.bounds) {
        BodyStep(w, r, rep.delta, rep.checkpoint);
        OnlyRankChain(v, w, AfterReport(v, rep), r);
      } else {
        LostFacts(w, r);
        DropPendingFacts(Lost(w, r), r);
        OnlyRankChain(v, w, Lost(w, r), r);
        OnlyRankChain(v, Lost(w, r), AfterReport(v, rep), r);
      }
    }
  }

  lemma StartupImage(entries: seq<Entry>)
    requires ValidEntries(entries)
    ensures WfDict(PutAll(EmptyDict, entries))
  {
    PutAllWf(EmptyDict, entries);
    MapOfSpans(entries);
  }

  /** Any startup handshake from an expected rank. */
  lemma StartupStep(v: View, r: Rank, id: Identity, entries: seq<Entry>)
    requires Wf(v) && r in v.ranks
    ensures Wf(AfterStartup(v, r, id, entries)) && OnlyRank(v, AfterStartup(v, r, id, entries), r)
  {
    var w := Identified(v, r, id);
    ConflictedFacts(v, r);
    IdentifiedFacts(v, r, id);
    if ValidIdentity(id) && DispositionOf(v.ranks[r], id) in {Initial, Newer} && AcceptableStartup(entries, v.bounds) {
      StartupImage(entries);
      ReplacedFacts(w, r, PutAll(EmptyDict, entries));
      OnlyRankChain(v, w, AfterStartup(v, r, id, entries), r);
    }
  }
}
