/** A synchronized rank follows the reports of its worker: consecutive deltas are
    applied, and an accepted handshake synchronizes it. */
module Following {
  import opened Collections
  import opened Inventory
  import opened ReporterHistory
  import opened Catalog
  import opened CatalogSteps
  import opened Snapshots
  import opened Convergence
  import Generations

  /** The record is synchronized on process `id` at a sequence number. */
  ghost predicate Synced(s: RankState, id: Identity, sequence: int) {
    !s.desync && s.generation == Some(id) && s.sequence == sequence
  }

  /** The report repeats the sequence number at which the record stands, or is
      the next one and carries the delta between the two. */
  predicate Succeeds(sequence: int, d: Option<Delta>, c: Checkpoint) {
    || c.sequence == sequence
    || (c.sequence == sequence + 1 && d.Some? && d.value.base == sequence && d.value.sequence == sequence + 1)
  }

  // ---- the delta, then the page ----

  /** The delta is nothing new, and neither is the checkpoint. */
  lemma NothingNew(v: View, r: Rank, d: Option<Delta>, c: Checkpoint, hist: History, batch: nat)
    requires batch > 0 && r in v.ranks && v.bounds.Wf() && Honest(hist, batch, d, c) && c.sequence == v.ranks[r].sequence
    ensures AfterGap(AfterDelta(v, r, d), r, c) == v
  {
  }

  lemma OneDelta(v: View, r: Rank, d: Delta, c: Checkpoint, hist: History)
    requires Open(v, r) && ValidEntries(d.added) && !v.ranks[r].desync && Continues(v.ranks[r], d) && c.sequence == d.sequence
    requires v.ranks[r].sequence in hist && SubMap(v.ranks[r].image.at, hist[v.ranks[r].sequence])
    requires DeltaFits(hist, d.sequence, d)
    ensures var b := AfterGap(AfterDelta(v, r, Some(d)), r, c);
      r in b.ranks && !b.ranks[r].desync && b.ranks[r].sequence == c.sequence && b.ranks[r].generation == v.ranks[r].generation
  {
    DeltaMoves(v, r, d, hist);
    AppliedStep(v, r, d);
  }

  lemma DeltaFollowed(v: View, r: Rank, d: Option<Delta>, c: Checkpoint, hist: History, batch: nat)
    requires batch > 0 && Open(v, r) && Snapshot(v.ranks[r], hist, batch) && Honest(hist, batch, d, c)
    requires !v.ranks[r].desync && Succeeds(v.ranks[r].sequence, d, c)
    ensures var b := AfterGap(AfterDelta(v, r, d), r, c);
      && r in b.ranks && !b.ranks[r].desync && b.ranks[r].sequence == c.sequence
      && b.ranks[r].generation == v.ranks[r].generation
  {
    if c.sequence == v.ranks[r].sequence {
      NothingNew(v, r, d, c, hist, batch);
    } else {
      OneDelta(v, r, d.value, c, hist);
    }
  }

  lemma PageFollowed(v: View, r: Rank, c: Checkpoint, hist: History, batch: nat)
    requires batch > 0 && Open(v, r) && Snapshot(v.ranks[r], hist, batch)
    requires CheckpointFits(hist, batch, c) && ValidEntries(c.entries) && 0 <= c.sequence
    requires !v.ranks[r].desync && v.ranks[r].sequence == c.sequence
    ensures var w := AfterPage(v, r, c);
      r in w.ranks && !w.ranks[r].desync && w.ranks[r].sequence == c.sequence && w.ranks[r].generation == v.ranks[r].generation
  {
    var u, p := DropPending(v, r), Collecting(v.ranks[r].pending, c);
    DropPendingFacts(v, r);
    PageAccepted(v.ranks[r].pending, c, hist, batch);
    CollectingFacts(v.ranks[r].pending, c);
    PageStep(v, r, c);
    var q := WithPage(p, c);
    if |q.pages| == q.count {
      CompletedSnapshot(u, r, q, hist, batch);
    }
  }

  lemma BodyFollowed(v: View, r: Rank, d: Option<Delta>, c: Checkpoint, hist: History, batch: nat)
    requires batch > 0 && Open(v, r) && Snapshot(v.ranks[r], hist, batch) && Honest(hist, batch, d, c)
    requires !v.ranks[r].desync && Succeeds(v.ranks[r].sequence, d, c)
    ensures var w := AfterBody(v, r, d, c);
      r in w.ranks && !w.ranks[r].desync && w.ranks[r].sequence == c.sequence && w.ranks[r].generation == v.ranks[r].generation
  {
    var a := AfterDelta(v, r, d);
    DeltaSnapshot(v, r, d, hist, batch, c.sequence);
    DeltaStep(v, r, d);
    LostFacts(a, r);
    GapStep(a, r, c);
    DeltaFollowed(v, r, d, c, hist, batch);
    PageFollowed(AfterGap(a, r, c), r, c, hist, batch);
  }

  lemma CurrentIdentity(s: RankState, id: Identity)
    requires WfRank(s) && !s.desync && s.generation == Some(id)
    ensures DispositionOf(s, id) == Current && !s.conflict
  {
  }

  lemma BodyOf(v: View, rep: Report)
    requires v.bounds.Wf() && rep.rank in v.ranks && ValidIdentity(rep.id) && ValidReport(rep, v.bounds)
    requires DispositionOf(v.ranks[rep.rank], rep.id) == Current
    ensures AfterReport(v, rep) == AfterBody(v, rep.rank, rep.delta, rep.checkpoint)
  {
  }

  lemma CurrentBody(v: View, rep: Report)
    requires Wf(v) && rep.rank in v.ranks && ValidIdentity(rep.id) && ValidReport(rep, v.bounds)
    requires !v.ranks[rep.rank].desync && v.ranks[rep.rank].generation == Some(rep.id)
    ensures Open(v, rep.rank) && AfterReport(v, rep) == AfterBody(v, rep.rank, rep.delta, rep.checkpoint)
  {
    assert WfRank(v.ranks[rep.rank]);
    CurrentIdentity(v.ranks[rep.rank], rep.id);
    BodyOf(v, rep);
  }

  /** An honest report that repeats the sequence number or follows it by one
      delta never withdraws a synchronized rank. */
  lemma ReportFollowed(v: View, rep: Report, hist: History, batch: nat)
    requires batch > 0 && Wf(v) && rep.rank in v.ranks && ValidIdentity(rep.id) && ValidReport(rep, v.bounds)
    requires var s := v.ranks[rep.rank];
      Synced(s, rep.id, s.sequence) && Snapshot(s, hist, batch) && Succeeds(s.sequence, rep.delta, rep.checkpoint)
    requires Honest(hist, batch, rep.delta, rep.checkpoint)
    ensures rep.rank in AfterReport(v, rep).ranks
    ensures Synced(AfterReport(v, rep).ranks[rep.rank], rep.id, rep.checkpoint.sequence)
  {
    CurrentBody(v, rep);
    BodyFollowed(v, rep.rank, rep.delta, rep.checkpoint, hist, batch);
  }

  // ---- exactly ----

  lemma DeltaTaken(v: View, r: Rank, d: Delta, c: Checkpoint)
    requires r in v.ranks && v.bounds.Wf() && !v.ranks[r].desync && Continues(v.ranks[r], d)
    requires r in WithDelta(v, r, d).ranks && WithDelta(v, r, d).ranks[r].sequence == c.sequence
    ensures AfterGap(AfterDelta(v, r, Some(d)), r, c) == WithDelta(v, r, d)
  {
  }

  lemma DeltaExact(v: View, r: Rank, d: Delta, c: Checkpoint, hist: History)
    requires Open(v, r) && ValidEntries(d.added) && !v.ranks[r].desync && v.ranks[r].sequence in hist
    requires v.ranks[r].image.at == hist[v.ranks[r].sequence] && DeltaFits(hist, d.sequence, d)
    requires Continues(v.ranks[r], d) && c.sequence == d.sequence && Holdable(v, hist[d.sequence])
    ensures var b := AfterGap(AfterDelta(v, r, Some(d)), r, c); r in b.ranks && Exact(b.ranks[r], d.sequence, hist[d.sequence])
  {
    var image := AppliedDict(v.ranks[r].image, d);
    DeltaImage(v.ranks[r].image, d);
    SizeOfDict(image);
    AdvancedOwnImage(v, r, d.sequence, image);
    DeltaTaken(v, r, d, c);
  }

  lemma PageKeepsExact(v: View, r: Rank, c: Checkpoint, hist: History, batch: nat)
    requires batch > 0 && Open(v, r) && Snapshot(v.ranks[r], hist, batch)
    requires CheckpointFits(hist, batch, c) && ValidEntries(c.entries) && 0 <= c.sequence && Holdable(v, hist[c.sequence])
    requires Exact(v.ranks[r], c.sequence, hist[c.sequence])
    ensures r in AfterPage(v, r, c).ranks && Exact(AfterPage(v, r, c).ranks[r], c.sequence, hist[c.sequence])
  {
    PageConverges(v, r, c, hist, batch);
  }

  lemma BodyExact(v: View, r: Rank, d: Option<Delta>, c: Checkpoint, hist: History, batch: nat)
    requires batch > 0 && Open(v, r) && Snapshot(v.ranks[r], hist, batch) && Honest(hist, batch, d, c)
    requires !v.ranks[r].desync && v.ranks[r].image.at == hist[v.ranks[r].sequence]
    requires Succeeds(v.ranks[r].sequence, d, c) && Holdable(v, hist[c.sequence])
    ensures r in AfterBody(v, r, d, c).ranks && Exact(AfterBody(v, r, d, c).ranks[r], c.sequence, hist[c.sequence])
  {
    var a := AfterDelta(v, r, d);
    DeltaSnapshot(v, r, d, hist, batch, c.sequence);
    DeltaStep(v, r, d);
    LostFacts(a, r);
    GapStep(a, r, c);
    if c.sequence == v.ranks[r].sequence {
      NothingNew(v, r, d, c, hist, batch);
    } else {
      DeltaExact(v, r, d.value, c, hist);
    }
    PageKeepsExact(AfterGap(a, r, c), r, c, hist, batch);
  }

  lemma ReportExact(v: View, rep: Report, hist: History, batch: nat)
    requires batch > 0 && Wf(v) && rep.rank in v.ranks && ValidIdentity(rep.id) && ValidReport(rep, v.bounds)
    requires var s := v.ranks[rep.rank];
      && Synced(s, rep.id, s.sequence) && Snapshot(s, hist, batch) && Succeeds(s.sequence, rep.delta, rep.checkpoint)
      && s.image.at == hist[s.sequence]
    requires Honest(hist, batch, rep.delta, rep.checkpoint)
    ensures rep.rank in AfterReport(v, rep).ranks
    ensures Exact(AfterReport(v, rep).ranks[rep.rank], rep.checkpoint.sequence, hist[rep.checkpoint.sequence])
  {
    CurrentBody(v, rep);
    BodyExact(v, rep.rank, rep.delta, rep.checkpoint, hist, batch);
  }

  lemma AddedByKey(m: map<Key, int>, d: Delta)
    requires NoRepeats(AddedKeys(d))
    ensures forall k :: k in Applied(m, d) <==> k in AddedKeys(d) || (k in m && k !in d.removed)
    ensures forall i :: 0 <= i < |d.added| ==> d.added[i].key in Applied(m, d) && Applied(m, d)[d.added[i].key] == d.added[i].span
    ensures forall k :: k in m && k !in d.removed && k !in AddedKeys(d) ==> Applied(m, d)[k] == m[k]
  {
    forall i, j | 0 <= i < j < |d.added| ensures d.added[i].key != d.added[j].key {
      assert AddedKeys(d)[i] != AddedKeys(d)[j];
    }
    MapOfDistinct(d.added);
    MapOfKeys(d.added);
    forall k ensures k in MapOf(d.added) <==> k in AddedKeys(d) {
      if k in AddedKeys(d) {
        var i :| 0 <= i < |AddedKeys(d)| && AddedKeys(d)[i] == k;
        assert d.added[i].key == k;
      }
      if k in MapOf(d.added) {
        var i :| 0 <= i < |d.added| && d.added[i].key == k;
        assert AddedKeys(d)[i] == k;
      }
    }
  }

  /** A consecutive delta is applied: the rank stays synchronized and shows the
      added keys with their spans, what it showed before and was neither removed
      nor added, and nothing else. */
  lemma DeltaIsApplied(v: View, rep: Report, hist: History, batch: nat)
    requires batch > 0 && Wf(v) && rep.rank in v.ranks && ValidIdentity(rep.id) && ValidReport(rep, v.bounds)
    requires rep.delta.Some? && rep.delta.value.sequence == rep.delta.value.base + 1 == rep.checkpoint.sequence
    requires var s := v.ranks[rep.rank];
      Synced(s, rep.id, rep.delta.value.base) && Snapshot(s, hist, batch) && s.image.at == hist[s.sequence]
    requires Honest(hist, batch, rep.delta, rep.checkpoint)
    ensures rep.rank in AfterReport(v, rep).ranks
    ensures var d, s, t := rep.delta.value, v.ranks[rep.rank], AfterReport(v, rep).ranks[rep.rank];
      && Synced(t, rep.id, d.sequence)
      && (forall i :: 0 <= i < |d.added| ==> d.added[i].key in t.image.at && t.image.at[d.added[i].key] == d.added[i].span)
      && (forall k :: k in s.image.at && k !in d.removed && k !in AddedKeys(d) ==> k in t.image.at && t.image.at[k] == s.image.at[k])
      && (forall k :: k in t.image.at ==> k in AddedKeys(d) || (k in s.image.at && k !in d.removed))
  {
    ReportFollowed(v, rep, hist, batch);
    ReportExact(v, rep, hist, batch);
    AddedByKey(v.ranks[rep.rank].image.at, rep.delta.value);
  }

  // ---- the handshake ----

  lemma DistinctEntries(entries: seq<Entry>)
    requires forall i, j :: 0 <= i < j < |entries| ==> entries[i].key != entries[j].key
    ensures |MapOf(entries)| == |entries|
    ensures forall i :: 0 <= i < |entries| ==> entries[i].key in MapOf(entries) && MapOf(entries)[entries[i].key] == entries[i].span
    ensures forall k :: k in MapOf(entries) ==> Entry(k, MapOf(entries)[k]) in entries
  {
    MapOfDistinct(entries);
    MapOfKeys(entries);
  }

  lemma GreetedImage(v: View, r: Rank, id: Identity, d: Dict)
    requires Wf(v) && r in v.ranks && WfDict(d) && |d.keys| <= v.bounds.Capacity()
    ensures var w := Adopted(v, r, id);
      && r in w.ranks && r in Replaced(w, r, d).ranks
      && Synced(Replaced(w, r, d).ranks[r], id, 0) && !Replaced(w, r, d).ranks[r].conflict
      && Replaced(w, r, d).ranks[r].pending.None?
      && Replaced(w, r, d).ranks[r].image == d
  {
    var w := Adopted(v, r, id);
    AdoptedFacts(v, r, id);
    OwnImageKept(w, r, d);
  }

  lemma SupersedingIdentity(v: View, r: Rank, id: Identity)
    requires r in v.ranks && Generations.Supersedes(v.ranks[r], id)
    ensures DispositionOf(v.ranks[r], id) in {Initial, Newer} && Identified(v, r, id) == Adopted(v, r, id)
  {
  }

  lemma GreetedIs(v: View, r: Rank, id: Identity, entries: seq<Entry>)
    requires v.bounds.Wf() && r in v.ranks && ValidIdentity(id) && DispositionOf(v.ranks[r], id) in {Initial, Newer}
    requires AcceptableStartup(entries, v.bounds)
    ensures AfterStartup(v, r, id, entries) == Replaced(Identified(v, r, id), r, PutAll(EmptyDict, entries))
  {
  }

  /** The handshake of a superseding process synchronizes the rank at once: it
      shows exactly the entries of the handshake. */
  lemma GreetingSynchronizes(v: View, r: Rank, id: Identity, entries: seq<Entry>)
    requires Wf(v) && r in v.ranks && Generations.Supersedes(v.ranks[r], id)
    requires ValidEntries(entries) && |entries| <= v.bounds.Capacity()
    requires forall i, j :: 0 <= i < j < |entries| ==> entries[i].key != entries[j].key
    ensures r in AfterStartup(v, r, id, entries).ranks
    ensures var t := AfterStartup(v, r, id, entries).ranks[r];
      && Synced(t, id, 0) && !t.conflict && t.pending.None?
      && (forall k :: k in t.image.at ==> Entry(k, t.image.at[k]) in entries)
      && |t.image.at| == |entries|
      && forall i :: 0 <= i < |entries| ==> entries[i].key in t.image.at && t.image.at[entries[i].key] == entries[i].span
  {
    DistinctEntries(entries);
    StartupImage(entries);
    SupersedingIdentity(v, r, id);
    GreetedIs(v, r, id, entries);
    SizeOfDict(PutAll(EmptyDict, entries));
    GreetedImage(v, r, id, PutAll(EmptyDict, entries));
  }
}
