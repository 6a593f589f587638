/** A rank whose worker is at rest converges on what the worker holds. */
module Convergence {
  import opened Collections
  import opened Inventory
  import opened Reporter
  import opened ReporterHistory
  import Catalog
  import opened CatalogSteps
  import opened Snapshots
  import opened Network

  type View = Catalog.View
  type RankState = Catalog.RankState

  // ---- the worker ----

  /** Nothing is queued: everything held has been observed. */
  ghost predicate AtRest(s: ReporterState, batch: nat, hist: History) {
    Inv(s, batch, hist) && s.held.at == s.observed && 0 in hist
  }

  function Pages(s: ReporterState, batch: nat): (count: nat)
    requires batch > 0
    ensures count >= 1
  {
    PageCount(|s.items|, batch)
  }

  /** At rest a report only moves the cursors. */
  ghost predicate Rolled(s: ReporterState, t: ReporterState, batch: nat)
    requires batch > 0
  {
    && t.rank == s.rank && t.id == s.id && t.bounds == s.bounds && t.held == s.held
    && t.sequence == s.sequence && t.items == s.items
    && s.cycle <= t.cycle
  }

  lemma RestReport(s: ReporterState, batch: nat, hist: History)
    requires AtRest(s, batch, hist)
    ensures AtRest(AfterReport(s, batch), batch, hist) && Rolled(s, AfterReport(s, batch), batch)
    ensures var t, last := AfterReport(s, batch), s.index + 1 >= Pages(s, batch);
      t.index == (if last then 0 else s.index + 1) && t.cycle == (if last then s.cycle + 1 else s.cycle)
    ensures NextReport(s, batch).checkpoint == CurrentPage(s, batch)
    ensures Honest(hist, batch, NextReport(s, batch).delta, CurrentPage(s, batch))
  {
    ReportKeepsInv(s, batch, hist);
    ReportIsHonest(s, batch, hist);
  }

  lemma NothingUnseen(held: map<Key, int>, observed: map<Key, int>)
    requires SubMap(held, observed)
    ensures Sorted(Unseen(held, observed)) == [] && observed - Obsolete(held, observed) == held
  {
    assert Unseen(held, observed) == map[];
  }

  lemma AppliedRemovals(m: map<Key, int>, d: Delta, held: map<Key, int>)
    requires d.added == [] && m - ToSet(d.removed) == held
    ensures Applied(m, d) == held
  {
    assert MapOf([]) == map[];
  }

  /** Without queued additions the removals are all that a report can observe. */
  lemma OnlyRemovals(s: ReporterState, batch: nat)
    requires SubMap(s.held.at, s.observed)
    ensures Seen(s, batch) == s.held.at
  {
    if Within(s, batch) {
      var gone, d := Obsolete(s.held.at, s.observed), NewDelta(s, batch);
      NothingUnseen(s.held.at, s.observed);
      assert d.added == [] && d.removed == SortedKeys(gone);
      RemovalsListed(gone);
      AppliedRemovals(s.observed, d, s.held.at);
    }
  }

  lemma RemovalsListed(gone: set<Key>)
    ensures ToSet(SortedKeys(gone)) == gone
  {
    SortedKeysFacts(gone);
  }

  /** With no additions queued, one report observes all that is held. */
  lemma QuietRests(s: ReporterState, batch: nat, hist: History)
    requires Inv(s, batch, hist) && 0 in hist && SubMap(s.held.at, s.observed)
    ensures AtRest(AfterReport(s, batch), batch, Extended(hist, s, batch)) && AfterReport(s, batch).held == s.held
  {
    ReportKeepsInv(s, batch, hist);
    OnlyRemovals(s, batch);
  }

  // ---- the catalog ----

  /** The catalog can hold the image of one worker. */
  predicate Holdable(v: View, m: map<Key, int>) { v.bounds.Wf() && |m| <= v.bounds.Capacity() }

  /** The rank shows exactly the map `m` at `sequence`. */
  ghost predicate Exact(t: RankState, sequence: int, m: map<Key, int>) {
    !t.desync && t.sequence == sequence && t.image.at == m
  }

  /** Pages `0..n` of the current cycle have arrived. */
  ghost predicate Gathered(t: RankState, sequence: int, cycle: int, n: nat) {
    n > 0 ==>
      && t.pending.Some? && t.pending.value.sequence == sequence && t.pending.value.cycle == cycle
      && forall i :: 0 <= i < n ==> i in t.pending.value.pages
  }

  function Incoming(t: RankState, c: Checkpoint): Catalog.Pending {
    Catalog.WithPage(Catalog.Collecting(t.pending, c), c)
  }

  /** All pages of an observed image restore exactly that image. */
  lemma LastPage(v: View, r: Rank, q: Catalog.Pending, hist: History, batch: nat)
    requires batch > 0 && Open(v, r) && PendingFits(hist, batch, q) && |q.pages| == q.count
    requires (forall i :: i in q.pages ==> ValidEntries(q.pages[i])) && Holdable(v, hist[q.sequence])
    ensures var image := PutAll(EmptyDict, Flatten(q.pages, q.count));
      && |Flatten(q.pages, q.count)| == q.heldCount == |MapOf(Flatten(q.pages, q.count))|
      && r in Catalog.Advanced(Catalog.DropPending(v, r), r, q.sequence, image).ranks
      && Exact(Catalog.Advanced(Catalog.DropPending(v, r), r, q.sequence, image).ranks[r], q.sequence, hist[q.sequence])
  {
    var u, image := Catalog.DropPending(v, r), PutAll(EmptyDict, Flatten(q.pages, q.count));
    DropPendingFacts(v, r);
    AllPages(q, hist, batch);
    FlatImage(q.pages, q.count);
    SizeOfDict(image);
    AdvancedOwnImage(u, r, q.sequence, image);
  }

  /** An honest page of the newest image either completes it or is kept. */
  lemma PageConverges(v: View, r: Rank, c: Checkpoint, hist: History, batch: nat)
    requires batch > 0 && Open(v, r) && Snapshot(v.ranks[r], hist, batch)
    requires CheckpointFits(hist, batch, c) && ValidEntries(c.entries) && 0 <= c.sequence
    requires v.ranks[r].sequence <= c.sequence && Holdable(v, hist[c.sequence])
    ensures r in Catalog.AfterPage(v, r, c).ranks
    ensures var q, t := Incoming(v.ranks[r], c), Catalog.AfterPage(v, r, c).ranks[r];
      if |q.pages| == q.count then Exact(t, c.sequence, hist[c.sequence])
      else t == v.ranks[r].(pending := Some(q))
  {
    var q := Incoming(v.ranks[r], c);
    PageAccepted(v.ranks[r].pending, c, hist, batch);
    CollectingFacts(v.ranks[r].pending, c);
    DropPendingFacts(v, r);
    if |q.pages| == q.count {
      LastPage(v, r, q, hist, batch);
    }
  }

  /** The part of a report before its page is taken. */
  function BeforePage(v: View, r: Rank, d: Option<Delta>, c: Checkpoint): View
    requires r in v.ranks && v.bounds.Wf()
  {
    Catalog.AfterGap(Catalog.AfterDelta(v, r, d), r, c)
  }

  lemma BeforePageFacts(v: View, r: Rank, d: Option<Delta>, c: Checkpoint, hist: History, batch: nat)
    requires batch > 0 && Open(v, r) && Snapshot(v.ranks[r], hist, batch) && Honest(hist, batch, d, c)
    requires v.ranks[r].sequence <= c.sequence
    ensures var b := BeforePage(v, r, d, c);
      && Open(b, r) && OnlyRank(v, b, r) && Snapshot(b.ranks[r], hist, batch)
      && b.ranks[r].sequence <= c.sequence && b.ranks[r].pending == v.ranks[r].pending
      && (!v.ranks[r].desync && v.ranks[r].sequence == c.sequence ==> b == v)
  {
    var a := Catalog.AfterDelta(v, r, d);
    DeltaSnapshot(v, r, d, hist, batch, c.sequence);
    DeltaStep(v, r, d);
    LostFacts(a, r);
    GapStep(a, r, c);
    OnlyRankChain(v, a, BeforePage(v, r, d, c), r);
  }

  lemma BodyConverges(v: View, r: Rank, d: Option<Delta>, c: Checkpoint, hist: History, batch: nat)
    requires batch > 0 && Open(v, r) && Snapshot(v.ranks[r], hist, batch) && Honest(hist, batch, d, c)
    requires v.ranks[r].sequence <= c.sequence && Holdable(v, hist[c.sequence])
    ensures r in Catalog.AfterBody(v, r, d, c).ranks
    ensures var q, t := Incoming(v.ranks[r], c), Catalog.AfterBody(v, r, d, c).ranks[r];
      && (|q.pages| == q.count || Exact(v.ranks[r], c.sequence, hist[c.sequence]) ==> Exact(t, c.sequence, hist[c.sequence]))
      && (|q.pages| == q.count || t.pending == Some(q))
  {
    BeforePageFacts(v, r, d, c, hist, batch);
    PageConverges(BeforePage(v, r, d, c), r, c, hist, batch);
  }

  /** The catalog will listen to the worker and is not ahead of it. */
  ghost predicate Ready(t: RankState, s: ReporterState, batch: nat, hist: History)
    requires batch > 0
  {
    && Catalog.Listens(t, s.id)
    && (t.generation == Some(s.id) ==> Snapshot(t, hist, batch))
  }

  function Heard(v: View, s: ReporterState, batch: nat): View
    requires batch > 0 && s.rank in v.ranks && v.bounds.Wf()
  {
    Catalog.AfterReport(v, NextReport(s, batch))
  }

  lemma IdentityTaken(v: View, r: Rank, id: Identity)
    requires r in v.ranks && Catalog.Listens(v.ranks[r], id)
    ensures Catalog.Identified(v, r, id) == if v.ranks[r].generation == Some(id) then v else Catalog.Adopted(v, r, id)
  {
  }

  ghost predicate TakenBy(v: View, w: View, r: Rank, id: Identity, top: int, batch: nat, hist: History)
    requires batch > 0
  {
    && Open(w, r) && OnlyRank(v, w, r) && Snapshot(w.ranks[r], hist, batch)
    && w.ranks[r].generation == Some(id) && w.ranks[r].sequence <= top
  }

  lemma AdoptedTaken(v: View, r: Rank, id: Identity, top: int, batch: nat, hist: History)
    requires batch > 0 && Catalog.Wf(v) && r in v.ranks && 0 in hist && 0 <= top
    ensures TakenBy(v, Catalog.Adopted(v, r, id), r, id, top, batch, hist)
  {
    AdoptedFacts(v, r, id);
    AdoptedSnapshot(v, r, id, hist, batch);
  }

  lemma CurrentTaken(v: View, r: Rank, id: Identity, top: int, batch: nat, hist: History)
    requires batch > 0 && Catalog.Wf(v) && r in v.ranks && Catalog.Listens(v.ranks[r], id) && Bounded(hist, top)
    requires v.ranks[r].generation == Some(id) && Snapshot(v.ranks[r], hist, batch)
    ensures TakenBy(v, v, r, id, top, batch, hist)
  {
  }

  /** Taking the worker's identity leaves the rank not ahead of the worker. */
  lemma HeardIdentity(v: View, r: Rank, id: Identity, top: int, batch: nat, hist: History)
    requires batch > 0 && Catalog.Wf(v) && r in v.ranks && Catalog.Listens(v.ranks[r], id)
    requires v.ranks[r].generation == Some(id) ==> Snapshot(v.ranks[r], hist, batch)
    requires 0 in hist && Bounded(hist, top)
    ensures TakenBy(v, Catalog.Identified(v, r, id), r, id, top, batch, hist)
    ensures v.ranks[r].generation == Some(id) ==> Catalog.Identified(v, r, id) == v
  {
    IdentityTaken(v, r, id);
    if v.ranks[r].generation == Some(id) {
      CurrentTaken(v, r, id, top, batch, hist);
    } else {
      AdoptedTaken(v, r, id, top, batch, hist);
    }
  }

  ghost predicate Countable(s: ReporterState) {
    s.sequence <= MAX_COUNTER && s.cycle <= MAX_COUNTER
  }

  lemma HeardBody(v: View, s: ReporterState, batch: nat, hist: History)
    requires v.bounds.Wf() && s.rank in v.ranks && AtRest(s, batch, hist) && s.bounds == v.bounds && Countable(s)
    requires Catalog.Listens(v.ranks[s.rank], s.id)
    ensures Heard(v, s, batch) ==
      Catalog.AfterBody(Catalog.Identified(v, s.rank, s.id), s.rank, NextReport(s, batch).delta, CurrentPage(s, batch))
  {
    RestReport(s, batch, hist);
    ReportsAreValid(s, batch, hist);
  }

  /** The catalog follows the worker's process. */
  ghost predicate Tuned(t: RankState, s: ReporterState, batch: nat, hist: History)
    requires batch > 0
  {
    t.generation == Some(s.id) && !t.conflict && Snapshot(t, hist, batch)
  }

  /** The catalog shows exactly what the worker holds. */
  ghost predicate Converged(t: RankState, s: ReporterState) {
    Exact(t, s.sequence, s.held.at)
  }

  ghost predicate Deliverable(v: View, s: ReporterState, batch: nat, hist: History) {
    && Catalog.Wf(v) && s.rank in v.ranks && AtRest(s, batch, hist) && s.bounds == v.bounds && Countable(s)
  }

  lemma PageKept(t: RankState, c: Checkpoint, n: nat)
    requires Gathered(t, c.sequence, c.cycle, n) && c.index == n
    ensures var q := Incoming(t, c);
      q.sequence == c.sequence && q.cycle == c.cycle && forall i :: 0 <= i <= n ==> i in q.pages
  {
  }

  /** The first report that is listened to. */
  lemma FirstConverges(v: View, s: ReporterState, batch: nat, hist: History)
    requires Deliverable(v, s, batch, hist) && Ready(v.ranks[s.rank], s, batch, hist)
    ensures Catalog.Wf(Heard(v, s, batch)) && s.rank in Heard(v, s, batch).ranks
    ensures Tuned(Heard(v, s, batch).ranks[s.rank], s, batch, hist)
  {
    var r := s.rank;
    ReportStep(v, NextReport(s, batch));
    RestReport(s, batch, hist);
    HeardIdentity(v, r, s.id, s.sequence, batch, hist);
    HeardBody(v, s, batch, hist);
    BodySnapshot(Catalog.Identified(v, r, s.id), r, NextReport(s, batch).delta, CurrentPage(s, batch), hist, batch);
  }

  /** Each report keeps what was gathered, and an exact image stays exact. */
  lemma StepConverges(v: View, s: ReporterState, batch: nat, hist: History)
    requires Deliverable(v, s, batch, hist) && Tuned(v.ranks[s.rank], s, batch, hist)
    ensures s.rank in Heard(v, s, batch).ranks
    ensures var t, u := v.ranks[s.rank], Heard(v, s, batch).ranks[s.rank];
      && (Converged(t, s) ==> Converged(u, s))
      && (Gathered(t, s.sequence, s.cycle, s.index) ==> Converged(u, s) || Gathered(u, s.sequence, s.cycle, s.index + 1))
  {
    var r, c := s.rank, CurrentPage(s, batch);
    RestReport(s, batch, hist);
    HeardIdentity(v, r, s.id, s.sequence, batch, hist);
    HeardBody(v, s, batch, hist);
    BodyConverges(v, r, NextReport(s, batch).delta, c, hist, batch);
    if Gathered(v.ranks[r], s.sequence, s.cycle, s.index) {
      PageKept(v.ranks[r], c, s.index);
    }
  }

  /** A pending checkpoint is never left with all of its pages. */
  lemma FullCycle(v: View, s: ReporterState, batch: nat, hist: History, cycle: int)
    requires Catalog.Wf(v) && s.rank in v.ranks && AtRest(s, batch, hist) && Tuned(v.ranks[s.rank], s, batch, hist)
    ensures !Gathered(v.ranks[s.rank], s.sequence, cycle, Pages(s, batch))
  {
    var t := v.ranks[s.rank];
    if Gathered(t, s.sequence, cycle, Pages(s, batch)) {
      assert Catalog.WfRank(t);
      SortedIsListing(s.observed);
      SubsetSize(Below(Pages(s, batch)), t.pending.value.pages.Keys);
      assert false;
    }
  }

  // ---- runs of consecutive reports ----

  /** Between two reports of the rank, other traffic leaves its record alone. */
  ghost predicate Calm(v: View, w: View, r: Rank) {
    Catalog.Wf(w) && r in v.ranks && r in w.ranks && w.ranks[r] == v.ranks[r]
  }

  /** `views[k]` is the catalog just before report `k` of the worker `s`, and
      the last view is the catalog after them all. */
  ghost predicate Delivery(views: seq<View>, s: ReporterState, batch: nat, hist: History) {
    && views != []
    && (|views| > 1 ==>
          && Deliverable(views[0], s, batch, hist) && Calm(Heard(views[0], s, batch), views[1], s.rank)
          && Delivery(views[1..], AfterReport(s, batch), batch, hist))
  }

  /** The rank after one report. */
  ghost predicate Kept(t: RankState, u: RankState, s: ReporterState) {
    && (Converged(t, s) ==> Converged(u, s))
    && (Gathered(t, s.sequence, s.cycle, s.index) ==> Converged(u, s) || Gathered(u, s.sequence, s.cycle, s.index + 1))
  }

  lemma OneReport(v: View, w: View, s: ReporterState, batch: nat, hist: History)
    requires Deliverable(v, s, batch, hist) && Ready(v.ranks[s.rank], s, batch, hist)
    requires Calm(Heard(v, s, batch), w, s.rank)
    ensures Tuned(w.ranks[s.rank], s, batch, hist)
    ensures Tuned(v.ranks[s.rank], s, batch, hist) ==> Kept(v.ranks[s.rank], w.ranks[s.rank], s)
    ensures s.index + 1 >= Pages(s, batch) ==> !Gathered(w.ranks[s.rank], s.sequence, s.cycle, s.index + 1)
  {
    FirstConverges(v, s, batch, hist);
    if Tuned(v.ranks[s.rank], s, batch, hist) {
      StepConverges(v, s, batch, hist);
    }
    FullCycle(w, s, batch, hist, s.cycle);
  }

  ghost predicate TunedWorker(v: View, s: ReporterState, batch: nat, hist: History)
    requires batch > 0
  {
    s.rank in v.ranks && Tuned(v.ranks[s.rank], s, batch, hist)
  }

  /** The last view shows exactly what the worker holds. */
  ghost predicate EndsConverged(views: seq<View>, s: ReporterState)
    requires views != []
  {
    var v := views[|views| - 1];
    s.rank in v.ranks && Converged(v.ranks[s.rank], s)
  }

  lemma EndsLater(views: seq<View>, s: ReporterState, t: ReporterState)
    requires |views| > 1 && t.rank == s.rank && t.sequence == s.sequence && t.held == s.held
    requires EndsConverged(views[1..], t)
    ensures EndsConverged(views, s)
  {
  }

  lemma {:induction false} ConvergedStays(views: seq<View>, s: ReporterState, batch: nat, hist: History)
    requires AtRest(s, batch, hist) && Delivery(views, s, batch, hist) && TunedWorker(views[0], s, batch, hist)
    requires Converged(views[0].ranks[s.rank], s)
    ensures EndsConverged(views, s)
  {
    if |views| > 1 {
      OneReport(views[0], views[1], s, batch, hist);
      RestReport(s, batch, hist);
      ConvergedStays(views[1..], AfterReport(s, batch), batch, hist);
      EndsLater(views, s, AfterReport(s, batch));
    }
  }

  lemma CycleStep(v: View, w: View, s: ReporterState, batch: nat, hist: History)
    requires Deliverable(v, s, batch, hist) && TunedWorker(v, s, batch, hist) && Calm(Heard(v, s, batch), w, s.rank)
    requires Gathered(v.ranks[s.rank], s.sequence, s.cycle, s.index)
    ensures var t := AfterReport(s, batch);
      && AtRest(t, batch, hist) && Pages(t, batch) == Pages(s, batch) && t.rank == s.rank
      && t.sequence == s.sequence && t.held == s.held && TunedWorker(w, t, batch, hist)
      && (Converged(w.ranks[s.rank], t) || (t.index == s.index + 1 && Gathered(w.ranks[s.rank], t.sequence, t.cycle, t.index)))
  {
    OneReport(v, w, s, batch, hist);
    RestReport(s, batch, hist);
  }

  /** Once all earlier pages of the cycle have arrived, the rest completes it. */
  lemma {:induction false} CycleConverges(views: seq<View>, s: ReporterState, batch: nat, hist: History)
    requires AtRest(s, batch, hist) && Delivery(views, s, batch, hist) && TunedWorker(views[0], s, batch, hist)
    requires Gathered(views[0].ranks[s.rank], s.sequence, s.cycle, s.index)
    requires |views| > Pages(s, batch) - s.index
    ensures EndsConverged(views, s)
  {
    CycleStep(views[0], views[1], s, batch, hist);
    if Converged(views[1].ranks[s.rank], s) {
      ConvergedStays(views[1..], AfterReport(s, batch), batch, hist);
    } else {
      CycleConverges(views[1..], AfterReport(s, batch), batch, hist);
    }
    EndsLater(views, s, AfterReport(s, batch));
  }

  lemma {:induction false} ConvergesFrom(views: seq<View>, s: ReporterState, batch: nat, hist: History)
    requires AtRest(s, batch, hist) && Delivery(views, s, batch, hist)
    requires |views| > 2 * Pages(s, batch) - s.index
    requires Ready(views[0].ranks[s.rank], s, batch, hist)
    ensures EndsConverged(views, s)
  {
    OneReport(views[0], views[1], s, batch, hist);
    RestReport(s, batch, hist);
    if s.index + 1 >= Pages(s, batch) {
      CycleConverges(views[1..], AfterReport(s, batch), batch, hist);
    } else {
      ConvergesFrom(views[1..], AfterReport(s, batch), batch, hist);
    }
    EndsLater(views, s, AfterReport(s, batch));
  }

  /** Convergence: once the worker is at rest, any `2 * count` consecutive
      delivered reports leave the rank synchronized on exactly what is held. */
  lemma Converges(views: seq<View>, s: ReporterState, batch: nat, hist: History)
    requires AtRest(s, batch, hist) && Delivery(views, s, batch, hist) && |views| == 2 * Pages(s, batch) + 1
    requires Ready(views[0].ranks[s.rank], s, batch, hist)
    ensures EndsConverged(views, s)
  {
    ConvergesFrom(views, s, batch, hist);
  }

  /** In every reachable state of the network the catalog is ready for any
      worker it will listen to. */
  lemma ReachableIsReady(sys: System, r: Rank)
    requires SystemInv(sys) && r in sys.channels && r in sys.view.ranks
    requires Catalog.Listens(sys.view.ranks[r], sys.channels[r].worker.id)
    ensures var w := sys.channels[r].worker;
      && w.rank == r && w.id in sys.channels[r].lives
      && Ready(sys.view.ranks[r], w, sys.batch, sys.channels[r].lives[w.id].images)
      && (w.held.at == w.observed ==> AtRest(w, sys.batch, sys.channels[r].lives[w.id].images))
  {
    FitsAt(sys, r);
  }
}
