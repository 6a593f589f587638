/** Process generations: reserved epochs only grow, whatever crashes and clocks
    do, and a conflicting rank stays withdrawn until a larger epoch arrives. */
module Generations {
  import opened Collections
  import opened Inventory
  import opened Catalog
  import opened CatalogSteps
  import opened CrashDisk

  const PERSISTENT_EPOCH_BASE: int := 0x4000_0000_0000_0000
  const MAX_EPOCH: int := 0x7FFF_FFFF_FFFF_FFFF

  /** The next epoch after `previous` at clock `clock`. */
  function NextEpoch(previous: int, clock: int): int {
    if previous < PERSISTENT_EPOCH_BASE
    then Max(PERSISTENT_EPOCH_BASE + clock, PERSISTENT_EPOCH_BASE + previous)
    else Max(previous + 1, PERSISTENT_EPOCH_BASE + clock)
  }

  /** Above the previous epoch, above a migrated one moved into the new domain,
      and not below the clock. */
  predicate AtLeastNext(previous: int, clock: int, e: int) {
    && e > previous && e >= PERSISTENT_EPOCH_BASE + clock
    && (previous < PERSISTENT_EPOCH_BASE ==> e >= PERSISTENT_EPOCH_BASE + previous)
  }

  /** The next epoch is the least that the record and the clock allow. */
  lemma NextIsLeast(previous: int, clock: int, e: int)
    requires clock > 0 && AtLeastNext(previous, clock, e)
    ensures AtLeastNext(previous, clock, NextEpoch(previous, clock)) && NextEpoch(previous, clock) <= e
  {
  }

  /** A clock that fits the domain, and a record that leaves room in it. */
  predicate Reservable(previous: int, clock: int) {
    previous < MAX_EPOCH && 0 < clock <= MAX_EPOCH - PERSISTENT_EPOCH_BASE
  }

  /** The rank's generation record and its sentry, in one directory. */
  class GenerationState {
    var epoch: Cell<Option<int>>
    var required: Cell<bool>
    /** Every epoch that a reservation has returned. */
    ghost var issued: seq<int>
    /** How many system calls have failed. */
    ghost var faults: nat

    ghost predicate Valid()
      reads this
    {
      && epoch.now in epoch.may && required.now in required.may
      && (forall v :: v in epoch.may ==> v.None? || 0 < v.value <= MAX_EPOCH)
      && (true in required.may ==> None !in epoch.may)
      && (issued != [] ==> None !in epoch.may)
      && (forall n :: 0 <= n < |issued| ==>
            PERSISTENT_EPOCH_BASE <= issued[n] <= MAX_EPOCH && forall v :: v in epoch.may && v.Some? ==> issued[n] <= v.value)
      && (forall n, m :: 0 <= n < m < |issued| ==> issued[n] < issued[m])
    }

    /** A fresh root, or one with an epoch of an earlier release. */
    constructor (legacy: Option<int>)
      requires legacy.Some? ==> 0 < legacy.value <= MAX_EPOCH
      ensures Valid() && issued == []
    {
      epoch, required, issued, faults := Cell(legacy, {legacy}), Cell(false, {false}), [], 0;
    }

    function Previous(): int
      reads this
    {
      if epoch.now.Some? then epoch.now.value else 0
    }

    /** A system call, which may fail. */
    method Attempt() returns (ok: bool)
      modifies this`faults
      ensures faults == old(faults) + if ok then 0 else 1
    {
      ok := *;
      faults := if ok then faults else faults + 1;
    }

    /** Replaces the record atomically, then syncs the directory. */
    method WriteEpoch(v: int) returns (ok: bool)
      requires Valid() && 0 < v <= MAX_EPOCH && forall n :: 0 <= n < |issued| ==> issued[n] < v
      modifies this`epoch, this`required, this`faults
      ensures faults >= old(faults) && (faults == old(faults) ==> ok)
      ensures Valid() && required.now == old(required.now) && epoch.now in {old(epoch.now), Some(v)}
      ensures ok ==> epoch == Cell(Some(v), {Some(v)})
    {
      ok := Attempt();
      if ok {
        epoch := epoch.Set(Some(v));
        ok := Attempt();
        if ok {
          epoch, required := epoch.Sync(), required.Sync();
        }
      }
    }

    method WriteSentry() returns (ok: bool)
      requires Valid() && None !in epoch.may && epoch.may == {epoch.now}
      modifies this`required, this`faults
      ensures faults >= old(faults) && (faults == old(faults) ==> ok)
      ensures Valid() && (ok ==> required == Cell(true, {true}))
    {
      ok := Attempt();
      if ok {
        required := required.Set(true);
        ok := Attempt();
        if ok {
          required := required.Sync();
        }
      }
    }

    /** Reserves an epoch above every epoch that was ever returned. */
    method Reserve(clock: int) returns (r: Option<int>, lost: bool)
      requires Valid()
      modifies this
      ensures Valid() && !lost
      ensures r.Some? ==> AtLeastNext(old(Previous()), clock, r.value)
      ensures r.Some? ==> forall e :: AtLeastNext(old(Previous()), clock, e) ==> r.value <= e
      ensures !Reservable(old(Previous()), clock) ==> r.None? && epoch == old(epoch) && required == old(required)
      ensures Reservable(old(Previous()), clock) && faults == old(faults) ==> r.Some?
      ensures r.Some? ==> issued == old(issued) + [r.value] && epoch == Cell(r, {r}) && required.now
      ensures r.Some? ==> PERSISTENT_EPOCH_BASE <= r.value <= MAX_EPOCH
      ensures r.Some? ==> forall n :: 0 <= n < |old(issued)| ==> old(issued)[n] < r.value
      ensures r.None? ==> issued == old(issued)
    {
      r, lost := None, epoch.now.None? && required.now;
      var previous := Previous();
      if lost || previous >= MAX_EPOCH || !(0 < clock <= MAX_EPOCH - PERSISTENT_EPOCH_BASE) {
        return;
      }
      var next := NextEpoch(previous, clock);
      forall e | AtLeastNext(previous, clock, e) ensures next <= e {
        NextIsLeast(previous, clock, e);
      }
      assert forall n :: 0 <= n < |issued| ==> issued[n] <= previous < next;
      var ok := WriteEpoch(next);
      if ok && !required.now {
        ok := WriteSentry();
      }
      if ok {
        r := Some(next);
        issued := issued + [next];
      }
    }

    method Crash(e: Option<int>, q: bool)
      requires Valid() && e in epoch.may && q in required.may
      modifies this`epoch, this`required
      ensures Valid() && epoch.now == e && required.now == q
    {
      epoch, required := Cell(e, {e}), Cell(q, {q});
    }
  }

  /** A later reservation is adopted by a catalog that knows an earlier one. */
  lemma LaterEpochIsAdopted(s: RankState, issued: seq<int>, n: nat, m: nat, id: Identity)
    requires forall i, j :: 0 <= i < j < |issued| ==> issued[i] < issued[j]
    requires n < m < |issued| && s.generation.Some? && s.generation.value.epoch == issued[n] && id.epoch == issued[m]
    ensures DispositionOf(s, id) == Newer
  {
  }

  // ---- conflicts ----

  datatype Arrival = Report(report: Report) | Handshake(rank: Rank, id: Identity, entries: seq<Entry>) {
    function From(): Rank { if Report? then report.rank else rank }

    function Id(): Identity { if Report? then report.id else id }
  }

  function Taken(v: View, a: Arrival): View
    requires a.From() in v.ranks && v.bounds.Wf()
  {
    match a
    case Report(rep) => Catalog.AfterReport(v, rep)
    case Handshake(r, id, entries) => Catalog.AfterStartup(v, r, id, entries)
  }

  /** An identity that the rank must follow: the first valid one, or a valid one
      with a strictly larger epoch. */
  predicate Supersedes(s: RankState, id: Identity) {
    ValidIdentity(id) && (s.generation.None? || id.epoch > s.generation.value.epoch)
  }

  lemma TakenWf(v: View, a: Arrival)
    requires Wf(v) && a.From() in v.ranks
    ensures Wf(Taken(v, a)) && OnlyRank(v, Taken(v, a), a.From())
  {
    match a
    case Report(rep) => ReportStep(v, rep);
    case Handshake(r, id, entries) => StartupStep(v, r, id, entries);
  }

  ghost predicate Withheld(s: RankState) {
    s.conflict && s.desync && s.image == EmptyDict
  }

  lemma NotSuperseded(s: RankState, id: Identity)
    requires WfRank(s) && s.conflict && !Supersedes(s, id)
    ensures !ValidIdentity(id) || DispositionOf(s, id) in {Stale, Conflict}
  {
  }

  lemma NotFollowed(v: View, a: Arrival)
    requires Wf(v) && a.From() in v.ranks && v.ranks[a.From()].conflict && !Supersedes(v.ranks[a.From()], a.Id())
    ensures Taken(v, a) == v || Taken(v, a) == Conflicted(v, a.From())
  {
    assert WfRank(v.ranks[a.From()]);
    NotSuperseded(v.ranks[a.From()], a.Id());
  }

  /** A packet that does not supersede leaves a conflicting rank as it is. */
  lemma ConflictStays(v: View, a: Arrival)
    requires Wf(v) && a.From() in v.ranks && v.ranks[a.From()].conflict && !Supersedes(v.ranks[a.From()], a.Id())
    ensures a.From() in Taken(v, a).ranks
    ensures Withheld(Taken(v, a).ranks[a.From()])
    ensures Taken(v, a).ranks[a.From()].generation == v.ranks[a.From()].generation
  {
    NotFollowed(v, a);
    ConflictedFacts(v, a.From());
    assert WfRank(v.ranks[a.From()]);
  }

  /** The process that a rank follows and those it followed before. */
  function LineOf(s: RankState): (Option<Identity>, seq<Identity>) { (s.generation, s.past) }

  lemma IdentifiedLine(v: View, r: Rank, id: Identity)
    requires Wf(v) && r in v.ranks && Supersedes(v.ranks[r], id)
    ensures ValidIdentity(id) && Listens(v.ranks[r], id) && DispositionOf(v.ranks[r], id) in {Initial, Newer}
    ensures Open(Identified(v, r, id), r) && LineOf(Identified(v, r, id).ranks[r]) == LineOf(AdoptedRank(v.ranks[r], id))
    ensures Identified(v, r, id).bounds == v.bounds
  {
    IdentifiedFacts(v, r, id);
    AdoptedFacts(v, r, id);
  }

  /** The rank follows the process of the packet. */
  ghost predicate Leads(w: View, r: Rank, id: Identity, line: (Option<Identity>, seq<Identity>)) {
    r in w.ranks && w.ranks[r].generation == Some(id) && !w.ranks[r].conflict && LineOf(w.ranks[r]) == line
  }

  lemma ReportLeads(v: View, rep: Report)
    requires Wf(v) && rep.rank in v.ranks && Supersedes(v.ranks[rep.rank], rep.id)
    ensures Leads(Catalog.AfterReport(v, rep), rep.rank, rep.id, LineOf(AdoptedRank(v.ranks[rep.rank], rep.id)))
  {
    var r := rep.rank;
    var w := Identified(v, r, rep.id);
    IdentifiedLine(v, r, rep.id);
    LostFacts(w, r);
    if ValidReport(rep, v.bounds) {
      BodyStep(w, r, rep.delta, rep.checkpoint);
      BodyKeepsGeneration(w, r, rep.delta, rep.checkpoint);
    } else {
      DropPendingFacts(Lost(w, r), r);
    }
  }

  lemma HandshakeLeads(v: View, r: Rank, id: Identity, entries: seq<Entry>)
    requires Wf(v) && r in v.ranks && Supersedes(v.ranks[r], id)
    ensures Leads(Catalog.AfterStartup(v, r, id, entries), r, id, LineOf(AdoptedRank(v.ranks[r], id)))
  {
    var w := Identified(v, r, id);
    IdentifiedLine(v, r, id);
    if AcceptableStartup(entries, v.bounds) {
      StartupImage(entries);
      ReplacedFacts(w, r, PutAll(EmptyDict, entries));
    }
  }

  /** The first packet that supersedes ends the conflict, whatever else is wrong
      with it; then the rank still waits for an image. */
  lemma ConflictEnds(v: View, a: Arrival)
    requires Wf(v) && a.From() in v.ranks && Supersedes(v.ranks[a.From()], a.Id())
    ensures a.From() in Taken(v, a).ranks
    ensures Taken(v, a).ranks[a.From()].generation == Some(a.Id()) && !Taken(v, a).ranks[a.From()].conflict
    ensures LineOf(Taken(v, a).ranks[a.From()]) == LineOf(AdoptedRank(v.ranks[a.From()], a.Id()))
  {
    match a
    case Report(rep) => ReportLeads(v, rep);
    case Handshake(r, id, entries) => HandshakeLeads(v, r, id, entries);
  }

  lemma LostKeepsGeneration(v: View, r: Rank)
    requires Wf(v) && r in v.ranks
    ensures r in Lost(v, r).ranks && LineOf(Lost(v, r).ranks[r]) == LineOf(v.ranks[r])
  {
    LostFacts(v, r);
  }

  lemma AdvancedKeepsGeneration(v: View, r: Rank, sequence: int, d: Dict)
    requires Open(v, r) && WfDict(d)
    ensures r in Advanced(v, r, sequence, d).ranks && LineOf(Advanced(v, r, sequence, d).ranks[r]) == LineOf(v.ranks[r])
  {
    AdvancedFacts(v, r, sequence, d);
  }

  lemma DeltaKeepsGeneration(v: View, r: Rank, d: Option<Delta>)
    requires Open(v, r) && (d.Some? ==> ValidEntries(d.value.added))
    ensures r in AfterDelta(v, r, d).ranks
    ensures LineOf(AfterDelta(v, r, d).ranks[r]) == LineOf(v.ranks[r])
  {
    LostKeepsGeneration(v, r);
    if d.Some? {
      var image := AppliedDict(v.ranks[r].image, d.value);
      DeltaImage(v.ranks[r].image, d.value);
      AdvancedKeepsGeneration(v, r, d.value.sequence, image);
    }
  }

  lemma CompletedKeepsGeneration(v: View, r: Rank, p: Pending)
    requires Open(v, r) && 0 < p.count && forall i :: i in p.pages ==> ValidEntries(p.pages[i])
    ensures r in Completed(v, r, p).ranks
    ensures LineOf(Completed(v, r, p).ranks[r]) == LineOf(v.ranks[r])
  {
    LostKeepsGeneration(v, r);
    FlatImage(p.pages, p.count);
    AdvancedKeepsGeneration(v, r, p.sequence, PutAll(EmptyDict, Flatten(p.pages, p.count)));
  }

  lemma PageKeepsGeneration(v: View, r: Rank, c: Checkpoint)
    requires Open(v, r) && ValidEntries(c.entries)
    ensures r in AfterPage(v, r, c).ranks
    ensures LineOf(AfterPage(v, r, c).ranks[r]) == LineOf(v.ranks[r])
  {
    DropPendingFacts(v, r);
    LostFacts(DropPending(v, r), r);
    var q := WithPage(Collecting(v.ranks[r].pending, c), c);
    if Acceptable(Collecting(v.ranks[r].pending, c), c) {
      CollectingFacts(v.ranks[r].pending, c);
      CompletedKeepsGeneration(DropPending(v, r), r, q);
    }
  }

  lemma BodyKeepsGeneration(v: View, r: Rank, d: Option<Delta>, c: Checkpoint)
    requires Open(v, r) && ValidEntries(c.entries) && (d.Some? ==> ValidEntries(d.value.added))
    ensures r in AfterBody(v, r, d, c).ranks
    ensures LineOf(AfterBody(v, r, d, c).ranks[r]) == LineOf(v.ranks[r])
  {
    var a := AfterDelta(v, r, d);
    DeltaStep(v, r, d);
    DeltaKeepsGeneration(v, r, d);
    LostFacts(a, r);
    GapStep(a, r, c);
    PageKeepsGeneration(AfterGap(a, r, c), r, c);
  }

  /** A superseded identity is remembered; only the oldest one of a full history
      is forgotten for it. */
  lemma SupersededIsRemembered(v: View, a: Arrival)
    requires Wf(v) && a.From() in v.ranks && Supersedes(v.ranks[a.From()], a.Id()) && v.ranks[a.From()].generation.Some?
    ensures a.From() in Taken(v, a).ranks
    ensures var s, t := v.ranks[a.From()], Taken(v, a).ranks[a.From()];
      && t.generation == Some(a.Id()) && s.generation.value in t.past
      && forall p :: p in s.past ==> p in t.past || (|s.past| >= GENERATION_HISTORY && p == s.past[0])
  {
    ConflictEnds(v, a);
  }

  /** A delayed packet of a remembered process changes nothing. */
  lemma RememberedIsIgnored(v: View, late: Arrival)
    requires v.bounds.Wf() && late.From() in v.ranks && ValidIdentity(late.Id())
    requires var s := v.ranks[late.From()];
      s.generation.Some? && late.Id() in s.past && late.Id().epoch < s.generation.value.epoch
    ensures Taken(v, late) == v
  {
  }

  /** After a restart, whatever still arrives from the previous process is
      ignored, and is no conflict. */
  lemma PreviousIsIgnored(v: View, a: Arrival, late: Arrival)
    requires Wf(v) && a.From() == late.From() && a.From() in v.ranks && Supersedes(v.ranks[a.From()], a.Id()) && ValidIdentity(late.Id())
    requires v.ranks[a.From()].generation == Some(late.Id())
    ensures Taken(Taken(v, a), late) == Taken(v, a)
  {
    TakenWf(v, a);
    SupersededIsRemembered(v, a);
    RememberedIsIgnored(Taken(v, a), late);
  }

  // ---- packets that withdraw ----

  /** No order between the packet's process and the rank's can be told: the
      identity is malformed, or an older one that is not remembered, or another
      one of the same epoch, or the rank is in conflict already. */
  predicate Ambiguous(s: RankState, id: Identity) {
    || !ValidIdentity(id)
    || (s.generation.Some? && id.epoch < s.generation.value.epoch && id !in s.past)
    || (s.generation.Some? && id.epoch == s.generation.value.epoch && (id.generation != s.generation.value.generation || s.conflict))
  }

  lemma AmbiguousIsConflict(v: View, a: Arrival)
    requires a.From() in v.ranks && v.bounds.Wf() && Ambiguous(v.ranks[a.From()], a.Id())
    ensures Taken(v, a) == Conflicted(v, a.From())
  {
  }

  /** A packet of such a process withdraws the rank until the conflict ends. */
  lemma AmbiguousIsWithheld(v: View, a: Arrival)
    requires Wf(v) && a.From() in v.ranks && Ambiguous(v.ranks[a.From()], a.Id())
    ensures a.From() in Taken(v, a).ranks && Withheld(Taken(v, a).ranks[a.From()])
    ensures LineOf(Taken(v, a).ranks[a.From()]) == LineOf(v.ranks[a.From()])
  {
    AmbiguousIsConflict(v, a);
    ConflictedFacts(v, a.From());
  }

  /** The rank shows nothing and collects from the beginning. */
  predicate Cleared(s: RankState) {
    s.desync && s.image == EmptyDict && s.pending.None?
  }

  lemma MalformedIs(v: View, rep: Report)
    requires rep.rank in v.ranks && v.bounds.Wf() && ValidIdentity(rep.id) && Listens(v.ranks[rep.rank], rep.id)
    requires !ValidReport(rep, v.bounds)
    ensures Catalog.AfterReport(v, rep) == DropPending(Lost(Identified(v, rep.rank, rep.id), rep.rank), rep.rank)
  {
  }

  /** A malformed report of a process that the rank follows withdraws the rank. */
  lemma MalformedIsCleared(v: View, rep: Report)
    requires Wf(v) && rep.rank in v.ranks && ValidIdentity(rep.id) && !ValidReport(rep, v.bounds)
    requires var s := v.ranks[rep.rank]; Supersedes(s, rep.id) || (s.generation == Some(rep.id) && !s.conflict)
    ensures rep.rank in Catalog.AfterReport(v, rep).ranks && Cleared(Catalog.AfterReport(v, rep).ranks[rep.rank])
  {
    var w := Identified(v, rep.rank, rep.id);
    IdentifiedFacts(v, rep.rank, rep.id);
    MalformedIs(v, rep);
    LostFacts(w, rep.rank);
  }

  /** A handshake that cannot be taken leaves the rank of the new process empty. */
  lemma RefusedIsCleared(v: View, r: Rank, id: Identity, entries: seq<Entry>)
    requires Wf(v) && r in v.ranks && Supersedes(v.ranks[r], id) && !AcceptableStartup(entries, v.bounds)
    ensures r in Catalog.AfterStartup(v, r, id, entries).ranks && Cleared(Catalog.AfterStartup(v, r, id, entries).ranks[r])
  {
    IdentifiedLine(v, r, id);
    AdoptedFacts(v, r, id);
  }

  /** A repeated handshake changes nothing. */
  lemma RepeatedIsIgnored(v: View, r: Rank, id: Identity, entries: seq<Entry>)
    requires v.bounds.Wf() && r in v.ranks && ValidIdentity(id) && v.ranks[r].generation == Some(id) && !v.ranks[r].conflict
    ensures Catalog.AfterStartup(v, r, id, entries) == v
  {
  }

  // ---- whole sequences of packets ----

  /** `views` are the catalogs before, between and after the arrivals. */
  ghost predicate Arrivals(views: seq<View>, arrivals: seq<Arrival>) {
    && |views| == |arrivals| + 1 && Wf(views[0])
    && forall i :: 0 <= i < |arrivals| ==>
         arrivals[i].From() in views[i].ranks && views[i].bounds.Wf() && views[i + 1] == Taken(views[i], arrivals[i])
  }

  /** Conflicts are sticky: through any packets of any ranks, a withheld rank
      stays empty and desynchronized until an identity supersedes its own. */
  lemma {:induction false} ConflictSticky(views: seq<View>, arrivals: seq<Arrival>, r: Rank, n: nat)
    requires Arrivals(views, arrivals) && n < |views| && r in views[0].ranks && Withheld(views[0].ranks[r])
    requires forall i :: 0 <= i < n && arrivals[i].From() == r ==> !Supersedes(views[0].ranks[r], arrivals[i].Id())
    ensures Wf(views[n]) && r in views[n].ranks && Withheld(views[n].ranks[r])
    ensures views[n].ranks[r].generation == views[0].ranks[r].generation
  {
    if n > 0 {
      var v, a := views[n - 1], arrivals[n - 1];
      ConflictSticky(views, arrivals, r, n - 1);
      TakenWf(v, a);
      if a.From() == r {
        ConflictStays(v, a);
      } else {
        OtherStaysWithheld(v, Taken(v, a), a.From(), r);
      }
    }
  }

  lemma OtherStaysWithheld(v: View, w: View, q: Rank, r: Rank)
    requires OnlyRank(v, w, q) && Wf(w) && r in v.ranks && r != q && Withheld(v.ranks[r])
    ensures r in w.ranks && Withheld(w.ranks[r]) && w.ranks[r].generation == v.ranks[r].generation
  {
    assert Shrunk(v.ranks[r], w.ranks[r]) && WfRank(w.ranks[r]);
  }
}
