/** The scheduler side: one image per rank, and the keys that every rank holds. */
module Catalog {
  import opened Collections
  import opened Inventory

  type Images = map<Rank, Dict>

  datatype Pending = Pending(sequence: int, cycle: int, count: int, heldCount: int,
                             pages: map<int, seq<Entry>>, entryCount: int)

  datatype Disposition = Initial | Stale | Conflict | Newer | Current

  /** Everything the catalog knows about one rank. */
  datatype RankState = RankState(
    generation: Option<Identity>, past: seq<Identity>, sequence: int,
    image: Dict, pending: Option<Pending>, desync: bool, conflict: bool)

  /** The catalog without its reverse index and its memoised count. */
  datatype View = View(bounds: Bounds, ranks: map<Rank, RankState>, recency: seq<Key>, changes: int)

  function ImagesIn(ranks: map<Rank, RankState>): Images {
    map q | q in ranks :: ranks[q].image
  }

  function ImagesOf(v: View): Images { ImagesIn(v.ranks) }

  // ---- the reverse index ----

  function Advertised(images: Images): set<Key> {
    set q, k | q in images && k in images[q].at :: k
  }

  function Holders(images: Images, key: Key): set<Rank> {
    set q | q in images && key in images[q].at
  }

  function Index(images: Images): map<Key, set<Rank>> {
    map k | k in Advertised(images) :: Holders(images, k)
  }

  function WithoutEverywhere(images: Images, gone: set<Key>): Images {
    map q | q in images :: images[q].Without(gone)
  }

  // ---- quorum ----

  /** Every rank advertises `key` with span `span`. */
  ghost predicate Quorum(images: Images, key: Key, span: int) {
    forall q :: q in images ==> key in images[q].at && images[q].at[key] == span
  }

  ghost predicate AnyQuorum(images: Images, key: Key) {
    exists span :: Quorum(images, key, span)
  }

  ghost function QuorumKeys(images: Images): set<Key> {
    set k | k in Advertised(images) && AnyQuorum(images, k)
  }

  // ---- what each step does to the view ----

  /** Empties a rank's image; keys that no rank advertises any more leave the
      recency order. */
  function Withdrawn(v: View, r: Rank): View
    requires r in v.ranks
  {
    var ranks := v.ranks[r := v.ranks[r].(image := EmptyDict)];
    v.(ranks := ranks,
       recency := Drop(v.recency, Advertised(ImagesOf(v)) - Advertised(ImagesOf(v)[r := EmptyDict])))
  }

  /** Every rank's record without the keys `gone`. */
  function Trimmed(ranks: map<Rank, RankState>, gone: set<Key>): map<Rank, RankState> {
    map q | q in ranks :: ranks[q].(image := ranks[q].image.Without(gone))
  }

  function Enforced(v: View): View
    requires v.bounds.Wf()
  {
    var excess := Max(0, |v.recency| - v.bounds.Capacity());
    v.(ranks := Trimmed(v.ranks, ToSet(v.recency[..excess])), recency := v.recency[excess..])
  }

  function Advertise(v: View, r: Rank, d: Dict): View
    requires r in v.ranks
  {
    v.(ranks := v.ranks[r := v.ranks[r].(image := d, desync := false)],
       recency := Drop(v.recency, d.at.Keys) + d.keys)
  }

  function Replaced(v: View, r: Rank, d: Dict): View
    requires r in v.ranks && v.bounds.Wf()
  {
    Enforced(Advertise(Withdrawn(v, r), r, d))
  }

  function With(v: View, r: Rank, s: RankState): View {
    v.(ranks := v.ranks[r := s])
  }

  /** The rank's image can no longer be trusted. */
  function Lost(v: View, r: Rank): View
    requires r in v.ranks
  {
    With(Withdrawn(v, r), r, v.ranks[r].(image := EmptyDict, desync := true))
  }

  function DropPending(v: View, r: Rank): View
    requires r in v.ranks
  {
    With(v, r, v.ranks[r].(pending := None))
  }

  function DispositionOf(s: RankState, id: Identity): Disposition {
    if s.generation.None? then Initial
    else if id.epoch < s.generation.value.epoch then
      if id in s.past then Stale else Conflict
    else if id.epoch > s.generation.value.epoch then Newer
    else if id.generation != s.generation.value.generation || s.conflict then Conflict
    else Current
  }

  function Remembered(past: seq<Identity>, id: Identity): seq<Identity> {
    if id in past then past
    else (if |past| >= GENERATION_HISTORY then past[1..] else past) + [id]
  }

  function AdoptedRank(s: RankState, id: Identity): RankState {
    RankState(Some(id),
              if s.generation.Some? && s.generation.value != id then Remembered(s.past, s.generation.value) else s.past,
              0, EmptyDict, None, true, false)
  }

  function Adopted(v: View, r: Rank, id: Identity): View
    requires r in v.ranks
  {
    var s := v.ranks[r];
    var changed := s.generation.Some? && s.generation.value != id;
    With(Withdrawn(v, r), r, AdoptedRank(s, id)).(changes := if changed then v.changes + 1 else v.changes)
  }

  function ConflictedRank(s: RankState): RankState {
    s.(image := EmptyDict, pending := None, desync := true, conflict := true)
  }

  function Conflicted(v: View, r: Rank): View
    requires r in v.ranks
  {
    With(Withdrawn(v, r), r, ConflictedRank(v.ranks[r])).(
      changes := if v.ranks[r].conflict then v.changes else v.changes + 1)
  }

  /** Moves the rank to `sequence` with image `d`. */
  function Advanced(v: View, r: Rank, sequence: int, d: Dict): View
    requires r in v.ranks && v.bounds.Wf()
  {
    Replaced(With(v, r, v.ranks[r].(sequence := sequence)), r, d)
  }

  predicate Continues(s: RankState, d: Delta) {
    d.base == s.sequence && d.sequence == s.sequence + 1
  }

  function WithDelta(v: View, r: Rank, d: Delta): View
    requires r in v.ranks && v.bounds.Wf()
  {
    Advanced(v, r, d.sequence, AppliedDict(v.ranks[r].image, d))
  }

  /** Only a synchronized rank follows deltas. */
  function AfterDelta(v: View, r: Rank, d: Option<Delta>): View
    requires r in v.ranks && v.bounds.Wf()
  {
    if d.None? || v.ranks[r].desync then v
    else if Continues(v.ranks[r], d.value) then WithDelta(v, r, d.value)
    else if d.value.sequence > v.ranks[r].sequence then Lost(v, r)
    else v
  }

  /** A checkpoint from a newer worker state proves the image incomplete. */
  function AfterGap(v: View, r: Rank, c: Checkpoint): View
    requires r in v.ranks
  {
    if !v.ranks[r].desync && c.sequence > v.ranks[r].sequence then Lost(v, r) else v
  }

  function Collecting(pending: Option<Pending>, c: Checkpoint): Pending {
    if pending.Some? && pending.value.cycle == c.cycle && pending.value.sequence == c.sequence
    then pending.value
    else Pending(c.sequence, c.cycle, c.count, c.heldCount, map[], 0)
  }

  function Projected(p: Pending, c: Checkpoint): int {
    p.entryCount - |PageAt(p.pages, c.index)| + |c.entries|
  }

  predicate Acceptable(p: Pending, c: Checkpoint) {
    && 0 < c.count && 0 <= c.index < c.count
    && c.count == p.count && c.heldCount == p.heldCount
    && Projected(p, c) <= p.heldCount
  }

  function WithPage(p: Pending, c: Checkpoint): Pending {
    p.(pages := p.pages[c.index := c.entries], entryCount := Projected(p, c))
  }

  function Completed(v: View, r: Rank, p: Pending): View
    requires r in v.ranks && v.bounds.Wf() && 0 <= p.count
  {
    var flat := Flatten(p.pages, p.count);
    if p.sequence < v.ranks[r].sequence then v
    else if |flat| != p.heldCount || |MapOf(flat)| != |flat| then Lost(v, r)
    else Advanced(v, r, p.sequence, PutAll(EmptyDict, flat))
  }

  function AfterPage(v: View, r: Rank, c: Checkpoint): View
    requires r in v.ranks && v.bounds.Wf()
  {
    var p := Collecting(v.ranks[r].pending, c);
    if !Acceptable(p, c) then Lost(DropPending(v, r), r)
    else
      var q := WithPage(p, c);
      if |q.pages| == q.count then Completed(DropPending(v, r), r, q)
      else With(v, r, v.ranks[r].(pending := Some(q)))
  }

  function AfterBody(v: View, r: Rank, d: Option<Delta>, c: Checkpoint): View
    requires r in v.ranks && v.bounds.Wf()
  {
    AfterPage(AfterGap(AfterDelta(v, r, d), r, c), r, c)
  }

  function Identified(v: View, r: Rank, id: Identity): View
    requires r in v.ranks
  {
    match DispositionOf(v.ranks[r], id)
    case Initial => Adopted(v, r, id)
    case Newer => Adopted(v, r, id)
    case Conflict => Conflicted(v, r)
    case Stale => v
    case Current => v
  }

  predicate Listens(s: RankState, id: Identity) {
    DispositionOf(s, id) in {Initial, Newer, Current}
  }

  function AfterReport(v: View, rep: Report): View
    requires rep.rank in v.ranks && v.bounds.Wf()
  {
    var r := rep.rank;
    if !ValidIdentity(rep.id) then Conflicted(v, r)
    else
      var w := Identified(v, r, rep.id);
      if !Listens(v.ranks[r], rep.id) then w
      else if !ValidReport(rep, v.bounds) then DropPending(Lost(w, r), r)
      else AfterBody(w, r, rep.delta, rep.checkpoint)
  }

  predicate AcceptableStartup(entries: seq<Entry>, b: Bounds)
    requires b.Wf()
  {
    ValidEntries(entries) && |entries| <= b.Capacity() && |MapOf(entries)| == |entries|
  }

  function AfterStartup(v: View, r: Rank, id: Identity, entries: seq<Entry>): View
    requires r in v.ranks && v.bounds.Wf()
  {
    if !ValidIdentity(id) then Conflicted(v, r)
    else
      var w := Identified(v, r, id);
      if DispositionOf(v.ranks[r], id) in {Initial, Newer} && AcceptableStartup(entries, v.bounds)
      then Replaced(w, r, PutAll(EmptyDict, entries))
      else w
  }

  /** A rank that has not been heard of. */
  const NoRecord := RankState(None, [], 0, EmptyDict, None, true, false)

  function Unheard(expected: set<Rank>, bounds: Bounds): View {
    View(bounds, map q | q in expected :: NoRecord, [], 0)
  }

  // ---- well-formed views ----

  ghost predicate WfPending(p: Pending) {
    && 0 < p.count && |p.pages| < p.count
    && forall i :: i in p.pages ==> 0 <= i < p.count && ValidEntries(p.pages[i])
  }

  ghost predicate WfDict(d: Dict) { d.Wf() && ValidSpans(d.at) }

  ghost predicate WfRank(s: RankState) {
    && WfDict(s.image)
    && (s.desync ==> s.image == EmptyDict)
    && (s.conflict || s.generation.None? ==> s.desync)
    && (s.pending.Some? ==> WfPending(s.pending.value))
  }

  ghost predicate WfRecency(recency: seq<Key>, images: Images) {
    Distinct(recency) && ToSet(recency) == Advertised(images)
  }

  ghost predicate WfRanks(v: View) {
    v.bounds.Wf() && forall q :: q in v.ranks ==> WfRank(v.ranks[q])
  }

  ghost predicate Wf(v: View) {
    WfRanks(v) && WfRecency(v.recency, ImagesOf(v)) && |v.recency| <= v.bounds.Capacity()
  }
}
