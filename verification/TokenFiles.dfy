/** Token files: which page slices each file of a prefix chain owns. */
module TokenFiles {
  import opened Collections
  import opened Hma

  /** Prefix keys and, in a disjoint domain, the key of a prefix's boundary
      state: distinct hash inputs are taken to have distinct digests. */
  datatype FileKey = Prefix(id: nat) | Boundary(of: FileKey)

  datatype Kind = Data | State

  /** The most files that one capture or transfer batch takes. */
  const MAX_BATCH_CHUNKS: nat := 16

  predicate Owns(g: Group, kind: Kind) { g.policy.Full? == kind.Data? }

  predicate HasBoundaryState(layout: Layout) {
    exists i :: 0 <= i < |layout.groups| && !layout.groups[i].policy.Full?
  }

  /** One slice per layer of a group. */
  function GroupSlices(g: Group, start: nat, count: nat, n: nat): seq<PageSlice>
    requires n <= |g.layers|
  {
    if n == 0 then [] else
      GroupSlices(g, start, count, n - 1) +
        [PageSlice(LayerKey(g.index, g.layers[n - 1].name), start, count, count * g.layers[n - 1].pageBytes)]
  }

  /** The chunk width divides into whole pages of every page-indexed group. */
  ghost predicate Aligned(layout: Layout, chunk: nat) {
    && layout.Wf() && chunk > 0
    && forall i :: 0 <= i < |layout.groups| && !layout.groups[i].policy.Circular? ==>
         chunk % layout.groups[i].tokensPerPage == 0
  }

  /** First page and page count of a group in the file that ends at `span`. */
  function FirstPage(g: Group, span: nat, chunk: nat, kind: Kind): nat
    requires g.Wf() && chunk <= span
  {
    if kind.Data? then (span - chunk) / g.tokensPerPage else 0
  }

  function PagesIn(g: Group, span: nat, chunk: nat, kind: Kind): nat
    requires g.Wf()
  {
    if kind.Data? then chunk / g.tokensPerPage
    else if SelectedPageCount(g, span).Some? then SelectedPageCount(g, span).value else 0
  }

  /** The slices of the first `n` groups. */
  function SlicesUpTo(layout: Layout, span: nat, chunk: nat, kind: Kind, n: nat): seq<PageSlice>
    requires layout.Wf() && chunk <= span && n <= |layout.groups|
  {
    if n == 0 then [] else
      SlicesUpTo(layout, span, chunk, kind, n - 1) + SlicesBy(layout.groups[n - 1], span, chunk, kind)
  }

  /** The page slices that one file owns. */
  function Slices(layout: Layout, span: nat, chunk: nat, kind: Kind): seq<PageSlice>
    requires layout.Wf() && chunk <= span
  {
    SlicesUpTo(layout, span, chunk, kind, |layout.groups|)
  }

  // ---- what a layer gets from one file ----

  lemma {:induction false} PagesOfAppend(a: seq<PageSlice>, b: seq<PageSlice>, key: LayerKey)
    ensures PagesOf(a + b, key) == PagesOf(a, key) + PagesOf(b, key)
  {
    if b == [] {
      assert a + b == a;
    } else {
      assert (a + b)[..|a + b| - 1] == a + b[..|b| - 1];
      PagesOfAppend(a, b[..|b| - 1], key);
    }
  }

  predicate LayerIn(g: Group, n: nat, key: LayerKey)
    requires n <= |g.layers|
  {
    key.group == g.index && exists i :: 0 <= i < n && g.layers[i].name == key.name
  }

  ghost predicate UniqueLayers(g: Group) {
    forall i, j :: 0 <= i < j < |g.layers| ==> g.layers[i].name != g.layers[j].name
  }

  lemma {:induction false} GroupGives(g: Group, start: nat, count: nat, n: nat, key: LayerKey)
    requires n <= |g.layers| && UniqueLayers(g)
    ensures PagesOf(GroupSlices(g, start, count, n), key) ==
            if LayerIn(g, n, key) then Range(start, start + count) else []
  {
    if n > 0 {
      var last := GroupMore(g, start, count, n);
      GroupGives(g, start, count, n - 1, key);
      LayerStep(g, n, key);
      OneGives(GroupSlices(g, start, count, n - 1), last, Range(start, start + count), LayerIn(g, n - 1, key), key);
    }
  }

  lemma GroupMore(g: Group, start: nat, count: nat, n: nat) returns (last: PageSlice)
    requires 0 < n <= |g.layers|
    ensures GroupSlices(g, start, count, n) == GroupSlices(g, start, count, n - 1) + [last]
    ensures last.key == LayerKey(g.index, g.layers[n - 1].name) && last.start == start && last.count == count
  {
    last := PageSlice(LayerKey(g.index, g.layers[n - 1].name), start, count, count * g.layers[n - 1].pageBytes);
  }

  lemma OneGives(before: seq<PageSlice>, last: PageSlice, pages: seq<nat>, was: bool, key: LayerKey)
    requires pages == Range(last.start, last.start + last.count) && (last.key == key ==> !was)
    requires PagesOf(before, key) == if was then pages else []
    ensures PagesOf(before + [last], key) == if was || last.key == key then pages else []
  {
    PagesOfAppend(before, [last], key);
    PagesOfOne(last, key);
    OnlyOne(PagesOf(before, key), PagesOf([last], key));
  }

  lemma OnlyOne<T>(a: seq<T>, b: seq<T>)
    ensures a == [] ==> a + b == b
    ensures b == [] ==> a + b == a
  {
  }

  lemma PagesOfOne(s: PageSlice, key: LayerKey)
    ensures PagesOf([s], key) == if s.key == key then Range(s.start, s.start + s.count) else []
  {
    assert [s][..0] == [];
  }

  lemma LayerStep(g: Group, n: nat, key: LayerKey)
    requires 0 < n <= |g.layers| && UniqueLayers(g)
    ensures LayerIn(g, n, key) <==> LayerIn(g, n - 1, key) || LayerKey(g.index, g.layers[n - 1].name) == key
    ensures LayerKey(g.index, g.layers[n - 1].name) == key ==> !LayerIn(g, n - 1, key)
  {
  }

  /** The layer belongs to one of the first `n` groups. */
  predicate Known(layout: Layout, n: nat, key: LayerKey)
    requires n <= |layout.groups|
  {
    key.group < n && LayerIn(layout.groups[key.group], |layout.groups[key.group].layers|, key)
  }

  /** What one file of a kind gives a layer of the first `n` groups. */
  function Given(layout: Layout, span: nat, chunk: nat, kind: Kind, n: nat, key: LayerKey): seq<nat>
    requires layout.Wf() && chunk <= span && n <= |layout.groups|
  {
    if Known(layout, n, key) && Owns(layout.groups[key.group], kind) then
      var g := layout.groups[key.group];
      Range(FirstPage(g, span, chunk, kind), FirstPage(g, span, chunk, kind) + PagesIn(g, span, chunk, kind))
    else []
  }

  /** What one group adds. */
  function GivenBy(g: Group, span: nat, chunk: nat, kind: Kind, key: LayerKey): seq<nat>
    requires g.Wf() && chunk <= span
  {
    if LayerIn(g, |g.layers|, key) && Owns(g, kind)
    then Range(FirstPage(g, span, chunk, kind), FirstPage(g, span, chunk, kind) + PagesIn(g, span, chunk, kind)) else []
  }

  lemma GivenStep(layout: Layout, span: nat, chunk: nat, kind: Kind, n: nat, key: LayerKey)
    requires layout.Wf() && chunk <= span && n < |layout.groups|
    ensures Given(layout, span, chunk, kind, n + 1, key) ==
            Given(layout, span, chunk, kind, n, key) + GivenBy(layout.groups[n], span, chunk, kind, key)
  {
    var g := layout.groups[n];
    assert LayerIn(g, |g.layers|, key) ==> key.group == n;
  }

  function SlicesBy(g: Group, span: nat, chunk: nat, kind: Kind): seq<PageSlice>
    requires g.Wf() && chunk <= span
  {
    if Owns(g, kind) then GroupSlices(g, FirstPage(g, span, chunk, kind), PagesIn(g, span, chunk, kind), |g.layers|) else []
  }

  lemma GroupPages(g: Group, span: nat, chunk: nat, kind: Kind, key: LayerKey)
    requires g.Wf() && chunk <= span && UniqueLayers(g)
    ensures PagesOf(SlicesBy(g, span, chunk, kind), key) == GivenBy(g, span, chunk, kind, key)
  {
    if Owns(g, kind) {
      GroupGives(g, FirstPage(g, span, chunk, kind), PagesIn(g, span, chunk, kind), |g.layers|, key);
    }
  }

  /** What the first `n` groups add, one after another. */
  function Added(layout: Layout, span: nat, chunk: nat, kind: Kind, n: nat, key: LayerKey): seq<nat>
    requires layout.Wf() && chunk <= span && n <= |layout.groups|
  {
    if n == 0 then [] else
      Added(layout, span, chunk, kind, n - 1, key) + GivenBy(layout.groups[n - 1], span, chunk, kind, key)
  }

  lemma {:induction false} AddedIsGiven(layout: Layout, span: nat, chunk: nat, kind: Kind, n: nat, key: LayerKey)
    requires layout.Wf() && chunk <= span && n <= |layout.groups|
    ensures Added(layout, span, chunk, kind, n, key) == Given(layout, span, chunk, kind, n, key)
  {
    if n > 0 {
      AddedIsGiven(layout, span, chunk, kind, n - 1, key);
      GivenStep(layout, span, chunk, kind, n - 1, key);
    }
  }

  lemma {:induction false} FileAdds(layout: Layout, span: nat, chunk: nat, kind: Kind, n: nat, key: LayerKey)
    requires layout.Wf() && chunk <= span && n <= |layout.groups|
    ensures PagesOf(SlicesUpTo(layout, span, chunk, kind, n), key) == Added(layout, span, chunk, kind, n, key)
  {
    if n > 0 {
      FileAdds(layout, span, chunk, kind, n - 1, key);
      GroupPages(layout.groups[n - 1], span, chunk, kind, key);
      PagesOfAppend(SlicesUpTo(layout, span, chunk, kind, n - 1), SlicesBy(layout.groups[n - 1], span, chunk, kind), key);
    }
  }

  lemma FileGives(layout: Layout, span: nat, chunk: nat, kind: Kind, n: nat, key: LayerKey)
    requires layout.Wf() && chunk <= span && n <= |layout.groups|
    ensures PagesOf(SlicesUpTo(layout, span, chunk, kind, n), key) == Given(layout, span, chunk, kind, n, key)
  {
    FileAdds(layout, span, chunk, kind, n, key);
    AddedIsGiven(layout, span, chunk, kind, n, key);
  }

  // ---- the needs of a layout ----

  lemma {:induction false} GroupNeedsAre(g: Group, pages: nat, n: nat, key: LayerKey)
    requires n <= |g.layers| && UniqueLayers(g)
    ensures key in GroupNeeds(g, pages, n) <==> LayerIn(g, n, key)
    ensures key in GroupNeeds(g, pages, n) ==> GroupNeeds(g, pages, n)[key].pages == pages
    ensures forall i :: 0 <= i < n && key == LayerKey(g.index, g.layers[i].name) ==>
      key in GroupNeeds(g, pages, n) && GroupNeeds(g, pages, n)[key].pageBytes == g.layers[i].pageBytes
  {
    if n > 0 {
      GroupNeedsAre(g, pages, n - 1, key);
      assert LayerIn(g, n, key) <==> LayerIn(g, n - 1, key) || LayerKey(g.index, g.layers[n - 1].name) == key;
    }
  }

  lemma {:induction false} NeedsAre(layout: Layout, span: int, n: nat, key: LayerKey)
    requires layout.Wf() && n <= |layout.groups| && NeedsUpTo(layout, span, n).Some?
    ensures key in NeedsUpTo(layout, span, n).value <==> Known(layout, n, key)
    ensures Known(layout, n, key) ==>
      SelectedPageCount(layout.groups[key.group], span) == Some(NeedsUpTo(layout, span, n).value[key].pages)
    ensures forall g, i :: 0 <= g < n && 0 <= i < |layout.groups[g].layers| && key == LayerKey(g, layout.groups[g].layers[i].name) ==>
      key in NeedsUpTo(layout, span, n).value && NeedsUpTo(layout, span, n).value[key].pageBytes == layout.groups[g].layers[i].pageBytes
  {
    if n > 0 {
      var g := layout.groups[n - 1];
      NeedsAre(layout, span, n - 1, key);
      GroupNeedsAre(g, SelectedPageCount(g, span).value, |g.layers|, key);
      assert Known(layout, n, key) <==> Known(layout, n - 1, key) || LayerIn(g, |g.layers|, key);
    }
  }

  // ---- byte lengths ----

  ghost predicate FitsGroup(s: PageSlice, g: Group) {
    exists i :: 0 <= i < |g.layers| && s.key == LayerKey(g.index, g.layers[i].name) && s.byteLength == s.count * g.layers[i].pageBytes
  }

  lemma {:induction false} GroupSlicesFit(g: Group, start: nat, count: nat, n: nat)
    requires n <= |g.layers|
    ensures forall i :: 0 <= i < |GroupSlices(g, start, count, n)| ==> FitsGroup(GroupSlices(g, start, count, n)[i], g)
  {
    if n > 0 {
      GroupSlicesFit(g, start, count, n - 1);
      var last := PageSlice(LayerKey(g.index, g.layers[n - 1].name), start, count, count * g.layers[n - 1].pageBytes);
      assert FitsGroup(last, g);
    }
  }

  ghost predicate FitsLayout(s: PageSlice, layout: Layout, n: nat)
    requires n <= |layout.groups|
  {
    s.key.group < n && FitsGroup(s, layout.groups[s.key.group])
  }

  lemma {:induction false} SlicesFit(layout: Layout, span: nat, chunk: nat, kind: Kind, n: nat, i: nat)
    requires layout.Wf() && chunk <= span && n <= |layout.groups| && i < |SlicesUpTo(layout, span, chunk, kind, n)|
    ensures FitsLayout(SlicesUpTo(layout, span, chunk, kind, n)[i], layout, n)
  {
    var before := SlicesUpTo(layout, span, chunk, kind, n - 1);
    if i < |before| {
      SlicesFit(layout, span, chunk, kind, n - 1, i);
    } else {
      var g := layout.groups[n - 1];
      GroupSlicesFit(g, FirstPage(g, span, chunk, kind), PagesIn(g, span, chunk, kind), |g.layers|);
    }
  }

  lemma FileFits(layout: Layout, span: nat, chunk: nat, kind: Kind, total: int)
    requires layout.Wf() && chunk <= span && Needs(layout, total).Some?
    ensures Fitting(Slices(layout, span, chunk, kind), Needs(layout, total).value)
  {
    var slices, needs := Slices(layout, span, chunk, kind), Needs(layout, total).value;
    forall i | 0 <= i < |slices|
      ensures slices[i].key in needs && slices[i].byteLength == slices[i].count * needs[slices[i].key].pageBytes
    {
      SlicesFit(layout, span, chunk, kind, |layout.groups|, i);
      NeedsAre(layout, total, |layout.groups|, slices[i].key);
      assert FitsGroup(slices[i], layout.groups[slices[i].key.group]);
    }
  }

  // ---- a whole chain ----

  /** The data files of spans `chunk`, `2 * chunk`, and so on. */
  function DataFiles(layout: Layout, chunk: nat, n: nat): seq<seq<PageSlice>>
    requires layout.Wf()
  {
    if n == 0 then [] else DataFiles(layout, chunk, n - 1) + [DataFile(layout, chunk, n - 1)]
  }

  function DataFile(layout: Layout, chunk: nat, i: nat): seq<PageSlice>
    requires layout.Wf()
  {
    ChunkBelow(i, chunk);
    Slices(layout, (i + 1) * chunk, chunk, Data)
  }

  lemma ChunkBelow(i: nat, chunk: nat)
    ensures chunk <= (i + 1) * chunk && (i + 1) * chunk - chunk == i * chunk
  {
  }

  /** All files of the prefix of `n` chunks; boundary state comes last. */
  function ChainFiles(layout: Layout, chunk: nat, n: nat): seq<seq<PageSlice>>
    requires layout.Wf() && n > 0
  {
    ChunkBelow(n - 1, chunk);
    DataFiles(layout, chunk, n) + if HasBoundaryState(layout) then [Slices(layout, n * chunk, chunk, State)] else []
  }

  lemma MultipleDivides(i: nat, chunk: nat, width: nat)
    requires width > 0 && chunk % width == 0
    ensures (i * chunk) / width == i * (chunk / width) && (i * chunk) % width == 0
  {
    var q := chunk / width;
    assert chunk == q * width;
    assert i * chunk == (i * q) * width;
    ExactQuotient(i * q, width);
  }

  lemma ExactQuotient(a: nat, width: nat)
    requires width > 0
    ensures (a * width) / width == a && (a * width) % width == 0
  {
    var x := a * width;
    var d := x / width - a;
    assert d * width == (x / width) * width - a * width == -(x % width);
    MulMonotone(1, d, width);
    MulMonotone(d, -1, width);
  }

  lemma {:induction false} JoinedOne(slices: seq<PageSlice>)
    ensures Joined([slices]) == slices
  {
    assert [slices][..0] == [];
  }

  /** The pages that `n` data files give a layer. */
  function Tiles(layout: Layout, chunk: nat, n: nat, key: LayerKey): seq<nat>
    requires layout.Wf()
  {
    if Known(layout, |layout.groups|, key) && layout.groups[key.group].policy.Full?
    then Range(0, n * (chunk / layout.groups[key.group].tokensPerPage)) else []
  }

  lemma TilesJoin(i: nat, q: nat)
    ensures i * q + q == (i + 1) * q
    ensures Range(0, i * q) + Range(i * q, i * q + q) == Range(0, (i + 1) * q)
  {
    RangeJoins(0, i * q, i * q + q);
  }

  /** The pages of one data file, for a layer of a full group. */
  function Tile(layout: Layout, chunk: nat, n: nat, key: LayerKey): seq<nat>
    requires layout.Wf()
  {
    if Known(layout, |layout.groups|, key) && layout.groups[key.group].policy.Full? then
      var q := chunk / layout.groups[key.group].tokensPerPage;
      Range(n * q, n * q + q)
    else []
  }

  lemma TilesStep(layout: Layout, chunk: nat, n: nat, key: LayerKey)
    requires layout.Wf()
    ensures Tiles(layout, chunk, n, key) + Tile(layout, chunk, n, key) == Tiles(layout, chunk, n + 1, key)
  {
    if Known(layout, |layout.groups|, key) && layout.groups[key.group].policy.Full? {
      TilesJoin(n, chunk / layout.groups[key.group].tokensPerPage);
    }
  }

  lemma NextDataFile(layout: Layout, chunk: nat, i: nat, key: LayerKey)
    requires Aligned(layout, chunk)
    ensures PagesOf(DataFile(layout, chunk, i), key) == Tile(layout, chunk, i, key)
  {
    ChunkBelow(i, chunk);
    FileGives(layout, (i + 1) * chunk, chunk, Data, |layout.groups|, key);
    if Known(layout, |layout.groups|, key) && layout.groups[key.group].policy.Full? {
      MultipleDivides(i, chunk, layout.groups[key.group].tokensPerPage);
    }
  }

  lemma NextFile(layout: Layout, chunk: nat, n: nat, key: LayerKey)
    requires layout.Wf()
    ensures PagesOf(Joined(DataFiles(layout, chunk, n + 1)), key) ==
            PagesOf(Joined(DataFiles(layout, chunk, n)), key) + PagesOf(DataFile(layout, chunk, n), key)
  {
    JoinedAppend(DataFiles(layout, chunk, n), [DataFile(layout, chunk, n)]);
    JoinedOne(DataFile(layout, chunk, n));
    PagesOfAppend(Joined(DataFiles(layout, chunk, n)), DataFile(layout, chunk, n), key);
  }

  /** What the first `n` data files give a layer, one after another. */
  function Filed(layout: Layout, chunk: nat, n: nat, key: LayerKey): seq<nat>
    requires layout.Wf()
  {
    if n == 0 then [] else Filed(layout, chunk, n - 1, key) + PagesOf(DataFile(layout, chunk, n - 1), key)
  }

  lemma NoFiles(layout: Layout, chunk: nat, key: LayerKey)
    requires layout.Wf()
    ensures PagesOf(Joined(DataFiles(layout, chunk, 0)), key) == []
  {
  }

  lemma {:induction false} DataFiled(layout: Layout, chunk: nat, n: nat, key: LayerKey)
    requires layout.Wf()
    ensures PagesOf(Joined(DataFiles(layout, chunk, n)), key) == Filed(layout, chunk, n, key)
  {
    if n == 0 {
      NoFiles(layout, chunk, key);
    } else {
      DataFiled(layout, chunk, n - 1, key);
      NextFile(layout, chunk, n - 1, key);
    }
  }

  lemma {:induction false} FiledIsTiles(layout: Layout, chunk: nat, n: nat, key: LayerKey)
    requires Aligned(layout, chunk)
    ensures Filed(layout, chunk, n, key) == Tiles(layout, chunk, n, key)
  {
    if n > 0 {
      FiledIsTiles(layout, chunk, n - 1, key);
      NextDataFile(layout, chunk, n - 1, key);
      TilesStep(layout, chunk, n - 1, key);
    }
  }

  /** Full groups are tiled file by file; other groups get nothing from data. */
  lemma DataTiles(layout: Layout, chunk: nat, n: nat, key: LayerKey)
    requires Aligned(layout, chunk)
    ensures PagesOf(Joined(DataFiles(layout, chunk, n)), key) == Tiles(layout, chunk, n, key)
  {
    DataFiled(layout, chunk, n, key);
    FiledIsTiles(layout, chunk, n, key);
  }

  lemma {:induction false} AlignedSpan(layout: Layout, chunk: nat, n: nat, upTo: nat)
    requires Aligned(layout, chunk) && n > 0 && upTo <= |layout.groups|
    ensures NeedsUpTo(layout, n * chunk, upTo).Some?
    ensures forall i :: 0 <= i < upTo ==> SelectedPageCount(layout.groups[i], n * chunk).Some?
    ensures forall i :: 0 <= i < upTo && layout.groups[i].policy.Full? ==>
      SelectedPageCount(layout.groups[i], n * chunk) == Some(n * (chunk / layout.groups[i].tokensPerPage))
  {
    ChunkBelow(n - 1, chunk);
    if upTo > 0 {
      AlignedSpan(layout, chunk, n, upTo - 1);
      var g := layout.groups[upTo - 1];
      if !g.policy.Circular? {
        MultipleDivides(n, chunk, g.tokensPerPage);
      }
    }
  }

  lemma {:induction false} DataFits(layout: Layout, chunk: nat, n: nat, total: int)
    requires layout.Wf() && Needs(layout, total).Some?
    ensures Fitting(Joined(DataFiles(layout, chunk, n)), Needs(layout, total).value)
  {
    if n > 0 {
      DataFits(layout, chunk, n - 1, total);
      JoinedAppend(DataFiles(layout, chunk, n - 1), [DataFile(layout, chunk, n - 1)]);
      JoinedOne(DataFile(layout, chunk, n - 1));
      ChunkBelow(n - 1, chunk);
      FileFits(layout, n * chunk, chunk, Data, total);
    }
  }

  lemma NoStateGroup(layout: Layout, i: nat)
    requires i < |layout.groups| && !HasBoundaryState(layout)
    ensures layout.groups[i].policy.Full?
  {
  }

  lemma StateFileGives(layout: Layout, chunk: nat, n: nat, key: LayerKey)
    requires Aligned(layout, chunk) && n > 0 && chunk <= n * chunk && HasBoundaryState(layout)
    ensures PagesOf(Joined(ChainFiles(layout, chunk, n)), key) ==
            PagesOf(Joined(DataFiles(layout, chunk, n)), key) + Given(layout, n * chunk, chunk, State, |layout.groups|, key)
  {
    var data, state := DataFiles(layout, chunk, n), Slices(layout, n * chunk, chunk, State);
    JoinedAppend(data, [state]);
    JoinedOne(state);
    PagesOfAppend(Joined(data), state, key);
    FileGives(layout, n * chunk, chunk, State, |layout.groups|, key);
  }

  /** Full groups need exactly the pages that the data files give. */
  lemma TilesAreNeeded(layout: Layout, chunk: nat, n: nat, key: LayerKey)
    requires Aligned(layout, chunk) && n > 0 && Known(layout, |layout.groups|, key)
    ensures SelectedPageCount(layout.groups[key.group], n * chunk).Some?
    ensures layout.groups[key.group].policy.Full? ==>
      Tiles(layout, chunk, n, key) == Range(0, SelectedPageCount(layout.groups[key.group], n * chunk).value)
    ensures !layout.groups[key.group].policy.Full? ==> Tiles(layout, chunk, n, key) == []
  {
    AlignedSpan(layout, chunk, n, |layout.groups|);
  }

  lemma ChainGives(layout: Layout, chunk: nat, n: nat, key: LayerKey)
    requires Aligned(layout, chunk) && n > 0 && Known(layout, |layout.groups|, key)
    ensures SelectedPageCount(layout.groups[key.group], n * chunk).Some?
    ensures PagesOf(Joined(ChainFiles(layout, chunk, n)), key) ==
            Range(0, SelectedPageCount(layout.groups[key.group], n * chunk).value)
  {
    TilesAreNeeded(layout, chunk, n, key);
    DataTiles(layout, chunk, n, key);
    ChunkBelow(n - 1, chunk);
    if HasBoundaryState(layout) {
      StateFileGives(layout, chunk, n, key);
    } else {
      NoStateGroup(layout, key.group);
      assert DataFiles(layout, chunk, n) + [] == DataFiles(layout, chunk, n);
    }
  }

  /** The files of a consecutive chain, with boundary state where the layout
      needs it, cover every required page of every layer exactly once. */
  lemma ChainCovers(layout: Layout, chunk: nat, n: nat)
    requires Aligned(layout, chunk) && n > 0
    ensures Needs(layout, n * chunk).Some?
    ensures Covers(Joined(ChainFiles(layout, chunk, n)), Needs(layout, n * chunk).value)
  {
    var data := DataFiles(layout, chunk, n);
    AlignedSpan(layout, chunk, n, |layout.groups|);
    DataFits(layout, chunk, n, n * chunk);
    ChunkBelow(n - 1, chunk);
    FileFits(layout, n * chunk, chunk, State, n * chunk);
    JoinedAppend(data, [Slices(layout, n * chunk, chunk, State)]);
    JoinedOne(Slices(layout, n * chunk, chunk, State));
    assert data + [] == data;
    var needs := Needs(layout, n * chunk).value;
    forall key | key in needs
      ensures PagesOf(Joined(ChainFiles(layout, chunk, n)), key) == Range(0, needs[key].pages)
    {
      NeedsAre(layout, n * chunk, |layout.groups|, key);
      ChainGives(layout, chunk, n, key);
    }
  }

  // ---- every slice is a valid page slice ----

  ghost predicate AllValid(slices: seq<PageSlice>) {
    forall i :: 0 <= i < |slices| ==> ValidSlice(slices[i])
  }

  lemma Positive(a: nat, b: nat)
    requires a > 0 && b > 0
    ensures a * b > 0
  {
  }

  lemma {:induction false} GroupSlicesValid(g: Group, start: nat, count: nat, n: nat)
    requires n <= |g.layers| && g.Wf() && count > 0
    ensures AllValid(GroupSlices(g, start, count, n))
  {
    if n > 0 {
      GroupSlicesValid(g, start, count, n - 1);
      Positive(count, g.layers[n - 1].pageBytes);
    }
  }

  lemma PagesInPositive(layout: Layout, chunk: nat, n: nat, kind: Kind, i: nat)
    requires Aligned(layout, chunk) && n > 0 && i < |layout.groups| && Owns(layout.groups[i], kind)
    ensures PagesIn(layout.groups[i], n * chunk, chunk, kind) > 0
  {
    AlignedSpan(layout, chunk, n, |layout.groups|);
    CountIsPositive(layout.groups[i], n * chunk);
    if kind.Data? {
      AlignedDivision(chunk, layout.groups[i].tokensPerPage);
    }
  }

  lemma {:induction false} FileValid(layout: Layout, chunk: nat, n: nat, kind: Kind, upTo: nat)
    requires Aligned(layout, chunk) && n > 0 && upTo <= |layout.groups| && chunk <= n * chunk
    ensures AllValid(SlicesUpTo(layout, n * chunk, chunk, kind, upTo))
  {
    if upTo > 0 {
      FileValid(layout, chunk, n, kind, upTo - 1);
      var g := layout.groups[upTo - 1];
      if Owns(g, kind) {
        PagesInPositive(layout, chunk, n, kind, upTo - 1);
        GroupSlicesValid(g, FirstPage(g, n * chunk, chunk, kind), PagesIn(g, n * chunk, chunk, kind), |g.layers|);
      }
    }
  }

  lemma {:induction false} DataFilesValid(layout: Layout, chunk: nat, n: nat)
    requires Aligned(layout, chunk)
    ensures |DataFiles(layout, chunk, n)| == n
    ensures forall i :: 0 <= i < n ==> AllValid(DataFiles(layout, chunk, n)[i])
  {
    if n > 0 {
      DataFilesValid(layout, chunk, n - 1);
      ChunkBelow(n - 1, chunk);
      FileValid(layout, chunk, n, Data, |layout.groups|);
    }
  }

  lemma ChainFilesValid(layout: Layout, chunk: nat, n: nat)
    requires Aligned(layout, chunk) && n > 0
    ensures forall i :: 0 <= i < |ChainFiles(layout, chunk, n)| ==> AllValid(ChainFiles(layout, chunk, n)[i])
  {
    DataFilesValid(layout, chunk, n);
    ChunkBelow(n - 1, chunk);
    FileValid(layout, chunk, n, State, |layout.groups|);
  }
}
