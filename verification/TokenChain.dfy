/** Walking a prefix's parent links, whatever the store holds. */
module TokenChain {
  import opened Collections
  import opened Hma
  import opened TokenFiles

  const MAX_SPAN: int := 0x7FFF_FFFF_FFFF_FFFF

  datatype Descriptor = Descriptor(key: FileKey, parent: Option<FileKey>, span: int, kind: Kind)

  /** A file as found: what its header says, and whether frame, checksum,
      lengths and the rest of the header are as written. */
  datatype Stored = Stored(parent: Option<FileKey>, span: int, kind: Kind, intact: bool)

  datatype Opened = Opened(desc: Descriptor) | Missing | Malformed

  /** The header checks that bind key, parent, span and kind together. */
  predicate HeaderValid(layout: Layout, chunk: nat, key: FileKey, s: Stored)
    requires chunk > 0
  {
    && 0 < s.span <= MAX_SPAN && s.span % chunk == 0
    && match s.kind
       case State => HasBoundaryState(layout) && s.parent.Some? && key == Boundary(s.parent.value)
       case Data => (s.span == chunk ==> s.parent.None?) && (s.span > chunk ==> s.parent.Some?)
  }

  /** The namespace at one moment. */
  datatype Namespace = Namespace(layout: Layout, chunk: nat, files: map<FileKey, Stored>, withdrawn: set<FileKey>) {
    ghost predicate Wf() { Aligned(layout, chunk) }

    function Open(key: FileKey): Opened
      requires chunk > 0
    {
      if key in withdrawn then Malformed
      else if key !in files then Missing
      else if files[key].intact && HeaderValid(layout, chunk, key, files[key])
      then Opened(Descriptor(key, files[key].parent, files[key].span, files[key].kind))
      else Malformed
    }

    /** The data files of `key`'s prefix, one per chunk, linked by parent. */
    ghost predicate IsDataChain(key: FileKey, d: seq<Descriptor>)
      requires chunk > 0
    {
      && d != [] && d[|d| - 1].key == key
      && forall i :: 0 <= i < |d| ==>
           && Open(d[i].key) == Opened(d[i]) && d[i].kind.Data? && d[i].span == (i + 1) * chunk
           && d[i].parent == if i == 0 then None else Some(d[i - 1].key)
    }

    /** The whole restorable prefix: its data files, then its boundary state. */
    ghost predicate IsChain(key: FileKey, objects: seq<Descriptor>)
      requires chunk > 0
    {
      var n := if HasBoundaryState(layout) then |objects| - 1 else |objects|;
      && n >= 0 && IsDataChain(key, objects[..n])
      && (HasBoundaryState(layout) ==>
            Open(Boundary(key)) == Opened(objects[n]) &&
            objects[n] == Descriptor(Boundary(key), Some(key), n * chunk, State))
    }
  }

  /** `t` ends at `key` and each file's parent is the file before it. */
  ghost predicate Linked(ns: Namespace, key: FileKey, t: seq<Descriptor>)
    requires ns.chunk > 0
  {
    && (t != [] ==> t[|t| - 1].key == key)
    && (forall i :: 0 <= i < |t| ==> ns.Open(t[i].key) == Opened(t[i]) && t[i].kind.Data?)
    && (forall i :: 0 < i < |t| ==> t[i].parent == Some(t[i - 1].key) && t[i].span == t[i - 1].span + ns.chunk)
  }

  /** Every data chain of the key ends with `t`. */
  ghost predicate EndOfAll(ns: Namespace, key: FileKey, t: seq<Descriptor>)
    requires ns.chunk > 0
  {
    forall d :: ns.IsDataChain(key, d) ==> |t| <= |d| && d[|d| - |t|..] == t
  }

  /** Where the walk goes next. */
  function NextKey(key: FileKey, t: seq<Descriptor>): Option<FileKey> {
    if t == [] then Some(key) else t[0].parent
  }

  predicate Expects(ns: Namespace, t: seq<Descriptor>, desc: Descriptor) {
    desc.kind.Data? && (t != [] ==> desc.span == t[0].span - ns.chunk)
  }

  /** A data chain continues exactly as the walk does. */
  lemma ChainContinues(ns: Namespace, key: FileKey, t: seq<Descriptor>, d: seq<Descriptor>)
    requires ns.chunk > 0 && Linked(ns, key, t) && ns.IsDataChain(key, d) && |t| <= |d| && d[|d| - |t|..] == t
    ensures NextKey(key, t).Some? ==>
      var k := NextKey(key, t).value;
      && |t| < |d| && ns.Open(k) == Opened(d[|d| - |t| - 1]) && Expects(ns, t, d[|d| - |t| - 1])
    ensures NextKey(key, t).None? ==> d == t
  {
    var p := |d| - |t|;
    if t != [] {
      assert t[0] == d[p];
      if p > 0 { assert p * ns.chunk == (p + 1) * ns.chunk - ns.chunk; }
    }
  }

  /** Nothing can be restored where the next file is missing, malformed or
      out of step. */
  lemma BrokenWalk(ns: Namespace, key: FileKey, t: seq<Descriptor>)
    requires ns.chunk > 0 && Walked(ns, key, t) && NextKey(key, t).Some?
    requires var o := ns.Open(NextKey(key, t).value); o.Opened? ==> !Expects(ns, t, o.desc)
    ensures forall d :: !ns.IsDataChain(key, d)
  {
    WalkedFacts(ns, key, t);
    forall d ensures !ns.IsDataChain(key, d) {
      if ns.IsDataChain(key, d) { ChainContinues(ns, key, t, d); }
    }
  }

  lemma WalkStep(ns: Namespace, key: FileKey, t: seq<Descriptor>, desc: Descriptor)
    requires ns.chunk > 0 && Linked(ns, key, t) && EndOfAll(ns, key, t) && NextKey(key, t).Some?
    requires ns.Open(NextKey(key, t).value) == Opened(desc) && Expects(ns, t, desc)
    ensures Linked(ns, key, [desc] + t) && EndOfAll(ns, key, [desc] + t)
  {
    LinkedMore(ns, key, t, desc);
    forall d | ns.IsDataChain(key, d) ensures |t| + 1 <= |d| && d[|d| - |t| - 1..] == [desc] + t {
      ChainContinues(ns, key, t, d);
      EndsWith(d, t, desc);
    }
  }

  lemma LinkedMore(ns: Namespace, key: FileKey, t: seq<Descriptor>, desc: Descriptor)
    requires ns.chunk > 0 && Linked(ns, key, t) && NextKey(key, t) == Some(desc.key)
    requires ns.Open(desc.key) == Opened(desc) && Expects(ns, t, desc)
    ensures Linked(ns, key, [desc] + t)
  {
    var u := [desc] + t;
    forall i | 0 <= i < |u| ensures ns.Open(u[i].key) == Opened(u[i]) && u[i].kind.Data? {
      if i > 0 { assert u[i] == t[i - 1]; }
    }
    forall i | 0 < i < |u| ensures u[i].parent == Some(u[i - 1].key) && u[i].span == u[i - 1].span + ns.chunk {
      if i > 1 { assert u[i] == t[i - 1] && u[i - 1] == t[i - 2]; }
    }
  }

  /** `t` is what a walk from `key` has read, last file first. */
  ghost predicate Walked(ns: Namespace, key: FileKey, t: seq<Descriptor>)
    requires ns.chunk > 0
  {
    t == [] ||
    (Walked(ns, key, t[1..]) && NextKey(key, t[1..]) == Some(t[0].key) && ns.Open(t[0].key) == Opened(t[0]) && Expects(ns, t[1..], t[0]))
  }

  lemma {:induction false} WalkedFacts(ns: Namespace, key: FileKey, t: seq<Descriptor>)
    requires ns.chunk > 0 && Walked(ns, key, t)
    ensures Linked(ns, key, t) && EndOfAll(ns, key, t)
  {
    if t != [] {
      WalkedFacts(ns, key, t[1..]);
      WalkStep(ns, key, t[1..], t[0]);
      assert [t[0]] + t[1..] == t;
    }
  }

  lemma EndsWith<T>(d: seq<T>, t: seq<T>, x: T)
    requires |t| < |d| && d[|d| - |t|..] == t && d[|d| - |t| - 1] == x
    ensures d[|d| - |t| - 1..] == [x] + t
  {
  }

  lemma {:induction false} LinkedSpans(ns: Namespace, key: FileKey, t: seq<Descriptor>, i: nat)
    requires ns.chunk > 0 && Linked(ns, key, t) && t != [] && t[0].span == ns.chunk && i < |t|
    ensures t[i].span == (i + 1) * ns.chunk
  {
    if i > 0 {
      LinkedSpans(ns, key, t, i - 1);
      assert (i + 1) * ns.chunk == i * ns.chunk + ns.chunk;
    }
  }

  /** A walk that ran out of parents is the key's only data chain. */
  lemma WalkEnds(ns: Namespace, key: FileKey, t: seq<Descriptor>)
    requires ns.chunk > 0 && Walked(ns, key, t) && t != [] && t[0].parent.None?
    ensures t[0].span == ns.chunk && ns.IsDataChain(key, t)
    ensures forall d :: ns.IsDataChain(key, d) ==> d == t
  {
    WalkedFacts(ns, key, t);
    forall d | ns.IsDataChain(key, d) ensures d == t {
      ChainContinues(ns, key, t, d);
    }
    AtLeastChunk(t[0].span, ns.chunk);
    forall i | 0 <= i < |t| ensures t[i].span == (i + 1) * ns.chunk {
      LinkedSpans(ns, key, t, i);
    }
  }

  lemma AtLeastChunk(span: int, chunk: nat)
    requires chunk > 0 && span > 0 && span % chunk == 0
    ensures span >= chunk
  {
  }

  function Reversed<T>(s: seq<T>): seq<T> {
    if s == [] then [] else Reversed(s[1..]) + [s[0]]
  }

  lemma ReversedMore<T>(x: T, s: seq<T>)
    ensures Reversed([x] + s) == Reversed(s) + [x]
  {
    assert ([x] + s)[1..] == s;
  }

  lemma {:induction false} ReversedAppend<T>(s: seq<T>, x: T)
    ensures Reversed(s + [x]) == [x] + Reversed(s)
  {
    if s == [] {
      assert [x][1..] == [];
      assert [] + [x] == [x];
    } else {
      assert (s + [x])[1..] == s[1..] + [x];
      ReversedAppend(s[1..], x);
    }
  }

  lemma {:induction false} ReversedTwice<T>(s: seq<T>)
    ensures Reversed(Reversed(s)) == s
  {
    if s != [] {
      ReversedAppend(Reversed(s[1..]), s[0]);
      ReversedTwice(s[1..]);
    }
  }

  /** The namespace after a file was found bad: it is withdrawn, and loses its
      name unless a restore pins it. */
  function Without(ns: Namespace, blamed: Option<FileKey>, pinned: set<FileKey>): Namespace {
    match blamed
    case None => ns
    case Some(k) => Namespace(ns.layout, ns.chunk, if k in pinned then ns.files else ns.files - {k}, ns.withdrawn + {k})
  }

  class TokenStore {
    const layout: Layout
    const chunk: nat
    var files: map<FileKey, Stored>
    var withdrawn: set<FileKey>
    var pinned: set<FileKey>

    constructor (layout: Layout, chunk: nat)
      requires Aligned(layout, chunk)
      ensures Valid() && this.layout == layout && this.chunk == chunk && files == map[]
    {
      this.layout, this.chunk := layout, chunk;
      files, withdrawn, pinned := map[], {}, {};
    }

    ghost predicate Valid() { Aligned(layout, chunk) }

    function View(): Namespace
      reads this
    {
      Namespace(layout, chunk, files, withdrawn)
    }

    /** A bad file is withdrawn; it leaves its name unless a restore pins it. */
    method QuarantineBad(key: FileKey)
      modifies this`files, this`withdrawn
      ensures View() == Without(old(View()), Some(key), pinned)
    {
      withdrawn := withdrawn + {key};
      if key !in pinned {
        files := files - {key};
      }
    }

    /** Opens the next file of a walk; a malformed file or one out of step is
        quarantined. */
    method NextFile(next: FileKey, first: bool, expected: int, ghost key: FileKey, ghost t: seq<Descriptor>)
      returns (found: Option<Descriptor>, ghost blamed: Option<FileKey>)
      requires Valid() && Walked(View(), key, t) && NextKey(key, t) == Some(next)
      requires first == (t == []) && (!first ==> expected == t[0].span - chunk)
      modifies this`files, this`withdrawn
      ensures found.Some? ==> blamed.None? && Walked(View(), key, [found.value] + t) && found.value.span >= chunk
      ensures found.None? ==> forall d :: !old(View()).IsDataChain(key, d)
      ensures View() == Without(old(View()), blamed, pinned) && (blamed.Some? ==> blamed.value == next)
    {
      var outcome := View().Open(next);
      blamed := None;
      if outcome.Opened? && outcome.desc.kind.Data? && (first || outcome.desc.span == expected) {
        AtLeastChunk(outcome.desc.span, chunk);
        assert ([outcome.desc] + t)[1..] == t;
        return Some(outcome.desc), None;
      }
      BrokenWalk(View(), key, t);
      if outcome.Malformed? || (outcome.Opened? && outcome.desc.kind.Data?) {
        QuarantineBad(next);
        blamed := Some(next);
      }
      found := None;
    }

    /** Follows parent links from `key`; ends on any content, cyclic or not. */
    method Walk(key: FileKey) returns (ok: bool, objects: seq<Descriptor>, ghost blamed: Option<FileKey>)
      requires Valid()
      modifies this`files, this`withdrawn
      ensures ok ==> blamed.None? && View().IsDataChain(key, objects)
      ensures ok ==> forall d :: old(View()).IsDataChain(key, d) ==> d == objects
      ensures !ok ==> forall d :: !old(View()).IsDataChain(key, d)
      ensures View() == Without(old(View()), blamed, pinned)
    {
      ghost var ns, t := View(), [];
      objects, blamed := [], None;
      var next, expected := Some(key), MAX_SPAN + chunk;
      while next.Some?
        invariant View() == ns && objects == Reversed(t) && next == NextKey(key, t) && blamed.None?
        invariant Walked(ns, key, t)
        invariant expected == if t == [] then MAX_SPAN + chunk else t[0].span - chunk
        invariant next.Some? ==> expected > 0
        decreases if next.Some? then expected else 0
      {
        var found;
        found, blamed := NextFile(next.value, objects == [], expected, key, t);
        if found.None? {
          return false, [], blamed;
        }
        var desc := found.value;
        ReversedMore(desc, t);
        t := [desc] + t;
        objects := objects + [desc];
        expected := desc.span - chunk;
        next := desc.parent;
      }
      ReversedTwice(t);
      objects := Reversed(objects);
      WalkEnds(ns, key, t);
      ok := objects[0].span == chunk;
    }

    /** The restorable prefix of `key`: exact, or refused. Coverage always
        accepts what the walk returns. */
    method Chain(key: FileKey) returns (ok: bool, objects: seq<Descriptor>, ghost blamed: Option<FileKey>)
      requires Valid()
      modifies this`files, this`withdrawn
      ensures ok ==> blamed.None? && View().IsChain(key, objects)
      ensures !ok ==> forall o :: !old(View()).IsChain(key, o)
      ensures View() == Without(old(View()), blamed, pinned)
    {
      ghost var ns := View();
      ok, objects, blamed := Walk(key);
      if !ok {
        return;
      }
      ghost var d := objects;
      var span := objects[|objects| - 1].span;
      if HasBoundaryState(layout) {
        var found := View().Open(Boundary(key));
        ok := found.Opened? && found.desc == Descriptor(Boundary(key), Some(key), span, State);
        if !ok {
          NoBoundary(ns, key, d);
          if !found.Missing? {
            QuarantineBad(Boundary(key));
            blamed := Some(Boundary(key));
          }
          return;
        }
        objects := objects + [found.desc];
      }
      assert objects[..|d|] == d;
      ChainAccepted(ns, key, objects);
      ok := ValidateCoverage(layout, span, true, SliceList(View(), objects));
    }
  }

  function DataCount(ns: Namespace, objects: seq<Descriptor>): int {
    if HasBoundaryState(ns.layout) then |objects| - 1 else |objects|
  }

  lemma NoBoundary(ns: Namespace, key: FileKey, d: seq<Descriptor>)
    requires ns.chunk > 0 && HasBoundaryState(ns.layout) && ns.IsDataChain(key, d)
    requires forall e :: ns.IsDataChain(key, e) ==> e == d
    requires ns.Open(Boundary(key)) != Opened(Descriptor(Boundary(key), Some(key), d[|d| - 1].span, State))
    ensures forall o :: !ns.IsChain(key, o)
  {
    forall o: seq<Descriptor> | |o| > 0 && o[..|o| - 1] == d ensures !ns.IsChain(key, o) {
      assert o[|o| - 1] != Descriptor(Boundary(key), Some(key), d[|d| - 1].span, State) ||
             ns.Open(Boundary(key)) != Opened(o[|o| - 1]);
    }
  }

  ghost predicate Spanning(ns: Namespace, objects: seq<Descriptor>) {
    forall i :: 0 <= i < |objects| ==> objects[i].span >= ns.chunk
  }

  /** The page slices of the files, in order. */
  function SliceList(ns: Namespace, objects: seq<Descriptor>): seq<seq<PageSlice>>
    requires ns.Wf() && Spanning(ns, objects)
  {
    if objects == [] then [] else
      var o := objects[|objects| - 1];
      SliceList(ns, objects[..|objects| - 1]) + [Slices(ns.layout, o.span, ns.chunk, o.kind)]
  }

  lemma {:induction false} DataSlices(ns: Namespace, key: FileKey, d: seq<Descriptor>, k: nat)
    requires ns.Wf() && ns.IsDataChain(key, d) && k <= |d|
    ensures Spanning(ns, d[..k]) && SliceList(ns, d[..k]) == DataFiles(ns.layout, ns.chunk, k)
  {
    forall i | 0 <= i < k ensures d[i].span >= ns.chunk {
      ChunkBelow(i, ns.chunk);
    }
    if k > 0 {
      DataSlices(ns, key, d, k - 1);
      assert d[..k][..k - 1] == d[..k - 1];
      ChunkBelow(k - 1, ns.chunk);
    }
  }

  lemma ChainParts(ns: Namespace, key: FileKey, objects: seq<Descriptor>) returns (d: seq<Descriptor>)
    requires ns.chunk > 0 && ns.IsChain(key, objects)
    ensures |d| == DataCount(ns, objects) > 0 && ns.IsDataChain(key, d)
    ensures objects == d + if HasBoundaryState(ns.layout) then [Descriptor(Boundary(key), Some(key), |d| * ns.chunk, State)] else []
  {
    var n := DataCount(ns, objects);
    d := objects[..n];
    assert objects == d + objects[n..];
  }

  lemma ChainSlices(ns: Namespace, key: FileKey, objects: seq<Descriptor>)
    requires ns.Wf() && ns.IsChain(key, objects)
    ensures DataCount(ns, objects) > 0 && Spanning(ns, objects)
    ensures SliceList(ns, objects) == ChainFiles(ns.layout, ns.chunk, DataCount(ns, objects))
  {
    var d := ChainParts(ns, key, objects);
    var n := |d|;
    DataSlices(ns, key, d, n);
    assert d[..n] == d;
    ChunkBelow(n - 1, ns.chunk);
    if HasBoundaryState(ns.layout) {
      var span := n * ns.chunk;
      SliceMore(ns, objects, d, Descriptor(Boundary(key), Some(key), span, State));
      assert SliceList(ns, objects) == DataFiles(ns.layout, ns.chunk, n) + [Slices(ns.layout, span, ns.chunk, State)];
    } else {
      assert objects == d;
    }
  }

  lemma SliceMore(ns: Namespace, objects: seq<Descriptor>, d: seq<Descriptor>, last: Descriptor)
    requires ns.Wf() && Spanning(ns, d) && last.span >= ns.chunk && objects == d + [last]
    ensures Spanning(ns, objects) && SliceList(ns, objects) == SliceList(ns, d) + [Slices(ns.layout, last.span, ns.chunk, last.kind)]
  {
    assert objects[..|d|] == d;
  }

  /** Whatever the walk returns covers every required page exactly once. */
  lemma ChainAccepted(ns: Namespace, key: FileKey, objects: seq<Descriptor>)
    requires ns.Wf() && ns.IsChain(key, objects)
    ensures Spanning(ns, objects)
    ensures var slices, span := SliceList(ns, objects), DataCount(ns, objects) * ns.chunk;
      && objects[DataCount(ns, objects) - 1].span == span
      && (forall i, j :: 0 <= i < |slices| && 0 <= j < |slices[i]| ==> ValidSlice(slices[i][j]))
      && Needs(ns.layout, span).Some? && Covers(Joined(slices), Needs(ns.layout, span).value)
  {
    ChainSlices(ns, key, objects);
    ChainCovers(ns.layout, ns.chunk, DataCount(ns, objects));
    ChainFilesValid(ns.layout, ns.chunk, DataCount(ns, objects));
  }
}
