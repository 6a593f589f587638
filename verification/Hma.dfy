/** Page geometry: which pages a boundary needs, and what a complete set of
    page slices is. */
module Hma {
  import opened Collections

  datatype Policy = Full | Sliding(window: int) | Recurrent(tail: nat) | Circular

  datatype LayerGeometry = LayerGeometry(name: string, pageBytes: nat)

  datatype Group = Group(index: nat, tokensPerPage: nat, policy: Policy, layers: seq<LayerGeometry>) {
    ghost predicate Wf() {
      && tokensPerPage > 0
      && (policy.Sliding? ==> policy.window > 1)
      && (forall i :: 0 <= i < |layers| ==> layers[i].pageBytes > 0)
    }
  }

  datatype Layout = Layout(groups: seq<Group>) {
    /** Groups are numbered in order and a layer name occurs once. */
    ghost predicate Wf() {
      && (forall g :: 0 <= g < |groups| ==> groups[g].Wf() && groups[g].index == g)
      && (forall g, i, h, j :: 0 <= g < |groups| && 0 <= i < |groups[g].layers| &&
            0 <= h < |groups| && 0 <= j < |groups[h].layers| && groups[g].layers[i].name == groups[h].layers[j].name
            ==> g == h && i == j)
    }
  }

  // ---- page selection ----

  function CeilDiv(a: int, b: int): int
    requires b > 0
  {
    (a + b - 1) / b
  }

  /** `None` where the operation is refused. */
  function SelectedPageCount(g: Group, span: int): Option<nat>
    requires g.Wf()
  {
    if span <= 0 then None
    else if g.policy.Circular? then Some(1)
    else if span % g.tokensPerPage != 0 then None
    else
      var required := span / g.tokensPerPage;
      match g.policy
      case Full => Some(required)
      case Sliding(window) => Some(Min(required, CeilDiv(window - 1, g.tokensPerPage)))
      case _ => Some(1)
  }

  function ChosenPages(g: Group, table: seq<int>, span: int, selected: nat): Option<seq<int>>
    requires g.Wf() && SelectedPageCount(g, span) == Some(selected)
  {
    var boundary := span / g.tokensPerPage;
    match g.policy
    case Circular => if |table| != 1 then None else Some([table[0]])
    case Recurrent(tail) =>
      var active := |table| - 1 - tail;
      if active < boundary then None else Some([table[active]])
    case _ => if |table| < boundary then None else Some(table[boundary - selected..boundary])
  }

  predicate UsablePages(pages: seq<int>) {
    && (forall i :: 0 <= i < |pages| ==> pages[i] > 0)
    && (forall i, j :: 0 <= i < j < |pages| ==> pages[i] != pages[j])
  }

  function SelectPhysicalPages(g: Group, table: seq<int>, span: int): Option<seq<int>>
    requires g.Wf()
  {
    var selected := SelectedPageCount(g, span);
    if selected.None? then None
    else
      var pages := ChosenPages(g, table, span, selected.value);
      if pages.Some? && UsablePages(pages.value) then pages else None
  }

  lemma PositiveFactor(q: int, b: int)
    requires b > 0 && q * b > 0
    ensures q > 0
  {
  }

  lemma CeilDivFacts(a: int, b: int)
    requires a > 0 && b > 0
    ensures CeilDiv(a, b) >= 1 && (CeilDiv(a, b) - 1) * b < a <= CeilDiv(a, b) * b
  {
    var q := CeilDiv(a, b);
    assert a + b - 1 == q * b + (a + b - 1) % b;
    assert (q - 1) * b == q * b - b;
    PositiveFactor(q, b);
  }

  lemma AlignedDivision(span: int, width: int)
    requires width > 0 && span > 0 && span % width == 0
    ensures span / width >= 1 && (span / width) * width == span
  {
  }

  lemma LesserCount(r: int, c: int, t: int, reach: int)
    requires t > 0 && r >= 1 && c >= 1 && (c - 1) * t < reach <= c * t
    ensures (Min(r, c) - 1) * t < Min(r * t, reach) <= Min(r, c) * t
  {
    OneFewer(r, t);
    if r < c {
      MulMonotone(r, c - 1, t);
    } else {
      MulMonotone(c, r, t);
    }
  }

  lemma OneFewer(r: int, t: int)
    ensures (r - 1) * t == r * t - t
  {
  }

  /** A sliding group keeps just enough pages for the tokens its window can
      still reach: `min(span, window - 1)`. */
  lemma SlidingCoverage(g: Group, span: int)
    requires g.Wf() && g.policy.Sliding? && SelectedPageCount(g, span).Some?
    ensures var n, need := SelectedPageCount(g, span).value, Min(span, g.policy.window - 1);
      1 <= n && (n - 1) * g.tokensPerPage < need <= n * g.tokensPerPage
  {
    AlignedDivision(span, g.tokensPerPage);
    CeilDivFacts(g.policy.window - 1, g.tokensPerPage);
    LesserCount(span / g.tokensPerPage, CeilDiv(g.policy.window - 1, g.tokensPerPage), g.tokensPerPage, g.policy.window - 1);
  }

  lemma CountIsPositive(g: Group, span: int)
    requires g.Wf() && SelectedPageCount(g, span).Some?
    ensures SelectedPageCount(g, span).value >= 1
  {
    if !g.policy.Circular? { AlignedDivision(span, g.tokensPerPage); }
    if g.policy.Sliding? { CeilDivFacts(g.policy.window - 1, g.tokensPerPage); }
  }

  /** A selection has as many distinct usable pages as the boundary needs, and
      page-indexed groups end exactly at the boundary. */
  lemma SelectionIsExact(g: Group, table: seq<int>, span: int)
    requires g.Wf() && SelectPhysicalPages(g, table, span).Some?
    ensures SelectedPageCount(g, span).Some?
    ensures var pages, n := SelectPhysicalPages(g, table, span).value, SelectedPageCount(g, span).value;
      && |pages| == n && UsablePages(pages)
      && (g.policy.Full? || g.policy.Sliding? ==>
            var boundary := span / g.tokensPerPage;
            && n <= boundary <= |table|
            && forall i :: 0 <= i < n ==> pages[i] == table[boundary - n + i])
  {
    CountIsPositive(g, span);
  }

  /** The pages to select, by the kind of group: the only page of a circular
      group; the page before the `tail` last ones of a recurrent group, beyond
      the boundary; all pages up to the boundary of a full group; and of a
      sliding group the last of those, just enough for what its window reaches. */
  ghost predicate IsSelection(g: Group, table: seq<int>, span: int, pages: seq<int>)
    requires g.Wf()
  {
    && span > 0 && UsablePages(pages) && pages != []
    && (g.policy.Circular? ==> |table| == 1 && pages == table)
    && (!g.policy.Circular? ==> span % g.tokensPerPage == 0)
    && (g.policy.Recurrent? ==>
          var i := |table| - 1 - g.policy.tail;
          i * g.tokensPerPage >= span && pages == [table[i]])
    && (g.policy.Full? || g.policy.Sliding? ==>
          var boundary := span / g.tokensPerPage;
          |pages| <= boundary <= |table| && pages == table[boundary - |pages|..boundary])
    && (g.policy.Full? ==> |pages| * g.tokensPerPage == span)
    && (g.policy.Sliding? ==>
          var need := Min(span, g.policy.window - 1);
          (|pages| - 1) * g.tokensPerPage < need <= |pages| * g.tokensPerPage)
  }

  lemma OneCeiling(a: int, b: int, t: int, need: int)
    requires t > 0 && (a - 1) * t < need <= a * t && (b - 1) * t < need <= b * t
    ensures a == b
  {
    if a < b { MulMonotone(a, b - 1, t); }
    if b < a { MulMonotone(b, a - 1, t); }
  }

  lemma BoundaryReached(i: int, span: int, t: int)
    requires t > 0 && span > 0 && span % t == 0
    ensures i >= span / t <==> i * t >= span
  {
    AlignedDivision(span, t);
    MulMonotone(span / t, i, t);
    if i < span / t {
      MulMonotone(i, span / t - 1, t);
      OneFewer(span / t, t);
    }
  }

  /** The selection succeeds exactly when there is such a list of pages, and
      then it is that list. */
  lemma SelectionDecided(g: Group, table: seq<int>, span: int, pages: seq<int>)
    requires g.Wf()
    ensures SelectPhysicalPages(g, table, span) == Some(pages) <==> IsSelection(g, table, span, pages)
  {
    if span > 0 && (g.policy.Circular? || span % g.tokensPerPage == 0) {
      match g.policy
      case Circular => assert |table| == 1 ==> table == [table[0]];
      case Recurrent(tail) => BoundaryReached(|table| - 1 - tail, span, g.tokensPerPage);
      case Full => FullDecided(g, table, span, pages);
      case Sliding(_) => SlidingDecided(g, table, span, pages);
    }
  }

  lemma FullDecided(g: Group, table: seq<int>, span: int, pages: seq<int>)
    requires g.Wf() && g.policy.Full? && span > 0 && span % g.tokensPerPage == 0
    ensures SelectPhysicalPages(g, table, span) == Some(pages) <==> IsSelection(g, table, span, pages)
  {
    AlignedDivision(span, g.tokensPerPage);
    if |pages| * g.tokensPerPage == span {
      BoundaryReached(|pages|, span, g.tokensPerPage);
      BoundaryReached(|pages| - 1, span, g.tokensPerPage);
      OneFewer(|pages|, g.tokensPerPage);
    }
  }

  lemma SlidingDecided(g: Group, table: seq<int>, span: int, pages: seq<int>)
    requires g.Wf() && g.policy.Sliding? && span > 0 && span % g.tokensPerPage == 0
    ensures SelectPhysicalPages(g, table, span) == Some(pages) <==> IsSelection(g, table, span, pages)
  {
    SlidingCoverage(g, span);
    AlignedDivision(span, g.tokensPerPage);
    var n, need := SelectedPageCount(g, span).value, Min(span, g.policy.window - 1);
    if (|pages| - 1) * g.tokensPerPage < need <= |pages| * g.tokensPerPage {
      OneCeiling(n, |pages|, g.tokensPerPage, need);
    }
  }

  // ---- page slices and coverage ----

  datatype LayerKey = LayerKey(group: nat, name: string)

  datatype PageSlice = PageSlice(key: LayerKey, start: nat, count: nat, byteLength: nat)

  predicate ValidSlice(s: PageSlice) { s.count > 0 && s.byteLength > 0 }

  /** What one layer must cover. */
  datatype Need = Need(pages: nat, pageBytes: nat)

  /** The layers of one group, by key. */
  function GroupNeeds(g: Group, pages: nat, n: nat): map<LayerKey, Need>
    requires n <= |g.layers|
  {
    if n == 0 then map[] else
      GroupNeeds(g, pages, n - 1)[LayerKey(g.index, g.layers[n - 1].name) := Need(pages, g.layers[n - 1].pageBytes)]
  }

  /** The layers of the first `n` groups; `None` when a count is undefined. */
  function NeedsUpTo(layout: Layout, span: int, n: nat): Option<map<LayerKey, Need>>
    requires layout.Wf() && n <= |layout.groups|
  {
    if n == 0 then Some(map[]) else
      var g := layout.groups[n - 1];
      var before, count := NeedsUpTo(layout, span, n - 1), SelectedPageCount(g, span);
      if before.None? || count.None? then None
      else Some(before.value + GroupNeeds(g, count.value, |g.layers|))
  }

  function Needs(layout: Layout, span: int): Option<map<LayerKey, Need>>
    requires layout.Wf()
  {
    NeedsUpTo(layout, span, |layout.groups|)
  }

  function Range(lo: nat, hi: nat): seq<nat>
    requires lo <= hi
  {
    seq(hi - lo, i requires 0 <= i < hi - lo => lo + i)
  }

  /** The page indexes that the slices give one layer, in order. */
  function PagesOf(slices: seq<PageSlice>, key: LayerKey): seq<nat> {
    if slices == [] then [] else
      var last := slices[|slices| - 1];
      PagesOf(slices[..|slices| - 1], key) + if last.key == key then Range(last.start, last.start + last.count) else []
  }

  /** Every slice belongs to a known layer and has that layer's byte length. */
  ghost predicate Fitting(slices: seq<PageSlice>, needs: map<LayerKey, Need>) {
    forall i :: 0 <= i < |slices| ==>
      slices[i].key in needs && slices[i].byteLength == slices[i].count * needs[slices[i].key].pageBytes
  }

  /** Every layer gets each of its pages exactly once, in order. */
  ghost predicate Covers(slices: seq<PageSlice>, needs: map<LayerKey, Need>) {
    && Fitting(slices, needs)
    && forall key :: key in needs ==> PagesOf(slices, key) == Range(0, needs[key].pages)
  }

  ghost predicate CursorsShow(slices: seq<PageSlice>, cursors: map<LayerKey, nat>) {
    && (forall key :: key in cursors ==> PagesOf(slices, key) == Range(0, cursors[key]) && cursors[key] > 0)
    && (forall key :: key !in cursors ==> PagesOf(slices, key) == [])
  }

  function Cursor(cursors: map<LayerKey, nat>, key: LayerKey): nat {
    if key in cursors then cursors[key] else 0
  }

  lemma RangeJoins(a: nat, b: nat, c: nat)
    requires a <= b <= c
    ensures Range(a, b) + Range(b, c) == Range(a, c)
  {
  }

  lemma PagesStep(slices: seq<PageSlice>, s: PageSlice, key: LayerKey)
    ensures PagesOf(slices + [s], key) ==
            if s.key == key then PagesOf(slices, key) + Range(s.start, s.start + s.count) else PagesOf(slices, key)
  {
    assert (slices + [s])[..|slices|] == slices;
  }

  lemma NextCursor(slices: seq<PageSlice>, cursors: map<LayerKey, nat>, s: PageSlice)
    requires CursorsShow(slices, cursors) && ValidSlice(s) && s.start == Cursor(cursors, s.key)
    ensures PagesOf(slices + [s], s.key) == Range(0, s.start + s.count) && s.start + s.count > 0
  {
    PagesStep(slices, s, s.key);
    assert PagesOf(slices, s.key) == Range(0, s.start);
    RangeJoins(0, s.start, s.start + s.count);
  }

  lemma CursorsStep(slices: seq<PageSlice>, cursors: map<LayerKey, nat>, s: PageSlice)
    requires CursorsShow(slices, cursors) && ValidSlice(s) && s.start == Cursor(cursors, s.key)
    ensures CursorsShow(slices + [s], cursors[s.key := s.start + s.count])
  {
    var next := cursors[s.key := s.start + s.count];
    forall key
      ensures key in next ==> PagesOf(slices + [s], key) == Range(0, next[key]) && next[key] > 0
      ensures key !in next ==> PagesOf(slices + [s], key) == []
    {
      PagesStep(slices, s, key);
      if key == s.key { NextCursor(slices, cursors, s); }
    }
  }

  lemma {:induction false} PrefixPages(slices: seq<PageSlice>, more: seq<PageSlice>, key: LayerKey)
    ensures PagesOf(slices, key) <= PagesOf(slices + more, key)
  {
    if more == [] {
      assert slices + more == slices;
    } else {
      var all := slices + more;
      assert all[..|all| - 1] == slices + more[..|more| - 1];
      PrefixPages(slices, more[..|more| - 1], key);
    }
  }

  /** A slice that does not start at its layer's cursor can never be part of a
      covering sequence. */
  lemma GapNeverCovers(slices: seq<PageSlice>, s: PageSlice, more: seq<PageSlice>, cursors: map<LayerKey, nat>,
                       needs: map<LayerKey, Need>)
    requires CursorsShow(slices, cursors) && ValidSlice(s) && s.start != Cursor(cursors, s.key)
    ensures !Covers(slices + [s] + more, needs)
  {
    var upto, n := slices + [s], |PagesOf(slices, s.key)|;
    var all := upto + more;
    assert upto[..|upto| - 1] == slices && all[|slices|] == s;
    PrefixPages(upto, more, s.key);
    var pages := PagesOf(all, s.key);
    assert n < |pages| && pages[n] == s.start && n == Cursor(cursors, s.key);
    forall p: nat ensures pages != Range(0, p) {
      if n < p { assert Range(0, p)[n] == n; }
    }
  }

  /** All slices of a chain of files, in order. */
  function Joined(objects: seq<seq<PageSlice>>): seq<PageSlice> {
    if objects == [] then [] else Joined(objects[..|objects| - 1]) + objects[|objects| - 1]
  }

  lemma {:induction false} JoinedAppend(a: seq<seq<PageSlice>>, b: seq<seq<PageSlice>>)
    ensures Joined(a + b) == Joined(a) + Joined(b)
  {
    if b == [] {
      assert a + b == a;
    } else {
      assert (a + b)[..|a + b| - 1] == a + b[..|b| - 1];
      JoinedAppend(a, b[..|b| - 1]);
    }
  }

  lemma SplitAt<T>(s: seq<T>, i: nat)
    requires i < |s|
    ensures s[..i + 1][..i] == s[..i] && s == s[..i + 1] + s[i + 1..]
  {
  }

  lemma JoinedAt(objects: seq<seq<PageSlice>>, i: nat)
    requires i < |objects|
    ensures Joined(objects[..i + 1]) == Joined(objects[..i]) + objects[i]
    ensures Joined(objects) == Joined(objects[..i]) + objects[i] + Joined(objects[i + 1..])
  {
    SplitAt(objects, i);
    JoinedAppend(objects[..i + 1], objects[i + 1..]);
  }

  lemma {:induction false} PagesKnown(slices: seq<PageSlice>, key: LayerKey)
    requires PagesOf(slices, key) != []
    ensures exists i :: 0 <= i < |slices| && slices[i].key == key
  {
    if slices[|slices| - 1].key != key {
      PagesKnown(slices[..|slices| - 1], key);
    }
  }

  lemma {:induction false} GroupNeedsPages(g: Group, pages: nat, n: nat)
    requires n <= |g.layers|
    ensures forall key :: key in GroupNeeds(g, pages, n) ==> GroupNeeds(g, pages, n)[key].pages == pages
  {
    if n > 0 { GroupNeedsPages(g, pages, n - 1); }
  }

  lemma {:induction false} NeedsArePositive(layout: Layout, span: int, n: nat)
    requires layout.Wf() && n <= |layout.groups| && NeedsUpTo(layout, span, n).Some?
    ensures forall key :: key in NeedsUpTo(layout, span, n).value ==> NeedsUpTo(layout, span, n).value[key].pages > 0
  {
    if n > 0 {
      var g := layout.groups[n - 1];
      NeedsArePositive(layout, span, n - 1);
      CountIsPositive(g, span);
      GroupNeedsPages(g, SelectedPageCount(g, span).value, |g.layers|);
    }
  }

  predicate AllArrived(cursors: map<LayerKey, nat>, needs: map<LayerKey, Need>) {
    cursors.Keys == needs.Keys && forall key :: key in needs ==> key in cursors && cursors[key] == needs[key].pages
  }

  /** After all slices the cursors decide coverage. */
  lemma CursorsDecide(slices: seq<PageSlice>, cursors: map<LayerKey, nat>, needs: map<LayerKey, Need>)
    requires CursorsShow(slices, cursors) && Fitting(slices, needs)
    requires forall key :: key in needs ==> needs[key].pages > 0
    ensures AllArrived(cursors, needs) <==> Covers(slices, needs)
  {
    forall key | key in cursors ensures key in needs {
      PagesKnown(slices, key);
    }
    if Covers(slices, needs) {
      forall key | key in needs ensures key in cursors && cursors[key] == needs[key].pages {
        assert |PagesOf(slices, key)| == needs[key].pages;
      }
    }
  }

  /** One descriptor: moves each layer's cursor over its slices. */
  method Follow(slices: seq<PageSlice>, before: map<LayerKey, nat>, needs: map<LayerKey, Need>,
                ghost done: seq<PageSlice>, ghost rest: seq<PageSlice>)
    returns (ok: bool, cursors: map<LayerKey, nat>)
    requires CursorsShow(done, before) && Fitting(done, needs)
    requires forall j :: 0 <= j < |slices| ==> ValidSlice(slices[j])
    ensures ok ==> CursorsShow(done + slices, cursors) && Fitting(done + slices, needs)
    ensures !ok ==> !Covers(done + slices + rest, needs)
  {
    cursors := before;
    var j := 0;
    assert done + slices[..0] == done;
    while j < |slices|
      invariant 0 <= j <= |slices|
      invariant CursorsShow(done + slices[..j], cursors) && Fitting(done + slices[..j], needs)
    {
      var s := slices[j];
      ghost var upto, more := done + slices[..j], slices[j + 1..] + rest;
      ghost var all := done + slices + rest;
      assert upto + [s] + more == all && all[|upto|] == s;
      if s.key !in needs || s.byteLength != s.count * needs[s.key].pageBytes {
        return false, cursors;
      }
      if s.start != Cursor(cursors, s.key) {
        GapNeverCovers(upto, s, more, cursors, needs);
        return false, cursors;
      }
      CursorsStep(upto, cursors, s);
      assert done + slices[..j + 1] == upto + [s];
      cursors := cursors[s.key := s.start + s.count];
      j := j + 1;
    }
    assert slices[..j] == slices;
    ok := true;
  }

  /** The loop over descriptors and their slices: it accepts exactly the
      sequences that cover every layer's pages once and in order. */
  method ValidateCoverage(layout: Layout, span: int, identical: bool, objects: seq<seq<PageSlice>>) returns (ok: bool)
    requires layout.Wf()
    requires forall i, j :: 0 <= i < |objects| && 0 <= j < |objects[i]| ==> ValidSlice(objects[i][j])
    ensures ok <==> identical && Needs(layout, span).Some? && Covers(Joined(objects), Needs(layout, span).value)
  {
    var expected := Needs(layout, span);
    if !identical || expected.None? {
      return false;
    }
    var needs := expected.value;
    var cursors: map<LayerKey, nat> := map[];
    var i := 0;
    while i < |objects|
      invariant 0 <= i <= |objects|
      invariant CursorsShow(Joined(objects[..i]), cursors) && Fitting(Joined(objects[..i]), needs)
    {
      JoinedAt(objects, i);
      ok, cursors := Follow(objects[i], cursors, needs, Joined(objects[..i]), Joined(objects[i + 1..]));
      if !ok {
        return;
      }
      i := i + 1;
    }
    assert objects[..i] == objects;
    ok := AllArrived(cursors, needs);
    NeedsArePositive(layout, span, |layout.groups|);
    CursorsDecide(Joined(objects), cursors, needs);
  }
}
