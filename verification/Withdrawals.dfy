/** Withdrawal signals reach the reporter in bounded pages: every marked key is
    withdrawn at once, and a rolling cursor offers each for acknowledgement. */
module Withdrawals {
  import opened Collections
  import opened CrashDisk

  const MAX_BATCH: nat := 100_000

  function Above(marked: set<Key>, after: Option<Key>): set<Key> {
    set k | k in marked && (after.Some? ==> k > after.value)
  }

  /** `heapq.nsmallest`. */
  function Smallest(limit: nat, s: set<Key>): seq<Key> {
    SortedKeys(s)[..Min(limit, |SortedKeys(s)|)]
  }

  /** The keys above the cursor, or the first ones when none is left there. */
  function Page(marked: set<Key>, limit: nat, after: Option<Key>): seq<Key> {
    if Above(marked, after) == {} then Smallest(limit, marked) else Smallest(limit, Above(marked, after))
  }

  /** Only a full page leaves a cursor. */
  function Cursor(page: seq<Key>, limit: nat): Option<Key>
    requires limit > 0
  {
    if |page| == limit then Some(page[limit - 1]) else None
  }

  /** The marker directory, and the keys its scans have withdrawn. */
  class MarkerScan {
    const marked: set<Key>
    var withdrawn: set<Key>

    constructor (marked: set<Key>)
      ensures this.marked == marked && withdrawn == {}
    {
      this.marked, withdrawn := marked, {};
    }

    /** One pass over the directory, in any order. */
    method Names(following: Option<Key>) returns (names: set<Key>)
      modifies this`withdrawn
      ensures names == Above(marked, following) && withdrawn == old(withdrawn) + marked
    {
      names := {};
      var left := marked;
      while left != {}
        invariant left <= marked && names == Above(marked - left, following)
        invariant withdrawn == old(withdrawn) + (marked - left)
        decreases left
      {
        var name :| name in left;
        left := left - {name};
        withdrawn := withdrawn + {name};
        if following.None? || name > following.value {
          names := names + {name};
        }
      }
    }

    method Batch(limit: int, after: Option<Key>) returns (ok: bool, page: seq<Key>, cursor: Option<Key>)
      modifies this`withdrawn
      ensures ok <==> 0 < limit <= MAX_BATCH
      ensures !ok ==> withdrawn == old(withdrawn) && page == [] && cursor.None?
      ensures ok ==> withdrawn == old(withdrawn) + marked
      ensures ok ==> page == Page(marked, limit, after) && cursor == Cursor(page, limit)
    {
      ok, page, cursor := 0 < limit <= MAX_BATCH, [], None;
      if !ok {
        return;
      }
      var names := Names(after);
      page := Smallest(limit, names);
      SortedKeysFacts(names);
      SortedKeysFacts(marked);
      if page == [] && after.Some? {
        names := Names(None);
        page := Smallest(limit, names);
      }
      assert Above(marked, None) == marked;
      cursor := if |page| == limit then Some(page[|page| - 1]) else None;
    }
  }

  // ---- every mark is offered ----

  /** Successive pages, each from the marks there are at its time, offer `k`. */
  predicate Offered(scans: seq<set<Key>>, limit: nat, after: Option<Key>, k: Key)
    requires limit > 0
  {
    scans != [] &&
    (var page := Page(scans[0], limit, after);
     k in page || Offered(scans[1..], limit, Cursor(page, limit), k))
  }

  /** `k` stays marked, and nothing outside `ever` is marked meanwhile. */
  ghost predicate Marked(scans: seq<set<Key>>, ever: set<Key>, k: Key) {
    forall i :: 0 <= i < |scans| ==> k in scans[i] && scans[i] <= ever
  }

  lemma SmallestTakes(limit: nat, s: set<Key>)
    ensures var page := Smallest(limit, s);
      |page| == |ToSet(page)| == Min(limit, |s|) && ToSet(page) <= s && (|s| <= limit ==> ToSet(page) == s)
  {
    var page := Smallest(limit, s);
    SortedKeysFacts(s);
    AscendingDistinct(page);
    forall k | k in page ensures k in s {
      assert k in SortedKeys(s);
    }
    if |s| <= limit {
      SubsetSameSize(ToSet(page), s);
    }
  }

  /** A full page separates the keys it takes from those it leaves. */
  lemma SmallestLeaves(limit: nat, s: set<Key>, k: Key)
    requires 0 < limit <= |s|
    ensures var page := Smallest(limit, s);
      |page| == limit && page[limit - 1] in s && (k in s ==> (k in page <==> k <= page[limit - 1]))
  {
    SortedKeysFacts(s);
    if k in s { Beyond(SortedKeys(s), limit, k); }
    assert SortedKeys(s)[limit - 1] in SortedKeys(s);
  }

  /** What a full page leaves of all marks is above its cursor. */
  lemma PageLeaves(marked: set<Key>, ever: set<Key>, limit: nat, after: Option<Key>, page: seq<Key>)
    requires marked <= ever && page == Smallest(limit, Above(marked, after)) && 0 < limit <= |Above(marked, after)|
    ensures |page| == limit && |Above(ever, Some(page[limit - 1]))| <= |Above(ever, after)| - limit
  {
    var above, all := Above(marked, after), Above(ever, after);
    SmallestTakes(limit, above);
    var rest := Above(ever, Some(page[limit - 1]));
    forall k: Key | k in rest ensures k in all - ToSet(page) {
      SmallestLeaves(limit, above, page[limit - 1]);
      if k in page { SmallestLeaves(limit, above, k); }
    }
    assert ToSet(page) <= all;
    SubsetSize(rest, all - ToSet(page));
    assert all == (all - ToSet(page)) + ToSet(page);
  }

  lemma AscendingDistinct(s: seq<Key>)
    requires Ascending(s)
    ensures |ToSet(s)| == |s|
  {
    if s != [] {
      var n := |s| - 1;
      AscendingDistinct(s[..n]);
      PrefixStep(s, n);
      assert s[..n + 1] == s && s[n] !in s[..n];
    }
  }

  lemma Beyond(all: seq<Key>, limit: nat, k: Key)
    requires Ascending(all) && 0 < limit <= |all|
    ensures k in all ==> (k in all[..limit] <==> k <= all[limit - 1])
  {
    if k in all {
      var i :| 0 <= i < |all| && all[i] == k;
      if k in all[..limit] {
        var j :| 0 <= j < limit && all[j] == k;
      }
      if i < limit { assert all[..limit][i] == k; }
    }
  }

  lemma OneLess(n: nat, limit: nat)
    ensures (n - 1) * limit == n * limit - limit
  {
  }

  /** One page of a sweep: a short one takes all that is left, and a full one
      leaves the rest of the sweep above its cursor. */
  lemma SweepStep(marked: set<Key>, ever: set<Key>, limit: nat, after: Option<Key>, n: nat)
    requires 0 < limit && marked <= ever && Above(marked, after) != {} && |Above(ever, after)| <= n * limit
    ensures n > 0
    ensures var page := Page(marked, limit, after);
      && (|page| == limit ==> |Above(ever, Cursor(page, limit))| <= (n - 1) * limit)
      && (|page| != limit ==> ToSet(page) == Above(marked, after))
  {
    var above := Above(marked, after);
    assert above <= Above(ever, after);
    SubsetSize(above, Above(ever, after));
    SmallestTakes(limit, above);
    OneLess(n, limit);
    if |above| >= limit {
      PageLeaves(marked, ever, limit, after, Smallest(limit, above));
    }
  }

  lemma PageKeeps(marked: set<Key>, limit: nat, after: Option<Key>, k: Key)
    requires 0 < limit && k in Above(marked, after)
    ensures var page := Page(marked, limit, after);
      k in page || (|page| == limit && k > page[limit - 1])
  {
    var above := Above(marked, after);
    SmallestTakes(limit, above);
    if |above| >= limit {
      SmallestLeaves(limit, above, k);
    } else {
      assert k in ToSet(Smallest(limit, above));
    }
  }

  /** `n` pages reach a key above the cursor. */
  lemma {:induction false} SweepCovers(scans: seq<set<Key>>, ever: set<Key>, limit: nat, after: Option<Key>, n: nat, k: Key)
    requires limit > 0 && Marked(scans, ever, k) && (after.Some? ==> k > after.value)
    requires |Above(ever, after)| <= n * limit && n <= |scans| && scans != []
    ensures Offered(scans, limit, after, k)
    decreases n
  {
    var page := Page(scans[0], limit, after);
    assert k in Above(scans[0], after);
    SweepStep(scans[0], ever, limit, after, n);
    PageKeeps(scans[0], limit, after, k);
    if k !in page {
      assert Cursor(page, limit) == Some(page[limit - 1]);
      MoreLeft(ever, page[limit - 1], n - 1, limit, k);
      assert k in scans[0];
      SweepCovers(scans[1..], ever, limit, Cursor(page, limit), n - 1, k);
    }
  }

  /** As long as a key is left, so is a page. */
  lemma MoreLeft(ever: set<Key>, after: Key, n: nat, limit: nat, k: Key)
    requires k in ever && k > after && |Above(ever, Some(after))| <= n * limit
    ensures n > 0
  {
    assert k in Above(ever, Some(after));
  }

  /** Above the last mark the next page starts over. */
  lemma Wraps(scans: seq<set<Key>>, limit: nat, after: Option<Key>, k: Key)
    requires limit > 0 && scans != [] && Above(scans[0], after) == {} && Offered(scans, limit, None, k)
    ensures Offered(scans, limit, after, k)
  {
    assert Above(scans[0], None) == scans[0];
    assert Page(scans[0], limit, after) == Page(scans[0], limit, None);
  }

  lemma StartCovers(scans: seq<set<Key>>, ever: set<Key>, limit: nat, m: nat, k: Key)
    requires limit > 0 && Marked(scans, ever, k) && |ever| <= m * limit && m <= |scans| && scans != []
    ensures Offered(scans, limit, None, k)
  {
    assert Above(ever, None) == ever;
    SweepCovers(scans, ever, limit, None, m, k);
  }

  /** Wherever the cursor stands, the rest of its sweep and one whole sweep
      offer every key that stays marked, while other marks come and go. `ever`
      are the keys that are marked at any time meanwhile. */
  lemma {:induction false} EveryMarkIsOffered(scans: seq<set<Key>>, ever: set<Key>, limit: nat, after: Option<Key>,
                                              n: nat, m: nat, k: Key)
    requires limit > 0 && Marked(scans, ever, k) && n + m <= |scans| && scans != []
    requires |Above(ever, after)| <= n * limit && |ever| <= m * limit
    ensures Offered(scans, limit, after, k)
    decreases n
  {
    assert k in scans[0] && scans[0] <= ever;
    MoreThanNone(ever, m, limit, k);
    if Above(scans[0], after) == {} {
      StartCovers(scans, ever, limit, m, k);
      Wraps(scans, limit, after, k);
    } else {
      var cursor := Cursor(Page(scans[0], limit, after), limit);
      SweepStep(scans[0], ever, limit, after, n);
      if cursor == None {
        StartCovers(scans[1..], ever, limit, m, k);
      } else {
        EveryMarkIsOffered(scans[1..], ever, limit, cursor, n - 1, m, k);
      }
    }
  }

  lemma MoreThanNone(ever: set<Key>, m: nat, limit: nat, k: Key)
    requires k in ever && |ever| <= m * limit
    ensures m > 0
  {
  }
}
