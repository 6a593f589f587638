/** What every report sends: all obsolete keys at once, and as many of the keys
    still to be advertised as the report has room for. */
module ReporterProgress {
  import opened Collections
  import opened Inventory
  import opened Reporter
  import opened ReporterHistory

  /** Held entries that are not advertised with the span they have now. */
  function Queued(held: map<Key, int>, observed: map<Key, int>): set<Key> {
    set k | k in held && Lookup(observed, k) != Some(held[k])
  }

  // ---- one report ----

  lemma SizesOf(s: ReporterState)
    ensures |SortedKeys(Obsolete(s.held.at, s.observed))| == |Obsolete(s.held.at, s.observed)|
    ensures |Sorted(Unseen(s.held.at, s.observed))| == |Unseen(s.held.at, s.observed)|
  {
    SortedKeysFacts(Obsolete(s.held.at, s.observed));
    SortedIsListing(Unseen(s.held.at, s.observed));
  }

  /** The entries that the next delta adds: held, not advertised in any way, and
      as many as fit beside the removals. */
  lemma AddedAre(s: ReporterState, batch: nat)
    requires HeldOk(s) && |Obsolete(s.held.at, s.observed)| <= batch
    ensures Within(s, batch)
    ensures var added := NewDelta(s, batch).added;
      && |added| == |MapOf(added)| == Min(|Unseen(s.held.at, s.observed)|, batch - |Obsolete(s.held.at, s.observed)|)
      && SubMap(MapOf(added), Unseen(s.held.at, s.observed))
  {
    SizesOf(s);
    AddedFacts(s, batch);
    var all, added := Sorted(Unseen(s.held.at, s.observed)), NewDelta(s, batch).added;
    SortedIsListing(Unseen(s.held.at, s.observed));
    assert added == all[..|added|];
    MapOfDistinct(added);
  }

  lemma StillQueued(held: map<Key, int>, observed: map<Key, int>, added: map<Key, int>, gone: set<Key>, after: map<Key, int>)
    requires SubMap(added, Unseen(held, observed)) && gone == Obsolete(held, observed) && after == (observed - gone) + added
    ensures added.Keys <= Queued(held, observed) && Queued(held, after) == Queued(held, observed) - added.Keys
  {
  }

  lemma FewerQueued(held: map<Key, int>, observed: map<Key, int>, added: map<Key, int>, after: map<Key, int>)
    requires added.Keys <= Queued(held, observed) && Queued(held, after) == Queued(held, observed) - added.Keys
    ensures |Queued(held, after)| == |Queued(held, observed)| - |added|
  {
    var q, a := Queued(held, observed), added.Keys;
    assert q == (q - a) + a && |q| == |q - a| + |a|;
    assert |added| == |a|;
  }

  lemma RemovalsAre(removed: seq<Key>)
    ensures forall k :: k in removed <==> k in ToSet(removed)
  {
  }

  lemma UnseenKeys(held: map<Key, int>, observed: map<Key, int>)
    ensures Unseen(held, observed).Keys == held.Keys - observed.Keys
    ensures |Unseen(held, observed)| == |held.Keys - observed.Keys|
  {
    assert |Unseen(held, observed)| == |Unseen(held, observed).Keys|;
  }

  /** The image after the delta, key by key. */
  lemma ImageAfter(held: map<Key, int>, observed: map<Key, int>, d: Delta)
    requires SubMap(MapOf(d.added), Unseen(held, observed)) && ToSet(d.removed) == Obsolete(held, observed)
    ensures var after := Applied(observed, d);
      && (forall k :: k in d.removed <==> k in observed && Lookup(held, k) != Some(observed[k]))
      && (forall k :: k in after <==> (k in observed && k !in d.removed) || k in MapOf(d.added))
      && (forall k :: k in after ==> k in held && after[k] == held[k])
      && (forall k :: k in MapOf(d.added) ==> k !in observed)
  {
    RemovalsAre(d.removed);
  }

  /** The report that first observes a mutation, in terms of its delta. */
  lemma FirstReportOf(s: ReporterState, batch: nat)
    requires batch > 0 && Mutated(s) && Within(s, batch)
    ensures NextReport(s, batch).delta == Some(NewDelta(s, batch))
    ensures var t, d := AfterReport(s, batch), NewDelta(s, batch);
      t.held == s.held && t.observed == Applied(s.observed, d) && t.sequence == d.sequence == s.sequence + 1 && d.base == s.sequence
  {
    LastPushed(Kept(s, batch), NewDelta(s, batch));
  }

  /** The first report of a mutation whose obsolete keys fit: its delta follows
      the last one, withdraws exactly the obsolete keys, and advertises as many
      new keys as there is room for, each with its span. What was advertised and
      still holds stays, and by so much the queue gets shorter. */
  lemma NextObserves(s: ReporterState, batch: nat)
    requires HeldOk(s) && batch > 0 && s.dirty && s.held.at != s.observed && |Obsolete(s.held.at, s.observed)| <= batch
    ensures NextReport(s, batch).delta.Some?
    ensures var t, d := AfterReport(s, batch), NextReport(s, batch).delta.value;
      && t.held == s.held && d.base == s.sequence && d.sequence == t.sequence == s.sequence + 1
      && (forall k :: k in d.removed <==> k in s.observed && Lookup(s.held.at, k) != Some(s.observed[k]))
      && (forall k :: k in t.observed <==> (k in s.observed && k !in d.removed) || k in MapOf(d.added))
      && (forall k :: k in t.observed ==> k in s.held.at && t.observed[k] == s.held.at[k])
      && (forall k :: k in MapOf(d.added) ==> k !in s.observed)
      && var more := Min(|s.held.at.Keys - s.observed.Keys|, batch - |Obsolete(s.held.at, s.observed)|);
         && |d.added| == more
         && |Queued(s.held.at, t.observed)| == |Queued(s.held.at, s.observed)| - more
  {
    var d := NewDelta(s, batch);
    AddedAre(s, batch);
    RemovedFacts(s, batch);
    FirstReportOf(s, batch);
    ImageAfter(s.held.at, s.observed, d);
    StillQueued(s.held.at, s.observed, MapOf(d.added), ToSet(d.removed), Applied(s.observed, d));
    FewerQueued(s.held.at, s.observed, MapOf(d.added), Applied(s.observed, d));
    UnseenKeys(s.held.at, s.observed);
  }

  /** Too many obsolete keys: the report gives up naming them, and everything
      held is advertised through its checkpoints. */
  lemma NextGivesUp(s: ReporterState, batch: nat)
    requires HeldOk(s) && batch > 0 && s.dirty && s.held.at != s.observed && |Obsolete(s.held.at, s.observed)| > batch
    ensures NextReport(s, batch).delta.Some?
    ensures var t, d := AfterReport(s, batch), NextReport(s, batch).delta.value;
      && t.held == s.held && t.observed == s.held.at
      && d == Delta(s.sequence + 2, s.sequence + 1, [], []) && t.sequence == d.sequence
  {
    SizesOf(s);
    LastPushed(Kept(s, batch), NewDelta(s, batch));
  }

  // ---- older deltas ----

  /** Of the last 64 deltas only the oldest makes room for a new one. A gap
      forgets them all. */
  lemma DeltasKept(s: ReporterState, batch: nat, hist: History)
    requires Inv(s, batch, hist) && s.dirty && s.held.at != s.observed
    ensures NextReport(s, batch).delta.Some?
    ensures var t, d := AfterReport(s, batch), NextReport(s, batch).delta.value;
      && |t.history| <= 64 && t.history != [] && t.history[|t.history| - 1] == d
      && (d.base == s.sequence ==> forall i :: 0 <= i < |s.history| && (i > 0 || |s.history| < 64) ==> s.history[i] in t.history)
  {
    LastPushed(Kept(s, batch), NewDelta(s, batch));
    if Within(s, batch) { PushedKeeps(s.history, NewDelta(s, batch)); }
  }

  lemma PushedKeeps(history: seq<Delta>, d: Delta)
    requires |history| <= DELTA_HISTORY
    ensures |Push(history, d)| <= 64
    ensures forall i :: 0 <= i < |history| && (i > 0 || |history| < 64) ==> history[i] in Push(history, d)
  {
    var all := Push(history, d);
    forall i | 0 <= i < |history| && (i > 0 || |history| < 64) ensures history[i] in all {
      assert history[i] == all[if |history| >= DELTA_HISTORY then i - 1 else i];
    }
  }

  /** Without a mutation each report repeats the retained delta after the one
      before, around and around. */
  lemma DeltasRotate(s: ReporterState, batch: nat, hist: History)
    requires Inv(s, batch, hist) && !(s.dirty && s.held.at != s.observed) && s.history != [] && s.deltaCursor < |s.history|
    ensures NextReport(s, batch).delta == Some(s.history[s.deltaCursor])
    ensures var t := AfterReport(s, batch);
      t.history == s.history && t.deltaCursor == if s.deltaCursor + 1 == |s.history| then 0 else s.deltaCursor + 1
  {
    Remainder(s.deltaCursor, |s.history|);
    Remainder(s.deltaCursor + 1, |s.history|);
  }

  lemma Remainder(a: nat, n: nat)
    requires n > 0 && a <= n
    ensures a % n == if a == n then 0 else a
  {
  }

  // ---- the queue ----

  lemma NothingQueued(held: map<Key, int>, observed: map<Key, int>)
    requires Obsolete(held, observed) == {}
    ensures Queued(held, observed) == held.Keys - observed.Keys
    ensures Queued(held, observed) == {} <==> held == observed
  {
    forall k | k in observed ensures k in held && held[k] == observed[k] {
      assert k !in Obsolete(held, observed);
    }
    if held.Keys - observed.Keys == {} {
      forall k | k in held ensures k in observed {
        assert k !in held.Keys - observed.Keys;
      }
    }
  }

  lemma NothingObsolete(held: map<Key, int>, observed: map<Key, int>)
    requires forall k :: k in observed ==> k in held && observed[k] == held[k]
    ensures Obsolete(held, observed) == {}
  {
  }

  lemma Unmutated(s: ReporterState, batch: nat, hist: History)
    requires Inv(s, batch, hist) && !(s.dirty && s.held.at != s.observed)
    ensures s.held.at == s.observed && AfterReport(s, batch).observed == s.observed && AfterReport(s, batch).held == s.held
    ensures Queued(s.held.at, s.observed) == {} && Obsolete(s.held.at, s.observed) == {}
  {
  }

  /** A report withdraws everything obsolete. With nothing obsolete before, it
      drains a whole batch of the queue. */
  lemma ReportDrains(s: ReporterState, batch: nat, hist: History)
    requires Inv(s, batch, hist)
    ensures AfterReport(s, batch).held == s.held
    ensures var o, t := s.observed, AfterReport(s, batch).observed;
      && Obsolete(s.held.at, t) == {} && |Queued(s.held.at, t)| <= |Queued(s.held.at, o)|
      && (Obsolete(s.held.at, o) == {} ==> |Queued(s.held.at, t)| == Max(0, |Queued(s.held.at, o)| - batch))
  {
    var held, t := s.held.at, AfterReport(s, batch).observed;
    if !(s.dirty && held != s.observed) {
      Unmutated(s, batch, hist);
    } else if |Obsolete(held, s.observed)| <= batch {
      NextObserves(s, batch);
      NothingObsolete(held, t);
      if Obsolete(held, s.observed) == {} { NothingQueued(held, s.observed); }
    } else {
      NextGivesUp(s, batch);
      NothingObsolete(held, t);
      NothingQueued(held, t);
    }
  }

  /** What is left of a queue of `q` after `n` reports: the first withdraws, and
      each further one drains a batch. */
  function Left(q: nat, n: nat, batch: nat): nat { if n == 0 then q else Max(0, q - (n - 1) * batch) }

  lemma OneBatchLess(q: nat, n: nat, batch: nat)
    requires n > 0
    ensures Max(0, Left(q, n, batch) - batch) == Left(q, n + 1, batch)
  {
    assert n * batch == (n - 1) * batch + batch;
  }

  lemma NothingLeft(q: nat, n: nat, k: nat, batch: nat)
    requires n * batch >= q && k > n
    ensures Left(q, k, batch) == 0
  {
    MulMonotone(n, k - 1, batch);
  }
}
