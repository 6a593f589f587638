/** What a reporter's packets say about the images it observed. */
module ReporterHistory {
  import opened Collections
  import opened Inventory
  import opened Reporter

  /** The image observed at each sequence number that was ever current. */
  type History = map<int, map<Key, int>>

  ghost predicate DeltaShape(d: Delta, batch: int) {
    && ValidEntries(d.added) && |d.added| + |d.removed| <= batch
    && NoRepeats(AddedKeys(d)) && NoRepeats(d.removed)
    && (forall k :: k in AddedKeys(d) ==> k !in d.removed)
  }

  /** `d` leads from the image before it to the image at its sequence number;
      the base of a deliberate gap is a number at which no image was observed. */
  ghost predicate DeltaFits(hist: History, top: int, d: Delta) {
    && 0 <= d.base && d.sequence == d.base + 1 && d.sequence <= top
    && d.sequence in hist
    && (d.base in hist ==> hist[d.sequence] == Applied(hist[d.base], d))
  }

  ghost predicate CheckpointFits(hist: History, batch: nat, c: Checkpoint)
    requires batch > 0
  {
    && c.sequence in hist
    && c.heldCount == |hist[c.sequence]|
    && c.count == PageCount(c.heldCount, batch)
    && 0 <= c.index < c.count
    && c.entries == Page(Sorted(hist[c.sequence]), batch, c.index)
  }

  ghost predicate ReportFits(hist: History, batch: nat, r: Report)
    requires batch > 0
  {
    && CheckpointFits(hist, batch, r.checkpoint)
    && (r.delta.Some? ==> DeltaFits(hist, r.checkpoint.sequence, r.delta.value))
  }

  ghost predicate Bounded(hist: History, top: int) {
    forall q :: q in hist ==> 0 <= q <= top
  }

  ghost predicate HeldOk(s: ReporterState) {
    && s.bounds.Wf() && s.rank < MAX_INVENTORY_REPORTS && ValidIdentity(s.id)
    && s.held.Wf() && |s.held.keys| <= s.bounds.Capacity() && ValidSpans(s.held.at)
  }

  ghost predicate Inv(s: ReporterState, batch: nat, hist: History) {
    && HeldOk(s)
    && 0 < batch <= s.bounds.maxReport
    && 0 <= s.sequence && 0 <= s.cycle
    && (!s.dirty ==> s.held.at == s.observed)
    && ValidSpans(s.observed) && |s.observed| <= s.bounds.Capacity()
    && s.itemsSequence == s.sequence && s.items == Sorted(s.observed)
    && s.sequence in hist && hist[s.sequence] == s.observed && Bounded(hist, s.sequence)
    && s.index < PageCount(|s.items|, batch)
    && |s.history| <= DELTA_HISTORY
    && AllFit(hist, s.sequence, batch, s.history)
  }

  /** The history once the next report has been cut. */
  ghost function Extended(hist: History, s: ReporterState, batch: nat): History {
    if Mutated(s) then hist[NewDelta(s, batch).sequence := Seen(s, batch)] else hist
  }

  // ---- mutations of the held inventory ----

  lemma SizeOfDict(d: Dict)
    requires d.Wf()
    ensures |d.at| == |d.keys|
  {
    DistinctSize(d.keys);
    assert ToSet(d.keys) == d.at.Keys;
    assert |d.at| == |d.at.Keys|;
  }

  lemma {:induction false} ReverseFacts(s: seq<Entry>)
    ensures |Reverse(s)| == |s|
    ensures forall i :: 0 <= i < |s| ==> Reverse(s)[i] == s[|s| - 1 - i]
  {
    if s != [] { ReverseFacts(s[..|s| - 1]); }
  }

  lemma {:induction false} PutAllInOrder(items: seq<Entry>)
    requires forall i, j :: 0 <= i < j < |items| ==> items[i].key != items[j].key
    ensures var d := PutAll(EmptyDict, items);
      && |d.keys| == |items|
      && forall i :: 0 <= i < |items| ==> d.keys[i] == items[i].key && items[i].key in d.at && d.at[items[i].key] == items[i].span
  {
    if items != [] {
      var n := |items| - 1;
      PutAllInOrder(items[..n]);
      PutAllWf(EmptyDict, items[..n]);
      MapOfKeys(items[..n]);
    }
  }

  /** The newest entries that fit are held, the oldest of them first. */
  lemma ReplaceHolds(s: ReporterState, entries: seq<Entry>)
    requires HeldOk(s) && ValidEntries(Selected(entries, s.bounds))
    requires forall i, j :: 0 <= i < j < |entries| ==> entries[i].key != entries[j].key
    ensures var t, n := AfterReplace(s, entries), Min(|entries|, s.bounds.Capacity());
      && t == s.(held := t.held, dirty := true) && |t.held.keys| == |t.held.at| == n
      && forall i :: 0 <= i < n ==>
           && t.held.keys[n - 1 - i] == entries[i].key
           && entries[i].key in t.held.at && t.held.at[entries[i].key] == entries[i].span
  {
    var selected := Selected(entries, s.bounds);
    var items := Reverse(selected);
    ReverseFacts(selected);
    PutAllInOrder(items);
    PutAllWf(EmptyDict, items);
    SizeOfDict(PutAll(EmptyDict, items));
    forall i | 0 <= i < |selected| ensures items[|selected| - 1 - i] == entries[i] {
    }
  }

  lemma ReplaceHeldOk(s: ReporterState, entries: seq<Entry>)
    requires HeldOk(s)
    ensures HeldOk(AfterReplace(s, entries))
  {
    var selected := Selected(entries, s.bounds);
    if ValidEntries(selected) {
      var items := Reverse(selected);
      ReverseFacts(selected);
      PutAllWf(EmptyDict, items);
      SizeOfDict(PutAll(EmptyDict, items));
      MapOfKeys(items);
      forall k | k in MapOf(items) ensures ValidSpan(MapOf(items)[k]) {
        var i :| 0 <= i < |items| && items[i] == Entry(k, MapOf(items)[k]);
      }
    }
  }

  lemma RoomFacts(d: Dict, b: Bounds)
    requires d.Wf() && b.Wf() && |d.keys| <= b.Capacity()
    ensures WithRoom(d, b).Wf() && |WithRoom(d, b).keys| < b.Capacity()
    ensures SubMap(WithRoom(d, b).at, d.at)
    ensures WithRoom(d, b).at == if |d.keys| == b.Capacity() then d.at - {d.keys[0]} else d.at
  {
    if |d.keys| == b.Capacity() {
      WithoutWf(d, {d.keys[0]});
      DropHead(d.keys);
    }
  }

  lemma WithoutKeySize(d: Dict, key: Key)
    requires d.Wf()
    ensures |d.Without({key}).keys| == if key in d.at then |d.keys| - 1 else |d.keys|
    ensures key !in d.at ==> d.Without({key}) == d
  {
    var w := d.Without({key});
    WithoutWf(d, {key});
    SizeOfDict(d);
    SizeOfDict(w);
    assert |d.at| == |d.at.Keys| && |w.at| == |w.at.Keys|;
    if key in d.at {
      assert |d.at.Keys - {key}| == |d.at.Keys| - 1;
    } else {
      DropNothing(d.keys, {key});
      assert w.at == d.at;
    }
  }

  /** An addition evicts the oldest key only to make room for a new key, and
      re-adding an equal entry leaves the map as it was. */
  lemma AddHeldOk(s: ReporterState, key: Key, span: int)
    requires HeldOk(s) && ValidSpan(span)
    ensures HeldOk(AfterAdd(s, key, span))
    ensures AfterAdd(s, key, span).held.at ==
      (if key !in s.held.at && |s.held.keys| == s.bounds.Capacity()
       then s.held.at - {s.held.keys[0]} else s.held.at)[key := span]
    ensures Lookup(s.held.at, key) == Some(span) ==> AfterAdd(s, key, span).held.at == s.held.at
  {
    AddedHeld(s.held, key, span, s.bounds);
  }

  /** The added key becomes the newest; only the oldest may have to go. */
  lemma AddOrder(s: ReporterState, key: Key, span: int)
    requires HeldOk(s) && ValidSpan(span)
    ensures var t := AfterAdd(s, key, span);
      && t == s.(held := t.held, dirty := s.dirty || Lookup(s.held.at, key) != Some(span))
      && (forall i :: 0 <= i < |s.held.keys| && s.held.keys[i] == key ==>
            t.held.keys == s.held.keys[..i] + s.held.keys[i + 1..] + [key])
      && (key !in s.held.at ==>
            t.held.keys == (if |s.held.keys| == s.bounds.Capacity() then s.held.keys[1..] else s.held.keys) + [key])
  {
    var d := s.held.Without({key});
    WithoutWf(s.held, {key});
    WithoutKeySize(s.held, key);
    if key !in s.held.at {
      if |d.keys| == s.bounds.Capacity() { DropOne(d.keys, 0); }
    } else {
      forall i | 0 <= i < |s.held.keys| && s.held.keys[i] == key ensures d.keys == s.held.keys[..i] + s.held.keys[i + 1..] {
        DropOne(s.held.keys, i);
      }
    }
  }

  lemma AddedHeld(held: Dict, key: Key, span: int, b: Bounds)
    requires held.Wf() && b.Wf() && |held.keys| <= b.Capacity() && ValidSpans(held.at) && ValidSpan(span)
    ensures var t := WithRoom(held.Without({key}), b).Put(key, span);
      && t.Wf() && |t.keys| <= b.Capacity() && ValidSpans(t.at)
      && t.at == (if key !in held.at && |held.keys| == b.Capacity() then held.at - {held.keys[0]} else held.at)[key := span]
  {
    var d := held.Without({key});
    WithoutWf(held, {key});
    WithoutKeySize(held, key);
    RoomFacts(d, b);
    PutWf(WithRoom(d, b), key, span);
    if key in held.at {
      assert (held.at - {key})[key := span] == held.at[key := span];
    }
  }

  /** Exactly the key is gone, the others keep their values and their order, and
      the reporter is dirty if the key was held. */
  lemma RemoveHeldOk(s: ReporterState, key: Key)
    requires HeldOk(s)
    ensures HeldOk(AfterRemove(s, key))
    ensures key !in s.held.at ==> AfterRemove(s, key) == s
    ensures key in s.held.at ==> AfterRemove(s, key) == s.(held := AfterRemove(s, key).held, dirty := true)
    ensures AfterRemove(s, key).held.at == map k | k in s.held.at && k != key :: s.held.at[k]
    ensures forall i :: 0 <= i < |s.held.keys| && s.held.keys[i] == key ==>
      AfterRemove(s, key).held.keys == s.held.keys[..i] + s.held.keys[i + 1..]
  {
    WithoutWf(s.held, {key});
    DropMembers(s.held.keys, {key});
    WithoutKeySize(s.held, key);
    forall i | 0 <= i < |s.held.keys| && s.held.keys[i] == key
      ensures AfterRemove(s, key).held.keys == s.held.keys[..i] + s.held.keys[i + 1..]
    {
      DropOne(s.held.keys, i);
    }
  }

  lemma MutationsKeepInv(s: ReporterState, batch: nat, hist: History, entries: seq<Entry>, key: Key, span: int)
    requires Inv(s, batch, hist)
    ensures Inv(AfterReplace(s, entries), batch, hist)
    ensures Inv(AfterAdd(s, key, span), batch, hist)
    ensures Inv(AfterRemove(s, key), batch, hist)
  {
    ReplaceHeldOk(s, entries);
    if ValidSpan(span) { AddHeldOk(s, key, span); }
    RemoveHeldOk(s, key);
  }

  /** The handshake image is the first observed image, at sequence 0. */
  lemma StartupEstablishesInv(s: ReporterState, batch: nat)
    requires HeldOk(s) && 0 < batch <= s.bounds.maxReport
    requires s.sequence == 0 && s.cycle == 0 && s.index == 0 && s.history == []
    ensures Inv(AfterStartup(s), batch, map[0 := s.held.at])
  {
    SizeOfDict(s.held);
  }

  // ---- cutting a report ----

  lemma UniqueAscending(s: seq<nat>)
    requires Ascending(s)
    ensures NoRepeats(s)
  {
  }

  lemma PrefixOfListing(s: seq<Entry>, m: map<Key, int>, n: nat)
    requires Listing(s, m) && n <= |s| && ValidSpans(m)
    ensures ValidEntries(s[..n]) && SubMap(MapOf(s[..n]), m)
    ensures forall i, j :: 0 <= i < j < n ==> s[i].key != s[j].key
  {
    var p := s[..n];
    MapOfDistinct(p);
    MapOfKeys(p);
    forall k | k in MapOf(p) ensures k in m && MapOf(p)[k] == m[k] {
      var i :| 0 <= i < n && p[i].key == k;
      assert MapOf(p)[p[i].key] == p[i].span;
      assert s[i] == p[i];
    }
  }

  lemma RemovedFacts(s: ReporterState, batch: nat)
    requires Within(s, batch)
    ensures ToSet(NewDelta(s, batch).removed) == Obsolete(s.held.at, s.observed)
    ensures NoRepeats(NewDelta(s, batch).removed) && |NewDelta(s, batch).removed| <= batch
  {
    SortedKeysFacts(Obsolete(s.held.at, s.observed));
    UniqueAscending(NewDelta(s, batch).removed);
  }

  lemma AddedFacts(s: ReporterState, batch: nat)
    requires HeldOk(s) && Within(s, batch)
    ensures ValidEntries(NewDelta(s, batch).added)
    ensures |NewDelta(s, batch).added| + |NewDelta(s, batch).removed| <= batch
    ensures NoRepeats(AddedKeys(NewDelta(s, batch)))
    ensures SubMap(MapOf(NewDelta(s, batch).added), Unseen(s.held.at, s.observed))
    ensures forall k :: k in AddedKeys(NewDelta(s, batch)) ==> k !in s.observed
  {
    var unseen, d := Unseen(s.held.at, s.observed), NewDelta(s, batch);
    SortedIsListing(unseen);
    var all := Sorted(unseen);
    assert d.added == all[..|d.added|];
    PrefixOfListing(all, unseen, |d.added|);
    forall k | k in AddedKeys(d) ensures k !in s.observed {
      var i :| 0 <= i < |d.added| && d.added[i].key == k;
      assert all[i].key in unseen;
    }
  }

  lemma NewDeltaShape(s: ReporterState, batch: nat)
    requires HeldOk(s)
    ensures DeltaShape(NewDelta(s, batch), batch)
    ensures Within(s, batch) ==> ToSet(NewDelta(s, batch).removed) == Obsolete(s.held.at, s.observed)
    ensures Within(s, batch) ==> SubMap(MapOf(NewDelta(s, batch).added), s.held.at)
  {
    if Within(s, batch) {
      RemovedFacts(s, batch);
      AddedFacts(s, batch);
      var d := NewDelta(s, batch);
      forall k | k in AddedKeys(d) ensures k !in d.removed {
        assert k in d.removed ==> k in ToSet(d.removed);
      }
    }
  }

  /** After a report the advertised image is part of the held one, so that the
      length comparison decides whether the two are equal. */
  lemma SeenIsHeld(s: ReporterState, batch: nat)
    requires HeldOk(s)
    ensures SubMap(Seen(s, batch), s.held.at)
    ensures |Seen(s, batch)| <= |s.held.at|
    ensures |Seen(s, batch)| == |s.held.at| <==> Seen(s, batch) == s.held.at
  {
    NewDeltaShape(s, batch);
    SubMapSize(Seen(s, batch), s.held.at);
  }

  lemma DeltaFitsLater(hist: History, top: int, d: Delta, q: int, image: map<Key, int>)
    requires DeltaFits(hist, top, d) && q > top
    ensures DeltaFits(hist[q := image], q, d)
    ensures DeltaFits(hist[q := image], top, d)
  {
  }

  lemma ReportFitsLater(hist: History, batch: nat, r: Report, q: int, image: map<Key, int>)
    requires batch > 0 && ReportFits(hist, batch, r) && Bounded(hist, q - 1)
    ensures ReportFits(hist[q := image], batch, r)
  {
    assert r.checkpoint.sequence < q;
    if r.delta.Some? {
      DeltaFitsLater(hist, r.checkpoint.sequence, r.delta.value, q, image);
    }
  }

  ghost predicate AllFit(hist: History, top: int, batch: int, history: seq<Delta>) {
    forall i :: 0 <= i < |history| ==> DeltaFits(hist, top, history[i]) && DeltaShape(history[i], batch)
  }

  lemma PushFits(hist: History, top: int, batch: int, history: seq<Delta>, d: Delta, image: map<Key, int>)
    requires AllFit(hist, top, batch, history) && d.sequence > top
    requires DeltaFits(hist[d.sequence := image], d.sequence, d) && DeltaShape(d, batch)
    ensures AllFit(hist[d.sequence := image], d.sequence, batch, Push(history, d))
  {
    var h, q := Push(history, d), d.sequence;
    forall i | 0 <= i < |h| ensures DeltaFits(hist[q := image], q, h[i]) && DeltaShape(h[i], batch) {
      if i < |h| - 1 {
        var j := if |history| >= DELTA_HISTORY then i + 1 else i;
        assert h[i] == history[j];
        DeltaFitsLater(hist, top, history[j], q, image);
      }
    }
  }

  lemma RecordedKeepsInv(s: ReporterState, batch: nat, hist: History, d: Delta)
    requires HeldOk(s) && 0 < batch <= s.bounds.maxReport && 0 <= s.sequence && 0 <= s.cycle
    requires SubMap(s.observed, s.held.at) && |s.observed| <= s.bounds.Capacity()
    requires |s.history| <= DELTA_HISTORY && AllFit(hist, s.sequence, batch, s.history)
    requires Bounded(hist, s.sequence) && d.sequence > s.sequence && DeltaShape(d, batch)
    requires DeltaFits(hist[d.sequence := s.observed], d.sequence, d)
    ensures Inv(Recorded(s, d).(dirty := |s.held.at| != |s.observed|), batch, hist[d.sequence := s.observed])
  {
    PushFits(hist, s.sequence, batch, s.history, d, s.observed);
    SubMapSize(s.observed, s.held.at);
  }

  lemma NewDeltaFits(s: ReporterState, batch: nat, hist: History)
    requires 0 <= s.sequence && s.sequence in hist && hist[s.sequence] == s.observed && Bounded(hist, s.sequence)
    ensures NewDelta(s, batch).sequence > s.sequence
    ensures DeltaFits(hist[NewDelta(s, batch).sequence := Seen(s, batch)], NewDelta(s, batch).sequence, NewDelta(s, batch))
  {
  }

  lemma SettledKeepsInv(s: ReporterState, batch: nat, hist: History)
    requires Inv(s, batch, hist)
    ensures Inv(Settled(s, batch), batch, Extended(hist, s, batch))
    ensures SubMap(Settled(s, batch).observed, s.held.at)
    ensures Settled(s, batch).sequence >= s.sequence
  {
    SizeOfDict(s.held);
    if Mutated(s) {
      var d := NewDelta(s, batch);
      NewDeltaShape(s, batch);
      NewDeltaFits(s, batch, hist);
      SeenIsHeld(s, batch);
      RecordedKeepsInv(s.(observed := Seen(s, batch), history := Kept(s, batch)), batch, hist, d);
    }
  }

  lemma RemainderInRange(a: nat, n: int)
    requires n > 0
    ensures 0 <= a % n < n
  {
  }

  /** Every emitted report describes one observed image: its page is cut from
      the image at its sequence number and its delta joins observed images. */
  lemma ReportKeepsInv(s: ReporterState, batch: nat, hist: History)
    requires Inv(s, batch, hist)
    ensures Inv(AfterReport(s, batch), batch, Extended(hist, s, batch))
    ensures ReportFits(Extended(hist, s, batch), batch, NextReport(s, batch))
    ensures NextReport(s, batch).checkpoint.sequence == AfterReport(s, batch).sequence
    ensures SubMap(Extended(hist, s, batch)[AfterReport(s, batch).sequence], s.held.at)
    ensures AfterReport(s, batch).dirty <==> AfterReport(s, batch).observed != s.held.at
  {
    SettledKeepsInv(s, batch, hist);
    var t := Settled(s, batch);
    SubMapSize(t.observed, s.held.at);
    SortedIsListing(t.observed);
    if t.history != [] {
      RemainderInRange(t.deltaCursor, |t.history|);
    }
  }

  lemma LastPushed(history: seq<Delta>, d: Delta)
    ensures Push(history, d) != []
    ensures Push(history, d)[(|Push(history, d)| - 1) % |Push(history, d)|] == d
  {
  }

  /** The first report after a mutation carries the delta that withdraws it:
      either every obsolete key is named in it, or it starts a gap. */
  lemma FirstReportWithdraws(s: ReporterState, batch: nat, key: Key)
    requires batch > 0 && Mutated(s)
    requires key in s.observed && Lookup(s.held.at, key) != Some(s.observed[key])
    ensures NextReport(s, batch).delta == Some(NewDelta(s, batch))
    ensures key in NewDelta(s, batch).removed || NewDelta(s, batch).base == s.sequence + 1
  {
    LastPushed(Kept(s, batch), NewDelta(s, batch));
    if Within(s, batch) {
      RemovedFacts(s, batch);
      assert key in ToSet(NewDelta(s, batch).removed);
    }
  }

  lemma PageIsValid(t: ReporterState, batch: nat)
    requires batch > 0 && t.items == Sorted(t.observed) && ValidSpans(t.observed)
    ensures ValidEntries(CurrentPage(t, batch).entries)
  {
    SortedIsListing(t.observed);
    PageWithin(t.items, batch, t.index);
    var page := CurrentPage(t, batch).entries;
    forall i | 0 <= i < |page| ensures ValidSpan(page[i].span) {
      assert page[i] in t.items;
    }
  }

  lemma DeltaIsRetained(t: ReporterState, batch: nat, hist: History)
    requires AllFit(hist, t.sequence, batch, t.history)
    ensures CurrentDelta(t).Some? ==>
      DeltaShape(CurrentDelta(t).value, batch) && DeltaFits(hist, t.sequence, CurrentDelta(t).value)
  {
    if t.history != [] {
      RemainderInRange(t.deltaCursor, |t.history|);
    }
  }

  /** A report passes validation under the reporter's own bounds while the
      counters stay below the protocol's limit. */
  lemma ReportsAreValid(s: ReporterState, batch: nat, hist: History)
    requires Inv(s, batch, hist)
    requires AfterReport(s, batch).sequence <= MAX_COUNTER && Settled(s, batch).cycle <= MAX_COUNTER
    ensures ValidReport(NextReport(s, batch), s.bounds)
  {
    SettledKeepsInv(s, batch, hist);
    var t := Settled(s, batch);
    PageIsValid(t, batch);
    DeltaIsRetained(t, batch, Extended(hist, s, batch));
    SortedIsListing(t.observed);
    PageWithin(t.items, batch, t.index);
  }

  lemma PageWithin(items: seq<Entry>, batch: nat, i: nat)
    ensures |Page(items, batch, i)| <= batch && |Page(items, batch, i)| <= |items|
    ensures forall e :: e in Page(items, batch, i) ==> e in items
  {
  }
}
