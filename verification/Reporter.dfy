/** The worker side of inventory replication. */
module Reporter {
  import opened Collections
  import opened Inventory

  datatype ReporterState = ReporterState(
    rank: Rank, id: Identity, bounds: Bounds,
    held: Dict, observed: map<Key, int>, dirty: bool,
    sequence: int, history: seq<Delta>, deltaCursor: nat,
    items: seq<Entry>, itemsSequence: int, cycle: int, index: nat)

  // ---- what each call does, as functions of the state ----

  function Lookup(m: map<Key, int>, key: Key): Option<int> {
    if key in m then Some(m[key]) else None
  }

  function Reverse(s: seq<Entry>): seq<Entry> {
    if s == [] then [] else [s[|s| - 1]] + Reverse(s[..|s| - 1])
  }

  /** The newest entries that fit, stored oldest first. */
  function Selected(entries: seq<Entry>, b: Bounds): seq<Entry>
    requires b.Wf()
  {
    entries[..Min(|entries|, b.Capacity())]
  }

  function AfterReplace(s: ReporterState, entries: seq<Entry>): ReporterState
    requires s.bounds.Wf()
  {
    var selected := Selected(entries, s.bounds);
    if ValidEntries(selected)
    then s.(held := PutAll(EmptyDict, Reverse(selected)), dirty := true)
    else s
  }

  function WithRoom(d: Dict, b: Bounds): Dict
    requires b.Wf()
  {
    if |d.keys| + 1 > b.Capacity() then d.Without({d.keys[0]}) else d
  }

  function AfterAdd(s: ReporterState, key: Key, span: int): ReporterState
    requires s.bounds.Wf()
  {
    if !ValidSpan(span) then s else
      s.(held := WithRoom(s.held.Without({key}), s.bounds).Put(key, span),
         dirty := s.dirty || Lookup(s.held.at, key) != Some(span))
  }

  function AfterRemove(s: ReporterState, key: Key): ReporterState {
    s.(held := s.held.Without({key}), dirty := s.dirty || key in s.held.at)
  }

  function AfterStartup(s: ReporterState): ReporterState {
    s.(observed := s.held.at, dirty := false, items := Sorted(s.held.at), itemsSequence := s.sequence)
  }

  /** Advertised keys whose advertised value is no longer held. */
  function Obsolete(held: map<Key, int>, observed: map<Key, int>): set<Key> {
    set k | k in observed && Lookup(held, k) != Some(observed[k])
  }

  function Unseen(held: map<Key, int>, observed: map<Key, int>): map<Key, int> {
    held - observed.Keys
  }

  function Push(history: seq<Delta>, d: Delta): seq<Delta> {
    (if |history| >= DELTA_HISTORY then history[1..] else history) + [d]
  }

  /** The delta that first observes the current mutation. */
  function NewDelta(s: ReporterState, batch: int): Delta {
    var removed := SortedKeys(Obsolete(s.held.at, s.observed));
    if |removed| <= batch then
      var unseen := Sorted(Unseen(s.held.at, s.observed));
      Delta(s.sequence + 1, s.sequence, unseen[..Min(|unseen|, batch - |removed|)], removed)
    else
      Delta(s.sequence + 2, s.sequence + 1, [], [])
  }

  predicate Mutated(s: ReporterState) { s.dirty && s.held.at != s.observed }

  predicate Within(s: ReporterState, batch: int) {
    |SortedKeys(Obsolete(s.held.at, s.observed))| <= batch
  }

  function Seen(s: ReporterState, batch: int): map<Key, int> {
    if Within(s, batch) then Applied(s.observed, NewDelta(s, batch)) else s.held.at
  }

  function Kept(s: ReporterState, batch: int): seq<Delta> {
    if Within(s, batch) then s.history else []
  }

  /** Appends `d` and restarts the rolling checkpoint from the observed image. */
  function Recorded(s: ReporterState, d: Delta): ReporterState {
    var history := Push(s.history, d);
    s.(sequence := d.sequence, history := history, deltaCursor := |history| - 1,
       items := Sorted(s.observed), itemsSequence := d.sequence, cycle := s.cycle + 1, index := 0)
  }

  function Observed(s: ReporterState, batch: int): ReporterState {
    Recorded(s.(observed := Seen(s, batch), history := Kept(s, batch)), NewDelta(s, batch))
  }

  /** The state in which the next page is cut. */
  function Settled(s: ReporterState, batch: int): ReporterState {
    var o := if Mutated(s) then Observed(s, batch) else s;
    o.(dirty := |o.held.at| != |o.observed|)
  }

  function CurrentPage(s: ReporterState, batch: nat): Checkpoint
    requires batch > 0
  {
    Checkpoint(s.itemsSequence, s.cycle, s.index, PageCount(|s.items|, batch), |s.items|,
               Page(s.items, batch, s.index))
  }

  function CurrentDelta(s: ReporterState): Option<Delta> {
    if s.history == [] then None else Some(s.history[s.deltaCursor % |s.history|])
  }

  function Advanced(s: ReporterState, batch: nat): ReporterState
    requires batch > 0
  {
    var last := s.index + 1 >= PageCount(|s.items|, batch);
    s.(index := if last then 0 else s.index + 1,
       cycle := if last then s.cycle + 1 else s.cycle,
       deltaCursor := if s.history == [] then s.deltaCursor else (s.deltaCursor + 1) % |s.history|)
  }

  function AfterReport(s: ReporterState, batch: nat): ReporterState
    requires batch > 0
  {
    Advanced(Settled(s, batch), batch)
  }

  function NextReport(s: ReporterState, batch: nat): Report
    requires batch > 0
  {
    var t := Settled(s, batch);
    Report(t.rank, t.id, CurrentPage(t, batch), CurrentDelta(t))
  }

  function Fresh(rank: Rank, id: Identity, bounds: Bounds): ReporterState {
    ReporterState(rank, id, bounds, EmptyDict, map[], false, 0, [], 0, [], 0, 0, 0)
  }

  // ---- the reporter object ----

  class InventoryReporter {
    const rank: Rank
    const id: Identity
    const bounds: Bounds
    var held: Dict
    var observed: map<Key, int>
    var dirty: bool
    var sequence: int
    var history: seq<Delta>
    var deltaCursor: nat
    var items: seq<Entry>
    var itemsSequence: int
    var cycle: int
    var index: nat

    function State(): ReporterState
      reads this
    {
      ReporterState(rank, id, bounds, held, observed, dirty, sequence, history, deltaCursor,
                    items, itemsSequence, cycle, index)
    }

    ghost predicate Valid()
      reads this
    {
      bounds.Wf() && held.Wf()
    }

    constructor (rank: Rank, id: Identity, bounds: Bounds)
      requires rank < MAX_INVENTORY_REPORTS && ValidIdentity(id) && bounds.Wf()
      ensures Valid() && State() == Fresh(rank, id, bounds)
    {
      this.rank, this.id, this.bounds := rank, id, bounds;
      held, observed, dirty := EmptyDict, map[], false;
      sequence, history, deltaCursor := 0, [], 0;
      items, itemsSequence, cycle, index := [], 0, 0, 0;
    }

    method Replace(entries: seq<Entry>) returns (ok: bool)
      requires Valid()
      modifies this
      ensures Valid()
      ensures ok == ValidEntries(Selected(entries, bounds))
      ensures State() == AfterReplace(old(State()), entries)
    {
      var selected: seq<Entry> := [];
      FitsIsCapacity(bounds, 1);
      while |selected| < |entries|
        invariant |selected| <= |entries| && |selected| <= bounds.Capacity()
        invariant selected == entries[..|selected|]
        invariant State() == old(State())
      {
        FitsIsCapacity(bounds, |selected| + 1);
        if (|selected| + 1) * bounds.entryBytes > bounds.maxBytes {
          break;
        }
        selected := selected + [entries[|selected|]];
      }
      ok := ValidEntries(selected);
      if !ok {
        return;
      }
      var d, n := EmptyDict, |selected|;
      assert selected[..n] == selected;
      while n > 0
        invariant 0 <= n <= |selected|
        invariant d.Wf()
        invariant PutAll(d, Reverse(selected[..n])) == PutAll(EmptyDict, Reverse(selected))
        invariant State() == old(State())
      {
        assert selected[..n][..n - 1] == selected[..n - 1];
        PutWf(d, selected[n - 1].key, selected[n - 1].span);
        PutAllFirst(d, selected[n - 1], Reverse(selected[..n - 1]));
        d := d.Put(selected[n - 1].key, selected[n - 1].span);
        n := n - 1;
      }
      held, dirty := d, true;
    }

    method Add(key: Key, span: int) returns (ok: bool)
      requires Valid()
      modifies this
      ensures Valid()
      ensures ok == ValidSpan(span)
      ensures State() == AfterAdd(old(State()), key, span)
    {
      ok := ValidSpan(span);
      if !ok {
        return;
      }
      var previous := Lookup(held.at, key);
      AddKeepsWf(held, key, span, bounds);
      held := held.Without({key});
      FitsIsCapacity(bounds, |held.keys| + 1);
      if (|held.keys| + 1) * bounds.entryBytes > bounds.maxBytes {
        held := held.Without({held.keys[0]});
      }
      held := held.Put(key, span);
      dirty := dirty || previous != Some(span);
    }

    method Remove(key: Key)
      requires Valid()
      modifies this
      ensures Valid() && State() == AfterRemove(old(State()), key)
    {
      dirty := dirty || key in held.at;
      WithoutWf(held, {key});
      held := held.Without({key});
    }

    method Startup() returns (inventory: seq<Entry>)
      requires Valid()
      modifies this
      ensures Valid() && State() == AfterStartup(old(State())) && inventory == Sorted(held.at)
    {
      inventory := Sorted(held.at);
      observed := held.at;
      dirty := false;
      items := inventory;
      itemsSequence := sequence;
    }

    method Forget(keys: seq<Key>)
      requires Valid()
      modifies this`observed
      ensures Valid() && observed == old(observed) - ToSet(keys)
    {
      var n := 0;
      while n < |keys|
        invariant 0 <= n <= |keys|
        invariant observed == old(observed) - ToSet(keys[..n])
      {
        observed := observed - {keys[n]};
        assert keys[..n + 1] == keys[..n] + [keys[n]];
        n := n + 1;
      }
      assert keys[..n] == keys;
    }

    /** Decides the delta and the new image; the history is not yet extended. */
    method Difference(batch: int) returns (delta: Delta)
      requires Valid()
      modifies this`observed, this`history, this`deltaCursor
      ensures Valid() && delta == NewDelta(old(State()), batch)
      ensures observed == Seen(old(State()), batch)
      ensures history == Kept(old(State()), batch)
    {
      var removed := SortedKeys(Obsolete(held.at, observed));
      if |removed| <= batch {
        var added := Sorted(Unseen(held.at, observed));
        added := added[..Min(|added|, batch - |removed|)];
        delta := Delta(sequence + 1, sequence, added, removed);
        Forget(removed);
        observed := observed + MapOf(added);
      } else {
        delta := Delta(sequence + 2, sequence + 1, [], []);
        history := [];
        deltaCursor := 0;
        observed := held.at;
      }
    }

    method Record(delta: Delta)
      requires Valid()
      modifies this
      ensures Valid() && State() == Recorded(old(State()), delta)
    {
      sequence := delta.sequence;
      history := Push(history, delta);
      deltaCursor := |history| - 1;
      items := Sorted(observed);
      itemsSequence := sequence;
      cycle := cycle + 1;
      index := 0;
    }

    /** Observes a pending mutation before the page is cut. */
    method Settle(batch: int)
      requires Valid()
      modifies this
      ensures Valid() && State() == Settled(old(State()), batch)
    {
      if dirty && held.at != observed {
        var delta := Difference(batch);
        Record(delta);
      }
      dirty := |held.at| != |observed|;
    }

    method Cut(batch: nat) returns (report: Report)
      requires Valid() && batch > 0
      modifies this
      ensures Valid() && State() == Advanced(old(State()), batch)
      ensures report == Report(rank, id, CurrentPage(old(State()), batch), CurrentDelta(old(State())))
    {
      var count := PageCount(|items|, batch);
      var checkpoint := Checkpoint(itemsSequence, cycle, index, count, |items|, Page(items, batch, index));
      index := index + 1;
      if index >= count {
        index := 0;
        cycle := cycle + 1;
      }
      var delta: Option<Delta> := None;
      if history != [] {
        delta := Some(history[deltaCursor % |history|]);
        deltaCursor := (deltaCursor + 1) % |history|;
      }
      report := Report(rank, id, checkpoint, delta);
    }

    method Next(batch: int) returns (report: Option<Report>)
      requires Valid()
      modifies this
      ensures Valid()
      ensures report.Some? <==> 0 < batch <= bounds.maxReport
      ensures report.None? ==> State() == old(State())
      ensures report.Some? ==>
        State() == AfterReport(old(State()), batch) && report.value == NextReport(old(State()), batch)
    {
      if batch <= 0 || batch > bounds.maxReport {
        return None;
      }
      Settle(batch);
      var r := Cut(batch);
      report := Some(r);
    }
  }

  lemma AddKeepsWf(d: Dict, key: Key, span: int, b: Bounds)
    requires d.Wf() && b.Wf()
    ensures WithRoom(d.Without({key}), b).Put(key, span).Wf()
  {
    var e := d.Without({key});
    WithoutWf(d, {key});
    if |e.keys| + 1 > b.Capacity() {
      WithoutWf(e, {e.keys[0]});
    }
    PutWf(WithRoom(e, b), key, span);
  }

  lemma {:induction false} PutAllFirst(d: Dict, e: Entry, rest: seq<Entry>)
    ensures PutAll(d, [e] + rest) == PutAll(d.Put(e.key, e.span), rest)
  {
    var all := [e] + rest;
    if rest == [] {
      assert all[..0] == [] && all[|all| - 1] == e;
      assert PutAll(d, all[..0]) == d;
    } else {
      assert all[..|all| - 1] == [e] + rest[..|rest| - 1];
      PutAllFirst(d, e, rest[..|rest| - 1]);
    }
  }
}
