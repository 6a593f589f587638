/** A key that was removed from a worker's inventory leaves the catalog. */
module RemovalRuns {
  import opened Collections
  import opened Inventory
  import opened Reporter
  import opened ReporterHistory
  import opened Catalog
  import opened CatalogSteps
  import opened Network
  import opened NetworkRuns
  import opened InOrder

  // ---- what a starting worker holds ----

  function Skipping(m: map<Key, int>, keys: seq<Key>): map<Key, int> {
    map k | k in m && k !in keys :: m[k]
  }

  lemma SkipOneMore(m: map<Key, int>, front: seq<Key>, last: Key)
    ensures (map k | k in Skipping(m, front) && k != last :: Skipping(m, front)[k]) == Skipping(m, front + [last])
  {
  }

  lemma {:induction false} RemovedAllHolds(s: ReporterState, keys: seq<Key>)
    requires HeldOk(s)
    ensures HeldOk(RemovedAll(s, keys))
    ensures RemovedAll(s, keys).held.at == Skipping(s.held.at, keys)
  {
    if keys != [] {
      var front, last := keys[..|keys| - 1], keys[|keys| - 1];
      RemovedAllHolds(s, front);
      RemoveHeldOk(RemovedAll(s, front), last);
      SkipOneMore(s.held.at, front, last);
      assert keys == front + [last];
    } else {
      assert Skipping(s.held.at, []) == s.held.at;
    }
  }

  /** A starting worker holds what its store offers, except every marked key. */
  lemma BootedHolds(r: Rank, id: Identity, bounds: Bounds, stored: Store)
    requires bounds.Wf() && r < MAX_INVENTORY_REPORTS && ValidIdentity(id)
    ensures var offered := AfterReplace(Fresh(r, id, bounds), stored.offers).held.at;
      Booted(r, id, bounds, stored).held.at == map k | k in offered && k !in stored.marked :: offered[k]
  {
    var newborn := Fresh(r, id, bounds);
    assert HeldOk(newborn);
    ReplaceHeldOk(newborn, stored.offers);
    RemovedAllHolds(AfterReplace(newborn, stored.offers), stored.marked);
  }

  lemma OnlyOffered(s: ReporterState, entries: seq<Entry>, key: Key)
    requires HeldOk(s) && key !in s.held.at && forall i :: 0 <= i < |entries| ==> entries[i].key != key
    ensures key !in AfterReplace(s, entries).held.at
  {
    var selected := Selected(entries, s.bounds);
    if ValidEntries(selected) {
      ReverseFacts(selected);
      MapOfKeys(Reverse(selected));
    }
  }

  // ---- after a removal ----

  /** The worker does not hold `key`, and did not when it sent packet `n` or any
      later one. */
  ghost predicate Dropped(ch: Channel, key: Key, n: nat) {
    && key !in ch.worker.held.at && n <= |ch.sent|
    && forall i :: n <= i < |ch.sent| ==> key !in ch.sent[i].held
  }

  /** The step does not bring `key` into the inventory of rank `r`. */
  predicate NotOffering(step: Step, r: Rank, key: Key) {
    step.r == r ==>
      match step
      case Mutate(_, Replace(entries)) => forall i :: 0 <= i < |entries| ==> entries[i].key != key
      case Mutate(_, Add(k, _)) => k != key
      case Restart(_, _, stored) => forall i :: 0 <= i < |stored.offers| ==> stored.offers[i].key != key
      case _ => true
  }

  lemma MutatedDrops(s: ReporterState, r: Rank, m: Mutation, key: Key)
    requires HeldOk(s) && key !in s.held.at && NotOffering(Mutate(r, m), r, key)
    ensures key !in Changed(s, m).held.at
  {
    match m
    case Replace(entries) => OnlyOffered(s, entries, key);
    case Add(k, span) => if ValidSpan(span) { AddHeldOk(s, k, span); }
    case Remove(k) => RemoveHeldOk(s, k);
  }

  lemma RestartedDrops(s: ReporterState, id: Identity, stored: Store, key: Key)
    requires HeldOk(s) && ValidIdentity(id) && forall i :: 0 <= i < |stored.offers| ==> stored.offers[i].key != key
    ensures key !in Booted(s.rank, id, s.bounds, stored).held.at
  {
    var newborn := Fresh(s.rank, id, s.bounds);
    assert HeldOk(newborn);
    OnlyOffered(newborn, stored.offers, key);
    BootedHolds(s.rank, id, s.bounds, stored);
  }

  lemma DroppedMoves(ch: Channel, batch: nat, step: Step, key: Key, n: nat)
    requires HeldOk(ch.worker) && CanMove(ch, batch, step) && Dropped(ch, key, n) && NotOffering(step, step.r, key)
    ensures Dropped(Moved(ch, batch, step), key, n)
  {
    match step
    case Mutate(r, m) => MutatedDrops(ch.worker, r, m, key);
    case Emit(_) =>
    case Restart(_, id, stored) => RestartedDrops(ch.worker, id, stored, key);
    case Deliver(_, _) =>
  }

  lemma DroppedNext(states: seq<System>, steps: seq<Step>, m: nat, r: Rank, key: Key, n: nat)
    requires m > 0 && Moves(states, steps, m) && SystemInv(states[m - 1])
    requires r in states[m - 1].channels && Dropped(states[m - 1].channels[r], key, n) && NotOffering(steps[m - 1], r, key)
    ensures r in states[m].channels && Dropped(states[m].channels[r], key, n)
  {
    var sys, step := states[m - 1], steps[m - 1];
    OneChannelMoves(sys, step, r);
    if step.r == r {
      FitsAt(sys, r);
      DroppedMoves(sys.channels[r], sys.batch, step, key, n);
    }
  }

  /** From moment `k` to moment `m` nothing offers the key again. */
  ghost predicate NeverOffered(steps: seq<Step>, r: Rank, key: Key, k: nat, m: nat) {
    forall i :: k <= i < m && i < |steps| ==> NotOffering(steps[i], r, key)
  }

  lemma {:induction false} StaysDropped(states: seq<System>, steps: seq<Step>, r: Rank, key: Key, n: nat, k: nat, m: nat)
    requires Moves(states, steps, m) && Starting(states[0]) && k <= m && NeverOffered(steps, r, key, k, m)
    requires r in states[k].channels && Dropped(states[k].channels[r], key, n)
    ensures r in states[m].channels && Dropped(states[m].channels[r], key, n)
  {
    if k < m {
      StaysDropped(states, steps, r, key, n, k, m - 1);
      MovesInv(states, steps, m - 1);
      DroppedNext(states, steps, m, r, key, n);
    }
  }

  lemma RemovedDrops(states: seq<System>, steps: seq<Step>, k: nat, r: Rank, key: Key)
    requires Run(states, steps) && k < |steps| && r in states[k].channels && steps[k] == Mutate(r, Remove(key))
    ensures r in states[k + 1].channels && states[k + 1].channels[r].sent == states[k].channels[r].sent
    ensures Dropped(states[k + 1].channels[r], key, |states[k].channels[r].sent|)
  {
    RunInv(states, steps, k);
    RunAt(states, steps, k);
    FitsAt(states[k], r);
    OneChannelMoves(states[k], steps[k], r);
    RemoveHeldOk(states[k].channels[r].worker, key);
  }

  /** In every run in which a rank's packets do not overtake one another: once a
      key was removed and not offered again, the rank stops showing it with the
      first packet sent after the removal, and the key has no quorum. */
  lemma RemovedIsGone(states: seq<System>, steps: seq<Step>, k: nat, m: nat, r: Rank, key: Key, span: int)
    requires OrderedRun(states, steps) && k < m < |states| && r in states[k].channels
    requires steps[k] == Mutate(r, Remove(key)) && NeverOffered(steps, r, key, k + 1, m)
    requires r in states[m].channels && states[m].channels[r].last >= |states[k].channels[r].sent|
    ensures r in states[m].view.ranks && key !in states[m].view.ranks[r].image.at
    ensures !Quorum(ImagesOf(states[m].view), key, span)
  {
    RemovedDrops(states, steps, k, r, key);
    MovesAt(states, steps, |steps|, m);
    StaysDropped(states, steps, r, key, |states[k].channels[r].sent|, k + 1, m);
    SynchronizedIsHeld(states, steps, m, r);
    RunInStep(states, steps, m);
    assert WfRank(states[m].view.ranks[r]) && r in ImagesOf(states[m].view);
  }
}
