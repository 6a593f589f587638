/** The resumable scrub: a durable cursor, bounded steps, and everything else
    happening between any two lock sections. */
module Scrub {
  import opened Collections
  import opened CrashDisk
  import opened Capacity

  datatype Status = NoStatus | Authenticated | Absent | Quarantined

  /** The durable record. `cursor` is empty at the start of a cycle. */
  datatype Progress = Progress(running: bool, cycle: nat, cursor: Option<Key>, target: Option<Key>, status: Status)

  /** One step between its lock sections: the record as it last saved it, the
      keys it has still to handle, and whether its selection was cut short. */
  datatype Local = Local(state: Progress, rest: seq<Key>, full: bool, targeted: bool)

  predicate Ahead(cursor: Option<Key>, k: Key) { cursor.None? || cursor.value < k }

  /** Whatever has been present since the cycle began lies behind the step's
      cursor, or among its keys, or beyond them when the selection was cut. */
  ghost predicate AllAhead(stable: set<Key>, l: Local) {
    && Ascending(l.rest) && (forall x :: x in l.rest ==> Ahead(l.state.cursor, x))
    && forall k :: k in stable && Ahead(l.state.cursor, k) && k !in l.rest ==>
         l.full && forall x :: x in l.rest ==> x < k
  }

  /** What a step may rely on while the cycle it began in is still running. */
  ghost predicate Tracks(durable: Progress, stable: set<Key>, l: Local) {
    && l.state.cycle <= durable.cycle
    && (!l.targeted && l.state.running && durable.running && durable.cycle == l.state.cycle ==> AllAhead(stable, l))
  }

  /** Every step in progress may keep relying on what it relied on. */
  ghost predicate Undisturbed(d: Progress, s: set<Key>, e: Progress, t: set<Key>) {
    forall l :: Tracks(d, s, l) ==> Tracks(e, t, l)
  }

  class Scrubber {
    var durable: Progress
    /** The live keys; a false value marks a file that will not authenticate. */
    var present: map<Key, bool>
    var pins: set<Key>
    /** Keys present ever since the current cycle began. */
    ghost var stable: set<Key>
    /** Keys authenticated or handed to quarantine in the current cycle. */
    ghost var handled: set<Key>
    /** How many reads and system calls have failed. */
    ghost var faults: nat

    ghost predicate Valid()
      reads this
    {
      && stable <= present.Keys
      && (durable.running ==> forall k :: k in stable && !Ahead(durable.cursor, k) ==> k in handled)
    }

    constructor ()
      ensures Valid() && !durable.running
    {
      durable := Progress(false, 0, None, None, NoStatus);
      present, pins, stable, handled, faults := map[], {}, {}, {}, 0;
    }

    /** A read or a system call, which may fail. */
    method Attempt() returns (ok: bool)
      modifies this`faults
      ensures faults == old(faults) + if ok then 0 else 1
    {
      ok := *;
      faults := if ok then faults else faults + 1;
    }

    // ---- the scrubber ----

    method StartCycle() returns (cycle: nat)
      requires Valid()
      modifies this`durable, this`stable, this`handled
      ensures Valid() && durable.running && cycle == durable.cycle
      ensures !old(durable).running ==> stable == present.Keys && handled == {} && durable.cursor.None? && cycle == old(durable).cycle + 1
      ensures old(durable).running ==> durable == old(durable) && stable == old(stable) && handled == old(handled)
      ensures Undisturbed(old(durable), old(stable), durable, stable)
    {
      if !durable.running {
        durable := durable.(running := true, cursor := None, cycle := durable.cycle + 1);
        stable, handled := present.Keys, {};
      }
      cycle := durable.cycle;
    }

    method Request(k: Key) returns (ok: bool)
      requires Valid()
      modifies this`durable
      ensures Valid() && ok == old(durable).target.None?
      ensures durable == if ok then old(durable).(target := Some(k), status := NoStatus) else old(durable)
      ensures Undisturbed(old(durable), stable, durable, stable)
    {
      ok := durable.target.None?;
      if ok {
        durable := durable.(target := Some(k), status := NoStatus);
      }
    }

    /** First lock section of a step: the target, or the next keys in order. */
    method BeginStep(budget: nat) returns (l: Local)
      requires Valid() && 0 < budget
      ensures l.state == durable && l.targeted == durable.target.Some?
      ensures l.targeted ==> l.rest == [durable.target.value] && !l.full
      ensures !l.targeted ==> |l.rest| <= budget && (l.full ==> |l.rest| == budget)
      ensures !l.targeted ==> forall k :: k in l.rest ==> k in present
      ensures Tracks(durable, stable, l)
    {
      if durable.target.Some? {
        return Local(durable, [durable.target.value], false, true);
      }
      var ahead := set k | k in present && Ahead(durable.cursor, k);
      var keys := SortedKeys(ahead);
      SortedKeysFacts(ahead);
      l := Local(durable, keys[..Min(budget, |keys|)], |keys| > budget, false);
      forall x | x in l.rest ensures Ahead(durable.cursor, x) && x in present {
        assert x in keys;
      }
      forall k | k in stable && Ahead(durable.cursor, k) && k !in l.rest ensures l.full && forall x :: x in l.rest ==> x < k {
        assert k in keys;
        var i :| 0 <= i < |keys| && keys[i] == k;
        assert forall j :: 0 <= j < |l.rest| ==> l.rest[j] == keys[j] != k;
        assert i >= |l.rest|;
        assert forall j :: 0 <= j < |l.rest| ==> l.rest[j] < keys[i];
      }
    }

    /** Moves a bad file away; either system call may fail and raise. */
    method Quarantine(k: Key) returns (raised: bool)
      requires Valid()
      modifies this`present, this`stable, this`faults
      ensures Valid() && Undisturbed(durable, old(stable), durable, stable)
      ensures present == old(present) - {k} || (raised && present == old(present))
      ensures faults >= old(faults) && (faults == old(faults) ==> !raised)
      ensures stable == old(stable) * present.Keys
    {
      var renamed := Attempt();
      if renamed {
        present, stable := present - {k}, stable - {k};
      }
      var synced := Attempt();
      raised := !renamed || !synced;
    }

    /** One key under the lock. Stops when the record changed or a read pins the
        key; a failing quarantine raises and leaves the cursor where it was. An
        authentic file is quarantined only after a failure. */
    method HandleNext(l: Local) returns (stopped: bool, raised: bool, status: Status, next: Local)
      requires Valid() && l.rest != [] && Tracks(durable, stable, l)
      modifies this`durable, this`present, this`stable, this`handled, this`faults
      ensures faults >= old(faults)
      ensures faults == old(faults) && !stopped ==>
        !raised && (l.rest[0] in old(present) ==> status == if old(present)[l.rest[0]] then Authenticated else Quarantined)
      ensures Valid() && Tracks(durable, stable, next) && Undisturbed(old(durable), old(stable), durable, stable)
      ensures stopped <==> old(durable) != l.state || Busy(pins, l.rest[0])
      ensures stopped ==> !raised && present == old(present) && stable == old(stable)
      ensures stopped || raised ==> next == l && durable == old(durable) && handled == old(handled) && status == NoStatus
      ensures !stopped && !raised ==>
        var k := l.rest[0];
        && next == Local(durable, l.rest[1..], l.full, l.targeted)
        && durable == (if l.targeted then old(durable).(target := None, status := status) else old(durable).(cursor := Some(k)))
        && handled == old(handled) + (if k in old(present) then {k} else {})
        && match status
           case NoStatus => false
           case Absent => k !in old(present) && present == old(present)
           case Authenticated => k in old(present) && old(present)[k] && present == old(present)
           case Quarantined => k in old(present) && present == old(present) - {k}
      ensures stable == old(stable) * present.Keys
    {
      stopped, raised, status, next := durable != l.state || Busy(pins, l.rest[0]), false, NoStatus, l;
      if stopped {
        return;
      }
      var k := l.rest[0];
      status := Absent;
      if k in present {
        // Reading the file and releasing its tombstone may fail, too.
        var fine := Attempt();
        status := if present[k] && fine then Authenticated else Quarantined;
        if status == Quarantined {
          raised := Quarantine(k);
          if raised {
            status := NoStatus;
            return;
          }
        }
        handled := handled + {k};
      }
      if !l.targeted && durable.running {
        BehindFirst(old(stable), l);
      }
      if l.targeted {
        durable := durable.(target := None, status := status);
      } else {
        durable := durable.(cursor := Some(k));
      }
      next := Local(durable, l.rest[1..], l.full, l.targeted);
      HandledFacts(old(stable), stable, l, next);
    }

    /** Last lock section of a step that found no key: the cycle is complete,
        and whatever was present throughout has been handled in it. */
    method FinishCycle(l: Local) returns (completed: bool)
      requires Valid() && Tracks(durable, stable, l) && !l.targeted && l.rest == [] && !l.full
      modifies this`durable
      ensures Valid() && completed == (l.state.running && old(durable) == l.state)
      ensures completed ==> !durable.running && durable.cursor.None? && durable.cycle == old(durable).cycle
      ensures completed ==> stable <= handled
      ensures !completed ==> durable == old(durable)
      ensures Undisturbed(old(durable), stable, durable, stable)
    {
      completed := l.state.running && durable == l.state;
      if completed {
        durable := durable.(running := false, cursor := None);
      }
    }

    // ---- everything else ----

    method Insert(k: Key, authentic: bool)
      requires Valid() && k !in present
      modifies this`present
      ensures Valid() && present == old(present)[k := authentic]
    {
      present := present[k := authentic];
    }

    /** Eviction or quarantine by somebody else. */
    method Remove(k: Key)
      requires Valid()
      modifies this`present, this`stable
      ensures Valid() && present == old(present) - {k} && stable == old(stable) - {k}
      ensures Undisturbed(durable, old(stable), durable, stable)
    {
      present, stable := present - {k}, stable - {k};
    }

    /** A file decays on disk. */
    method Decay(k: Key)
      requires Valid() && k in present
      modifies this`present
      ensures Valid() && present == old(present)[k := false]
    {
      present := present[k := false];
    }

    method SetPins(p: set<Key>)
      requires Valid()
      modifies this`pins
      ensures Valid() && pins == p
    {
      pins := p;
    }
  }

  /** Handling the first key keeps every other step's view and one's own. */
  lemma HandledFacts(before: set<Key>, after: set<Key>, l: Local, next: Local)
    requires l.rest != [] && after <= before && Tracks(l.state, before, l)
    requires next == Local(next.state, l.rest[1..], l.full, l.targeted)
    requires next.state == if l.targeted then next.state.(running := l.state.running, cycle := l.state.cycle, cursor := l.state.cursor)
                           else l.state.(cursor := Some(l.rest[0]))
    ensures Tracks(next.state, after, next)
    ensures Undisturbed(l.state, before, next.state, after)
  {
    if !l.targeted && l.state.running {
      assert l.rest == [l.rest[0]] + l.rest[1..];
      forall x | x in next.rest ensures l.rest[0] < x {
        var i :| 0 <= i < |next.rest| && next.rest[i] == x;
        assert l.rest[i + 1] == x;
      }
      forall k | k in after && l.rest[0] < k && k !in next.rest ensures next.full && forall x :: x in next.rest ==> x < k {
        assert AllAhead(before, l) && k in before && k !in l.rest;
        assert l.rest[0] in l.rest && Ahead(l.state.cursor, k);
        assert forall x :: x in next.rest ==> x in l.rest;
      }
    }
  }

  /** Up to the first key of a step, everything stable lies behind the cursor. */
  lemma BehindFirst(stable: set<Key>, l: Local)
    requires l.rest != [] && AllAhead(stable, l)
    ensures forall k :: k in stable && k < l.rest[0] ==> !Ahead(l.state.cursor, k)
  {
    forall k | k in stable && k < l.rest[0] ensures !Ahead(l.state.cursor, k) {
      forall i | 0 <= i < |l.rest| ensures l.rest[i] != k {
        assert l.rest[0] <= l.rest[i];
      }
      assert k !in l.rest && l.rest[0] in l.rest;
    }
  }
}
