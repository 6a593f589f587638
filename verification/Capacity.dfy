/** Capacity eviction: touches keep parents newer than children, so that the
    oldest files are always the tails of their chains. */
module Capacity {
  import opened Collections
  import opened CrashDisk

  /** A live file: its modification time and the key it depends on: the
      preceding data file, or for boundary state the data file it belongs to. */
  datatype Info = Info(modified: nat, parent: Option<Key>)

  type Files = map<Key, Info>

  /** Some pinned key shares the lock offset. */
  predicate Busy(pins: set<Key>, k: Key) { exists j :: j in pins && LockOffset(j) == LockOffset(k) }

  /** Every present parent is newer than its present children. */
  ghost predicate ParentsNewer(files: Files) {
    forall k :: k in files && files[k].parent.Some? && files[k].parent.value in files ==>
      files[k].modified < files[files[k].parent.value].modified
  }

  ghost predicate BeforeNow(files: Files, clock: nat) {
    forall k :: k in files ==> files[k].modified < clock
  }

  /** `chain` lists a prefix's files from the first chunk on: each parent comes
      before its child, and the first has none. */
  ghost predicate IsChain(files: Files, chain: seq<Key>) {
    && (forall i, j :: 0 <= i < j < |chain| ==> chain[i] != chain[j])
    && (forall i :: 0 <= i < |chain| ==> chain[i] in files && Rooted(files[chain[i]], chain[..i]))
  }

  predicate Rooted(info: Info, before: seq<Key>) {
    info.parent.Some? ==> info.parent.value in before
  }

  /** Parents are newer, except perhaps where `chain` is involved. */
  ghost predicate NewerOutside(files: Files, chain: seq<Key>) {
    forall k :: k in files && k !in chain && files[k].parent.Some? && files[k].parent.value in files &&
                files[k].parent.value !in chain ==>
      files[k].modified < files[files[k].parent.value].modified
  }

  function Stamp(files: Files, k: Key, now: nat): Files {
    if k in files then files[k := files[k].(modified := now)] else files
  }

  /** Touching `chain[i..]` from the end, one tick each. */
  function Touched(files: Files, chain: seq<Key>, i: nat, clock: nat): Files
    requires i <= |chain|
    decreases |chain| - i
  {
    if i == |chain| then files else
      Stamp(Touched(files, chain, i + 1, clock), chain[i], clock + (|chain| - 1 - i))
  }

  lemma {:induction false} TouchedFacts(files: Files, chain: seq<Key>, i: nat, clock: nat, k: Key)
    requires IsChain(files, chain) && i <= |chain|
    ensures k in Touched(files, chain, i, clock) <==> k in files
    ensures k in files ==> Touched(files, chain, i, clock)[k].parent == files[k].parent
    ensures k in files && k !in chain[i..] ==> Touched(files, chain, i, clock)[k] == files[k]
    ensures forall j :: i <= j < |chain| && chain[j] == k && k in files ==>
      Touched(files, chain, i, clock)[k].modified == clock + (|chain| - 1 - j)
    decreases |chain| - i
  {
    if i < |chain| {
      TouchedFacts(files, chain, i + 1, clock, k);
      assert chain[i..] == [chain[i]] + chain[i + 1..];
    }
  }

  lemma TouchedPair(files: Files, chain: seq<Key>, clock: nat, k: Key)
    requires IsChain(files, chain) && NewerOutside(files, chain) && BeforeNow(files, clock)
    requires k in files && files[k].parent.Some? && files[k].parent.value in files
    ensures k in Touched(files, chain, 0, clock) && files[k].parent.value in Touched(files, chain, 0, clock)
    ensures Touched(files, chain, 0, clock)[k].modified < Touched(files, chain, 0, clock)[files[k].parent.value].modified
  {
    var p := files[k].parent.value;
    TouchedFacts(files, chain, 0, clock, k);
    TouchedFacts(files, chain, 0, clock, p);
    assert chain[0..] == chain;
    if k in chain {
      var i :| 0 <= i < |chain| && chain[i] == k;
      assert Rooted(files[chain[i]], chain[..i]);
      var j :| 0 <= j < i && chain[j] == p;
    } else if p in chain {
      var j :| 0 <= j < |chain| && chain[j] == p;
    }
  }

  /** Touching a whole chain from its end makes parents newer everywhere. */
  lemma TouchOrders(files: Files, chain: seq<Key>, clock: nat)
    requires IsChain(files, chain) && NewerOutside(files, chain) && BeforeNow(files, clock)
    ensures ParentsNewer(Touched(files, chain, 0, clock))
    ensures BeforeNow(Touched(files, chain, 0, clock), clock + |chain|)
    ensures Touched(files, chain, 0, clock).Keys == files.Keys
  {
    var t := Touched(files, chain, 0, clock);
    forall k ensures k in t <==> k in files {
      TouchedFacts(files, chain, 0, clock, k);
    }
    assert chain[0..] == chain;
    forall k | k in t ensures t[k].modified < clock + |chain| {
      TouchedFacts(files, chain, 0, clock, k);
      if k in chain { var j :| 0 <= j < |chain| && chain[j] == k; }
    }
    forall k | k in t && t[k].parent.Some? && t[k].parent.value in t
      ensures t[k].modified < t[t[k].parent.value].modified
    {
      TouchedFacts(files, chain, 0, clock, k);
      TouchedPair(files, chain, clock, k);
    }
  }

  /** A touch of a chain changes no other file, and removes none. */
  lemma TouchKeepsOthers(files: Files, chain: seq<Key>, clock: nat)
    requires IsChain(files, chain)
    ensures Touched(files, chain, 0, clock).Keys == files.Keys
    ensures forall k :: k in files && k !in chain ==> Touched(files, chain, 0, clock)[k] == files[k]
  {
    assert chain[0..] == chain;
    forall k ensures k in Touched(files, chain, 0, clock) <==> k in files {
      TouchedFacts(files, chain, 0, clock, k);
    }
    forall k | k in files && k !in chain ensures Touched(files, chain, 0, clock)[k] == files[k] {
      TouchedFacts(files, chain, 0, clock, k);
    }
  }

  // ---- selecting the oldest ----

  /** The order of the bounded heap: modification time, then key. */
  predicate Before(files: Files, a: Key, b: Key)
    requires a in files && b in files
  {
    files[a].modified < files[b].modified || (files[a].modified == files[b].modified && a < b)
  }

  ghost predicate IsLeast(files: Files, s: set<Key>, m: Key)
    requires s <= files.Keys
  {
    m in s && forall y :: y in s && y != m ==> Before(files, m, y)
  }

  lemma LeastExists(files: Files, s: set<Key>) returns (m: Key)
    requires s <= files.Keys && s != {}
    ensures IsLeast(files, s, m)
  {
    m :| m in s;
    var rest := s - {m};
    assert forall y :: y in s ==> y == m || y in rest;
    if rest != {} {
      var other := LeastExists(files, rest);
      if Before(files, other, m) {
        m := other;
      }
    }
  }

  /** `selected` are the first `n` of `s` in order, or all of them. */
  ghost predicate Oldest(files: Files, s: set<Key>, selected: seq<Key>, n: nat)
    requires s <= files.Keys
  {
    && |selected| <= n && (|selected| < n ==> s <= ToSet(selected))
    && (forall i :: 0 <= i < |selected| ==> IsLeast(files, s - ToSet(selected[..i]), selected[i]))
  }

  /** `heapq.nsmallest` over the candidates. */
  method SelectOldest(files: Files, s: set<Key>, n: nat) returns (selected: seq<Key>)
    requires s <= files.Keys
    ensures Oldest(files, s, selected, n)
  {
    selected := [];
    var left := s;
    assert ToSet<Key>([]) == {};
    while |selected| < n && left != {}
      invariant |selected| <= n && left == s - ToSet(selected)
      invariant forall i :: 0 <= i < |selected| ==> IsLeast(files, s - ToSet(selected[..i]), selected[i])
    {
      ghost var least := LeastExists(files, left);
      var m :| m in left && forall y :: y in left && y != m ==> Before(files, m, y);
      ToSetAppend(selected, [m]);
      assert ToSet([m]) == {m};
      assert forall i :: 0 <= i < |selected| ==> (selected + [m])[..i] == selected[..i];
      assert (selected + [m])[..|selected|] == selected;
      selected := selected + [m];
      left := left - {m};
    }
  }

  // ---- peeling ----

  function Candidates(files: Files, pins: set<Key>): set<Key> {
    set k | k in files && !Busy(pins, k)
  }

  /** `c` is a present child of `p` after `gone` has been removed. */
  predicate LeftBehind(files: Files, gone: set<Key>, c: Key, p: Key) {
    c in files && c !in gone && p in gone && files[c].parent == Some(p)
  }

  /** Selected files are live and idle. */
  lemma SelectedIdle(files: Files, pins: set<Key>, selected: seq<Key>, n: nat, k: nat, p: Key)
    requires Oldest(files, Candidates(files, pins), selected, n) && k <= |selected| && p in selected[..k]
    ensures p in files && !Busy(pins, p)
  {
    var i :| 0 <= i < k && selected[i] == p;
    assert IsLeast(files, Candidates(files, pins) - ToSet(selected[..i]), selected[i]);
  }

  /** A selected file's child is selected before it, unless the child is busy. */
  lemma ChildrenFirst(files: Files, pins: set<Key>, selected: seq<Key>, n: nat, k: nat, c: Key, p: Key)
    requires ParentsNewer(files) && Oldest(files, Candidates(files, pins), selected, n) && k <= |selected|
    requires p in selected[..k] && c in files && files[c].parent == Some(p) && !Busy(pins, c)
    ensures c in selected[..k]
  {
    SelectedIdle(files, pins, selected, n, k, p);
    var i :| 0 <= i < k && selected[i] == p;
    assert IsLeast(files, Candidates(files, pins) - ToSet(selected[..i]), p);
    assert c in Candidates(files, pins) && !Before(files, p, c) && c != p;
    assert c in ToSet(selected[..i]);
  }

  /** The files of `s` that come before `p`. */
  function Earlier(files: Files, s: set<Key>, p: Key): set<Key>
    requires s <= files.Keys && p in files
  {
    set x | x in s && Before(files, x, p)
  }

  lemma {:induction false} PrefixSize(files: Files, s: set<Key>, selected: seq<Key>, n: nat, k: nat)
    requires s <= files.Keys && Oldest(files, s, selected, n) && k <= |selected|
    ensures |ToSet(selected[..k])| == k
  {
    if k == 0 {
      assert ToSet(selected[..0]) == {};
    } else {
      PrefixSize(files, s, selected, n, k - 1);
      PrefixStep(selected, k - 1);
      assert IsLeast(files, s - ToSet(selected[..k - 1]), selected[k - 1]);
    }
  }

  /** A file is among the first `k` of the selection exactly when fewer than
      `k` files come before it. */
  lemma AmongFirst(files: Files, s: set<Key>, selected: seq<Key>, n: nat, k: nat, p: Key)
    requires s <= files.Keys && Oldest(files, s, selected, n) && k <= |selected| && p in s
    ensures p in selected[..k] <==> |Earlier(files, s, p)| < k
  {
    if p in selected[..k] {
      var i :| 0 <= i < k && selected[i] == p;
      assert IsLeast(files, s - ToSet(selected[..i]), p);
      forall x | x in Earlier(files, s, p) ensures x in ToSet(selected[..i]) {
        assert x in s && Before(files, x, p) && (x != p ==> !Before(files, p, x));
      }
      PrefixSize(files, s, selected, n, i);
      SubsetSize(Earlier(files, s, p), ToSet(selected[..i]));
    } else {
      forall x | x in selected[..k] ensures x in Earlier(files, s, p) {
        var j :| 0 <= j < k && selected[j] == x;
        assert IsLeast(files, s - ToSet(selected[..j]), x) && p !in ToSet(selected[..j]) && p != x;
      }
      PrefixSize(files, s, selected, n, k);
      SubsetSize(ToSet(selected[..k]), Earlier(files, s, p));
    }
  }

  /** An idle file with fewer than `k` older idle files has a busy child. */
  ghost predicate Orphaning(files: Files, pins: set<Key>, k: nat, c: Key, p: Key) {
    && p in Candidates(files, pins) && |Earlier(files, Candidates(files, pins), p)| < k
    && c in files && files[c].parent == Some(p) && Busy(pins, c)
  }

  /** Evicting the first `k` of the selection leaves a child behind exactly when
      one of the `k` oldest idle files has a busy child. */
  lemma PeelsTails(files: Files, pins: set<Key>, selected: seq<Key>, n: nat, k: nat)
    requires ParentsNewer(files) && Oldest(files, Candidates(files, pins), selected, n) && k <= |selected|
    ensures forall c: Key, p: Key :: LeftBehind(files, ToSet(selected[..k]), c, p) <==> Orphaning(files, pins, k, c, p)
  {
    forall c: Key, p: Key ensures LeftBehind(files, ToSet(selected[..k]), c, p) <==> Orphaning(files, pins, k, c, p) {
      if p in selected[..k] {
        SelectedIdle(files, pins, selected, n, k, p);
      }
      if p in Candidates(files, pins) {
        AmongFirst(files, Candidates(files, pins), selected, n, k, p);
      }
      if c in selected[..k] {
        SelectedIdle(files, pins, selected, n, k, c);
      } else if c in files && files[c].parent == Some(p) && p in selected[..k] && !Busy(pins, c) {
        ChildrenFirst(files, pins, selected, n, k, c, p);
      }
    }
  }

  /** A restore pins whole chains: with a pinned file, its present ancestors. */
  ghost predicate PinsWhole(files: Files, pins: set<Key>) {
    forall k :: k in pins && k in files && files[k].parent.Some? && files[k].parent.value in files ==>
      files[k].parent.value in pins
  }

  /** No key merely shares a lock offset with a pinned one. */
  ghost predicate NoCollisions(files: Files, pins: set<Key>) {
    forall k :: k in files && Busy(pins, k) ==> k in pins
  }

  lemma PinnedIsBusy(pins: set<Key>, k: Key)
    requires k in pins
    ensures Busy(pins, k)
  {
  }

  /** While lock offsets do not collide, no batch leaves a child behind. */
  lemma PinnedChainsStay(files: Files, pins: set<Key>, selected: seq<Key>, n: nat, k: nat)
    requires ParentsNewer(files) && Oldest(files, Candidates(files, pins), selected, n) && k <= |selected|
    requires PinsWhole(files, pins) && NoCollisions(files, pins)
    ensures !exists c: Key, p: Key :: LeftBehind(files, ToSet(selected[..k]), c, p)
  {
    PeelsTails(files, pins, selected, n, k);
    forall c: Key, p: Key ensures !Orphaning(files, pins, k, c, p) {
      if p in Candidates(files, pins) && p in pins { PinnedIsBusy(pins, p); }
    }
  }

  /** Keys 0 and 1 share a lock offset. A pinned key 1 makes key 0 busy, and the
      batch takes key 0's parent from under it. */
  lemma CollisionLeavesChild() returns (files: Files, pins: set<Key>, selected: seq<Key>)
    ensures ParentsNewer(files) && PinsWhole(files, pins) && pins <= files.Keys
    ensures Oldest(files, Candidates(files, pins), selected, 4)
    ensures exists c: Key, p: Key :: LeftBehind(files, ToSet(selected), c, p)
  {
    var p: Key := OFFSET_SHIFT;
    files := map[0 := Info(4, Some(p)), p := Info(5, None), 1 := Info(9, None)];
    pins, selected := {1}, [p];
    assert LockOffset(0) == LockOffset(1) == 0 && LockOffset(p) == 2;
    assert Busy(pins, 0) && Busy(pins, 1) && !Busy(pins, p);
    assert Candidates(files, pins) == {p};
    assert ToSet(selected) == {p} && ToSet(selected[..0]) == {};
    assert LeftBehind(files, ToSet(selected), 0, p);
  }

  // ---- the store ----

  function Quota(remaining: nat, count: nat): nat { if remaining > 0 then remaining else Max(1, count / 5) }

  /** What an earlier batch left, or else a fifth of the files, rounded down, but
      at least one. */
  predicate IsQuota(remaining: nat, count: nat, quota: nat) {
    if remaining > 0 then quota == remaining
    else quota >= 1 && (quota == 1 || 5 * quota <= count) && count < 5 * (quota + 1)
  }

  lemma QuotaIsFifth(remaining: nat, count: nat, quota: nat)
    ensures IsQuota(remaining, count, quota) <==> quota == Quota(remaining, count)
  {
  }

  datatype BatchReport = BatchReport(attempted: nat, removed: nat, remaining: nat)

  lemma RemovalKeepsOrder(files: Files, gone: set<Key>, clock: nat)
    requires ParentsNewer(files) && BeforeNow(files, clock)
    ensures ParentsNewer(files - gone) && BeforeNow(files - gone, clock)
  {
  }

  lemma Evicted(files: Files, pins: set<Key>, selected: seq<Key>, n: nat, clock: nat)
    requires ParentsNewer(files) && BeforeNow(files, clock)
    requires Oldest(files, Candidates(files, pins), selected, 4) && n <= |selected|
    ensures ParentsNewer(files - ToSet(selected[..n])) && BeforeNow(files - ToSet(selected[..n]), clock)
    ensures forall c: Key, p: Key :: LeftBehind(files, ToSet(selected[..n]), c, p) <==> Orphaning(files, pins, n, c, p)
  {
    PeelsTails(files, pins, selected, 4, n);
    RemovalKeepsOrder(files, ToSet(selected[..n]), clock);
  }

  class CapacityStore {
    var files: Files
    /** The next clock reading: strictly larger than every earlier one. */
    var clock: nat
    var pins: set<Key>
    /** How many system calls have failed. */
    ghost var faults: nat

    ghost predicate Valid()
      reads this
    {
      ParentsNewer(files) && BeforeNow(files, clock)
    }

    constructor ()
      ensures Valid() && files == map[] && pins == {}
    {
      files, clock, pins, faults := map[], 0, {}, 0;
    }

    /** A system call, which may fail. */
    method Attempt() returns (ok: bool)
      modifies this`faults
      ensures faults == old(faults) + if ok then 0 else 1
    {
      ok := *;
      faults := if ok then faults else faults + 1;
    }

    /** Touches a chain from its end, so that its head is the most recent. */
    method Touch(chain: seq<Key>)
      requires IsChain(files, chain) && NewerOutside(files, chain) && BeforeNow(files, clock)
      modifies this`files, this`clock
      ensures Valid() && files == Touched(old(files), chain, 0, old(clock)) && clock == old(clock) + |chain|
    {
      ghost var before, start := files, clock;
      var i := |chain|;
      while i > 0
        invariant 0 <= i <= |chain| && clock == start + (|chain| - i)
        invariant files == Touched(before, chain, i, start)
      {
        i := i - 1;
        files := Stamp(files, chain[i], clock);
        clock := clock + 1;
      }
      TouchOrders(before, chain, start);
    }

    /** Writes the chain's missing files, each with its parent. */
    method WriteMissing(chain: seq<Key>, parents: map<Key, Option<Key>>)
      requires BeforeNow(files, clock) && forall k :: k in chain ==> k in parents
      requires forall k :: k in chain && k in files ==> files[k].parent == parents[k]
      modifies this`files, this`clock
      ensures BeforeNow(files, clock) && files.Keys == old(files).Keys + ToSet(chain)
      ensures forall k :: k in files && k in chain ==> files[k].parent == parents[k]
      ensures forall k :: k in files && k !in chain ==> k in old(files) && files[k] == old(files)[k]
    {
      var i := 0;
      assert ToSet(chain[..0]) == {};
      while i < |chain|
        invariant 0 <= i <= |chain| && BeforeNow(files, clock)
        invariant files.Keys == old(files).Keys + ToSet(chain[..i])
        invariant forall k :: k in files && k in chain ==> files[k].parent == parents[k]
        invariant forall k :: k in files && k !in chain ==> k in old(files) && files[k] == old(files)[k]
      {
        PrefixStep(chain, i);
        if chain[i] !in files {
          files := files[chain[i] := Info(clock, parents[chain[i]])];
          clock := clock + 1;
        }
        i := i + 1;
      }
      assert chain[..i] == chain;
    }

    /** A completed save: missing files are written, then the whole chain is
        touched. `parents` gives each key's parent. */
    method Save(chain: seq<Key>, parents: map<Key, Option<Key>>)
      requires Valid() && forall k :: k in chain ==> k in parents
      requires forall i, j :: 0 <= i < j < |chain| ==> chain[i] != chain[j]
      requires forall i :: 0 <= i < |chain| ==> parents[chain[i]].Some? ==> parents[chain[i]].value in chain[..i]
      requires forall k :: k in chain && k in files ==> files[k].parent == parents[k]
      modifies this`files, this`clock
      ensures Valid() && files.Keys == old(files).Keys + ToSet(chain)
      ensures forall i :: 0 <= i < |chain| ==>
        chain[i] in files && files[chain[i]].parent == parents[chain[i]] && files[chain[i]].modified == clock - 1 - i
      ensures forall k :: k in old(files) && k !in chain ==> files[k] == old(files)[k]
    {
      WriteMissing(chain, parents);
      ghost var written, now := files, clock;
      assert NewerOutside(written, chain);
      Touch(chain);
      TouchKeepsOthers(written, chain, now);
      forall i | 0 <= i < |chain|
        ensures chain[i] in files && files[chain[i]].parent == parents[chain[i]] && files[chain[i]].modified == clock - 1 - i
      {
        TouchedFacts(written, chain, 0, now, chain[i]);
      }
    }

    /** Evicts `picked` in order, up to `limit`; any eviction may fail. */
    method EvictSome(picked: seq<Key>, limit: nat) returns (done: nat, raised: bool)
      requires limit <= |picked|
      modifies this`files, this`faults
      ensures faults >= old(faults) && (faults == old(faults) ==> !raised)
      ensures done <= limit && (!raised ==> done == limit)
      ensures files == old(files) - ToSet(picked[..done])
    {
      done, raised := 0, false;
      assert ToSet(picked[..0]) == {} && files - {} == files;
      while done < limit
        invariant done <= limit && files == old(files) - ToSet(picked[..done])
        invariant faults == old(faults)
      {
        var evicted := Attempt();
        if !evicted {
          return done, true;
        }
        PrefixStep(picked, done);
        files := files - {picked[done]};
        done := done + 1;
      }
      raised := false;
    }

    /** One capacity batch: at most four of the oldest idle files, within the
        quota; any eviction may fail and end the batch. */
    method MaintainBatch(trigger: int, remaining: nat, usage: int)
      returns (report: BatchReport, raised: bool, ghost selected: seq<Key>, ghost done: nat, ghost quota: nat)
      requires Valid() && trigger > 0
      modifies this`files, this`faults
      ensures faults >= old(faults) && (faults == old(faults) ==> !raised)
      ensures IsQuota(remaining, |old(files)|, quota)
      ensures Valid()
      ensures Oldest(old(files), Candidates(old(files), pins), selected, 4) && done <= |selected|
      ensures files == old(files) - ToSet(selected[..done])
      ensures forall c: Key, p: Key ::
        LeftBehind(old(files), ToSet(selected[..done]), c, p) <==> Orphaning(old(files), pins, done, c, p)
      ensures remaining == 0 && usage < trigger ==> files == old(files)
      ensures !raised && (remaining > 0 || usage >= trigger) ==>
        && done == Min(|selected|, quota)
        && report == BatchReport(done, done, if |selected| >= Min(4, quota) then quota - done else 0)
    {
      var picked := SelectOldest(files, Candidates(files, pins), 4);
      var share, limit := Quota(remaining, |files|), 0;
      QuotaIsFifth(remaining, |files|, share);
      if remaining > 0 || usage >= trigger {
        limit := Min(|picked|, share);
      }
      var n;
      n, raised := EvictSome(picked, limit);
      Evicted(old(files), pins, picked, n, clock);
      selected, done, quota := picked, n, share;
      report := BatchReport(n, n, if |picked| >= Min(4, share) then Max(0, share - n) else 0);
      assert n == 0 ==> old(files) - ToSet(picked[..n]) == old(files);
    }
  }
}
