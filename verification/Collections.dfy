/** Sequence, set and map facts that several components share. */
module Collections {

  datatype Option<+T> = None | Some(value: T)

  function Min(a: int, b: int): int { if a <= b then a else b }

  function Max(a: int, b: int): int { if a <= b then b else a }

  ghost predicate Distinct<T>(s: seq<T>) {
    s == [] || (s[0] !in s[1..] && Distinct(s[1..]))
  }

  /** No element twice; `Distinct` says it by recursion. */
  predicate NoRepeats<T(==)>(s: seq<T>) {
    forall i, j :: 0 <= i < j < |s| ==> s[i] != s[j]
  }

  lemma {:induction false} DistinctIsNoRepeats<T>(s: seq<T>)
    ensures Distinct(s) <==> NoRepeats(s)
  {
    if s != [] {
      DistinctIsNoRepeats(s[1..]);
      assert forall i :: 0 <= i < |s[1..]| ==> s[1..][i] == s[i + 1];
      assert forall i :: 0 < i < |s| ==> s[i] == s[1..][i - 1];
    }
  }

  lemma MulMonotone(a: int, b: int, c: int)
    requires c >= 0
    ensures a <= b ==> a * c <= b * c
  {
  }

  function ToSet<T(==,!new)>(s: seq<T>): set<T> {
    set x | x in s
  }

  /** `s` without the members of `gone`, in the same order. */
  function Drop<T(==,!new)>(s: seq<T>, gone: set<T>): seq<T> {
    if s == [] then [] else (if s[0] in gone then [] else [s[0]]) + Drop(s[1..], gone)
  }

  lemma {:induction false} DropMembers<T(!new)>(s: seq<T>, gone: set<T>)
    ensures ToSet(Drop(s, gone)) == ToSet(s) - gone
    ensures |Drop(s, gone)| <= |s|
  {
    if s != [] {
      DropMembers(s[1..], gone);
      assert s == [s[0]] + s[1..];
      ToSetCons(s[0], s[1..]);
      ToSetCons(s[0], Drop(s[1..], gone));
      if s[0] in gone { assert Drop(s, gone) == Drop(s[1..], gone); }
    } else {
      assert ToSet(Drop(s, gone)) == {} && ToSet(s) == {};
    }
  }

  lemma ToSetCons<T(!new)>(x: T, s: seq<T>)
    ensures ToSet([x] + s) == {x} + ToSet(s)
  {
    forall y ensures y in ToSet([x] + s) <==> y in {x} + ToSet(s) {
      assert y in [x] + s <==> y == x || y in s;
    }
  }

  lemma ToSetAppend<T(!new)>(s: seq<T>, t: seq<T>)
    ensures ToSet(s + t) == ToSet(s) + ToSet(t)
  {
    forall y ensures y in ToSet(s + t) <==> y in ToSet(s) + ToSet(t) {
      assert y in s + t <==> y in s || y in t;
    }
  }

  lemma PrefixStep<T(!new)>(s: seq<T>, n: nat)
    requires n < |s|
    ensures s[..n + 1] == s[..n] + [s[n]]
    ensures ToSet(s[..n + 1]) == ToSet(s[..n]) + {s[n]}
  {
    assert s[..n + 1] == s[..n] + [s[n]];
    ToSetAppend(s[..n], [s[n]]);
    assert ToSet([s[n]]) == {s[n]};
  }

  lemma {:induction false} DropDistinct<T(!new)>(s: seq<T>, gone: set<T>)
    requires Distinct(s)
    ensures Distinct(Drop(s, gone))
  {
    if s != [] {
      DropDistinct(s[1..], gone);
      DropMembers(s[1..], gone);
      if s[0] !in gone {
        assert s[0] !in ToSet(s[1..]);
        assert Drop(s, gone) == [s[0]] + Drop(s[1..], gone);
        assert Drop(s, gone)[1..] == Drop(s[1..], gone);
        assert s[0] !in ToSet(Drop(s[1..], gone));
      } else {
        assert Drop(s, gone) == Drop(s[1..], gone);
      }
    }
  }

  lemma {:induction false} DropNothing<T(!new)>(s: seq<T>, gone: set<T>)
    requires gone !! ToSet(s)
    ensures Drop(s, gone) == s
  {
    if s != [] {
      assert s == [s[0]] + s[1..];
      ToSetCons(s[0], s[1..]);
      DropNothing(s[1..], gone);
    }
  }

  /** Dropping one element closes the gap it leaves. */
  lemma {:induction false} DropOne<T(!new)>(s: seq<T>, i: nat)
    requires Distinct(s) && i < |s|
    ensures Drop(s, {s[i]}) == s[..i] + s[i + 1..]
  {
    var rest := s[1..];
    if i == 0 {
      DropNothing(rest, {s[0]});
    } else {
      assert rest[i - 1] == s[i];
      DropOne(rest, i - 1);
      assert s[..i] + s[i + 1..] == [s[0]] + (rest[..i - 1] + rest[i..]);
    }
  }

  lemma {:induction false} DropTwice<T(!new)>(s: seq<T>, a: set<T>, b: set<T>)
    ensures Drop(Drop(s, a), b) == Drop(s, a + b)
  {
    if s != [] {
      DropTwice(s[1..], a, b);
      var head := if s[0] in a then [] else [s[0]];
      assert Drop(s, a) == head + Drop(s[1..], a);
      DropAppend(head, Drop(s[1..], a), b);
    }
  }

  lemma {:induction false} DropAppend<T(!new)>(s: seq<T>, t: seq<T>, gone: set<T>)
    ensures Drop(s + t, gone) == Drop(s, gone) + Drop(t, gone)
  {
    if s == [] {
      assert s + t == t;
    } else {
      assert (s + t)[1..] == s[1..] + t;
      DropAppend(s[1..], t, gone);
    }
  }

  lemma {:induction false} DropAll<T(!new)>(s: seq<T>, gone: set<T>)
    requires ToSet(s) <= gone
    ensures Drop(s, gone) == []
  {
    if s != [] {
      assert s == [s[0]] + s[1..];
      ToSetCons(s[0], s[1..]);
      DropAll(s[1..], gone);
    }
  }

  lemma DropHead<T(!new)>(s: seq<T>)
    requires s != [] && Distinct(s)
    ensures Drop(s, {s[0]}) == s[1..]
  {
    DropNothing(s[1..], {s[0]});
  }

  lemma {:induction false} DistinctSize<T(!new)>(s: seq<T>)
    requires Distinct(s)
    ensures |ToSet(s)| == |s|
  {
    if s != [] {
      DistinctSize(s[1..]);
      assert s == [s[0]] + s[1..];
      ToSetCons(s[0], s[1..]);
    }
  }

  lemma {:induction false} DistinctAppend<T(!new)>(s: seq<T>, t: seq<T>)
    requires Distinct(s) && Distinct(t) && ToSet(s) !! ToSet(t)
    ensures Distinct(s + t)
  {
    if s == [] {
      assert s + t == t;
    } else {
      assert s == [s[0]] + s[1..];
      ToSetCons(s[0], s[1..]);
      DistinctAppend(s[1..], t);
      assert (s + t)[1..] == s[1..] + t;
      ToSetAppend(s[1..], t);
      assert s[0] !in ToSet(s[1..] + t);
    }
  }

  /** A cut splits the members of a distinct sequence. */
  lemma {:induction false} DistinctSplit<T(!new)>(s: seq<T>, n: nat)
    requires Distinct(s) && n <= |s|
    ensures Distinct(s[..n]) && Distinct(s[n..])
    ensures ToSet(s[n..]) == ToSet(s) - ToSet(s[..n])
    ensures ToSet(s[..n]) <= ToSet(s)
    ensures n < |s| ==> s[n] !in ToSet(s[..n])
  {
    if n == 0 {
      assert s[..0] == [] && s[0..] == s;
      assert ToSet(s[..0]) == {};
    } else {
      DistinctSplit(s[1..], n - 1);
      SplitStep(s, n);
    }
  }

  lemma SplitStep<T(!new)>(s: seq<T>, n: nat)
    requires 0 < n <= |s| && s[0] !in s[1..] && Distinct(s[1..][..n - 1]) && Distinct(s[1..][n - 1..])
    requires ToSet(s[1..][n - 1..]) == ToSet(s[1..]) - ToSet(s[1..][..n - 1]) && ToSet(s[1..][..n - 1]) <= ToSet(s[1..])
    requires n < |s| ==> s[1..][n - 1] !in ToSet(s[1..][..n - 1])
    ensures Distinct(s[..n]) && Distinct(s[n..])
    ensures ToSet(s[n..]) == ToSet(s) - ToSet(s[..n]) && ToSet(s[..n]) <= ToSet(s)
    ensures n < |s| ==> s[n] !in ToSet(s[..n])
  {
    var tail := s[1..];
    assert s[..n] == [s[0]] + tail[..n - 1] && s[n..] == tail[n - 1..] && s == [s[0]] + tail;
    ToSetCons(s[0], tail);
    ToSetCons(s[0], tail[..n - 1]);
    assert s[..n][1..] == tail[..n - 1] && s[0] !in ToSet(tail);
  }

  lemma SubsetSize<T>(a: set<T>, b: set<T>)
    requires a <= b
    ensures |a| <= |b|
  {
    assert b == a + (b - a);
  }

  lemma SubsetSameSize<T>(a: set<T>, b: set<T>)
    requires a <= b && |a| >= |b|
    ensures a == b
  {
    if x :| x in b && x !in a {
      SubsetSize(a + {x}, b);
    }
  }

  ghost function Below(n: nat): (r: set<int>)
    ensures forall i :: i in r <==> 0 <= i < n
    ensures |r| == n
  {
    if n == 0 then {} else Below(n - 1) + {n - 1}
  }

  /** `a` agrees with `b` wherever `a` is defined. */
  ghost predicate SubMap<K, V>(a: map<K, V>, b: map<K, V>) {
    forall k :: k in a ==> k in b && a[k] == b[k]
  }

  lemma SubMapSize<K, V>(a: map<K, V>, b: map<K, V>)
    requires SubMap(a, b)
    ensures |a| <= |b|
    ensures |a| == |b| ==> a == b
  {
    SubsetSize(a.Keys, b.Keys);
    assert |a| == |a.Keys| && |b| == |b.Keys|;
    if |a| == |b| {
      SubsetSameSize(a.Keys, b.Keys);
      assert a.Keys == b.Keys;
    }
  }

  lemma MinExists(s: set<nat>) returns (m: nat)
    requires s != {}
    ensures m in s && forall y :: y in s ==> m <= y
  {
    m :| m in s;
    var rest := s - {m};
    assert forall y :: y in s ==> y == m || y in rest;
    if rest != {} {
      var other := MinExists(rest);
      if other < m {
        m := other;
      }
    }
  }

  /** The least member, as Python's `min` picks it. */
  function Least(s: set<nat>): (m: nat)
    requires s != {}
    ensures m in s && forall y :: y in s ==> m <= y
  {
    assert exists x :: x in s && forall y :: y in s ==> x <= y by {
      var x := MinExists(s);
    }
    var m :| m in s && forall y :: y in s ==> m <= y;
    m
  }

  ghost predicate Ascending(s: seq<nat>) {
    forall i, j :: 0 <= i < j < |s| ==> s[i] < s[j]
  }

  /** Python's `sorted` on a set of keys. */
  function SortedKeys(s: set<nat>): seq<nat> {
    if s == {} then [] else
      var m := Least(s);
      [m] + SortedKeys(s - {m})
  }

  lemma PrependLeast(m: nat, rest: seq<nat>, s: set<nat>)
    requires m in s && forall k :: k in s ==> m <= k
    requires Ascending(rest) && |rest| == |s - {m}|
    requires forall k :: k in rest <==> k in s - {m}
    ensures Ascending([m] + rest) && |[m] + rest| == |s|
    ensures forall k :: k in [m] + rest <==> k in s
  {
    forall i | 0 <= i < |rest| ensures m < rest[i] {
      assert rest[i] in s - {m};
    }
    forall k ensures k in [m] + rest <==> k in s {
      assert k in [m] + rest <==> k == m || k in rest;
    }
  }

  lemma {:induction false} SortedKeysFacts(s: set<nat>)
    ensures forall k :: k in SortedKeys(s) <==> k in s
    ensures Ascending(SortedKeys(s))
    ensures |SortedKeys(s)| == |s|
  {
    if s != {} {
      var m := Least(s);
      SortedKeysFacts(s - {m});
      PrependLeast(m, SortedKeys(s - {m}), s);
    }
  }

  lemma {:induction false} AscendingUnique(s: seq<nat>, t: seq<nat>)
    requires Ascending(s) && Ascending(t)
    requires forall x :: x in s <==> x in t
    ensures s == t
  {
    assert s != [] ==> s[0] in t;
    assert t != [] ==> t[0] in s;
    if s != [] {
      assert s[0] == t[0];
      assert s == [s[0]] + s[1..] && t == [t[0]] + t[1..];
      forall x ensures x in s[1..] <==> x in t[1..] {
        assert s[0] !in s[1..] && t[0] !in t[1..];
        assert x in s <==> x in t;
      }
      AscendingUnique(s[1..], t[1..]);
    }
  }
}
