/** Boundary arithmetic: common multiples, chunk widths and legal spans. */
module Boundaries {
  import opened Collections
  import opened Hma

  /** `d` divides `n`. */
  predicate Divides(d: int, n: int)
    requires d > 0
  {
    n % d == 0
  }

  lemma DividesBy(d: int, n: int) returns (q: int)
    requires d > 0 && Divides(d, n)
    ensures n == q * d
  {
    q := n / d;
  }

  lemma Multiple(d: int, q: int)
    requires d > 0
    ensures Divides(d, q * d) && (q * d) / d == q
  {
    var x := q * d;
    var e := x / d - q;
    assert e * d == (x / d) * d - q * d == -(x % d);
    MulMonotone(1, e, d);
    MulMonotone(e, -1, d);
  }

  lemma DividesSum(d: int, a: int, b: int, k: int)
    requires d > 0 && Divides(d, a) && Divides(d, b)
    ensures Divides(d, a + b) && Divides(d, a - b) && Divides(d, k * a)
  {
    var x := DividesBy(d, a);
    var y := DividesBy(d, b);
    assert a + b == (x + y) * d && a - b == (x - y) * d;
    assert k * a == (k * x) * d;
    Multiple(d, x + y);
    Multiple(d, x - y);
    Multiple(d, k * x);
  }

  // ---- greatest common divisor ----

  /** `g` is the greatest common divisor, as a combination of both numbers. */
  ghost predicate IsGcd(g: int, a: int, b: int, x: int, y: int) {
    g > 0 && Divides(g, a) && Divides(g, b) && g == x * a + y * b
  }

  predicate CommonDivisor(d: int, a: int, b: int) {
    d > 0 && Divides(d, a) && Divides(d, b)
  }

  /** A combination that is a common divisor is the greatest one. */
  lemma CombinationIsGreatest(g: int, a: int, b: int, x: int, y: int, d: int)
    requires IsGcd(g, a, b, x, y) && CommonDivisor(d, a, b)
    ensures d <= g
  {
    DividesSum(d, a, b, x);
    DividesSum(d, b, a, y);
    DividesSum(d, x * a, y * b, 1);
    var q := DividesBy(d, g);
    PositiveFactor(q, d);
    MulMonotone(1, q, d);
  }

  /** Euclid's loop. The ghost results witness Bezout's identity. */
  method Gcd(left: nat, right: nat) returns (g: nat, ghost x: int, ghost y: int)
    requires left > 0
    ensures CommonDivisor(g, left, right) && forall d :: CommonDivisor(d, left, right) ==> d <= g
    ensures IsGcd(g, left, right, x, y)
  {
    var a: nat, b: nat := left, right;
    // a == xa * left + ya * right, and likewise for b
    ghost var xa, ya, xb, yb := 1, 0, 0, 1;
    while b != 0
      invariant a > 0
      invariant a == xa * left + ya * right && b == xb * left + yb * right
      invariant forall d :: d > 0 && Divides(d, a) && Divides(d, b) ==> Divides(d, left) && Divides(d, right)
      decreases b
    {
      ghost var q, r := a / b, a % b;
      CombinationStep(left, right, a, b, xa, ya, xb, yb, q, r);
      forall d | d > 0 && Divides(d, b) && Divides(d, r) ensures Divides(d, a) {
        DividesSum(d, b, r, q);
        DividesSum(d, q * b, r, 1);
      }
      xa, ya, xb, yb := xb, yb, xa - q * xb, ya - q * yb;
      a, b := b, a % b;
    }
    g, x, y := a, xa, ya;
    Multiple(g, 1);
    Multiple(g, 0);
    forall d | CommonDivisor(d, left, right) ensures d <= g {
      CombinationIsGreatest(g, left, right, x, y, d);
    }
  }

  lemma CombinationStep(left: int, right: int, a: int, b: int, xa: int, ya: int, xb: int, yb: int, q: int, r: int)
    requires a == xa * left + ya * right && b == xb * left + yb * right && a == q * b + r
    ensures r == (xa - q * xb) * left + (ya - q * yb) * right
  {
    assert q * b == (q * xb) * left + (q * yb) * right;
  }

  /** `left * right / gcd` is the least common multiple: it divides exactly the
      common multiples. */
  lemma LeastCommonMultiple(a: nat, b: nat, g: nat, x: int, y: int, n: int)
    requires a > 0 && b > 0 && IsGcd(g, a, b, x, y)
    ensures (a * b) / g > 0
    ensures Divides((a * b) / g, n) <==> Divides(a, n) && Divides(b, n)
  {
    var p := DividesBy(g, a);
    var q := DividesBy(g, b);
    var m := p * q * g;
    assert a * b == (p * q * g) * g;
    Multiple(g, m);
    assert (a * b) / g == m;
    Positive(p, g, a);
    Positive(q, g, b);
    assert m == q * a == p * b;
    MulPositive(q, a);
    if Divides(m, n) {
      var k := DividesBy(m, n);
      assert n == (k * q) * a && n == (k * p) * b;
      Multiple(a, k * q);
      Multiple(b, k * p);
    }
    if Divides(a, n) && Divides(b, n) {
      CommonIsMultiple(a, b, g, x, y, p, q, n);
    }
  }

  lemma Positive(p: int, g: int, a: int)
    requires g > 0 && a > 0 && a == p * g
    ensures p > 0
  {
  }

  lemma MulPositive(a: int, b: int)
    requires a > 0 && b > 0
    ensures a * b > 0
  {
  }

  lemma CommonIsMultiple(a: int, b: int, g: int, x: int, y: int, p: int, q: int, n: int)
    requires a > 0 && b > 0 && g > 0 && g == x * a + y * b && a == p * g && b == q * g
    requires Divides(a, n) && Divides(b, n) && p * q * g > 0
    ensures Divides(p * q * g, n)
  {
    var s := DividesBy(a, n);
    var t := DividesBy(b, n);
    // n * g == x * a * n + y * b * n, and both terms are multiples of m * g
    var m := p * q * g;
    OneTerm(x, a, n, t, b, p, q, g);
    OneTerm(y, b, n, s, a, q, p, g);
    assert p * q * g * g == m * g && q * p * g * g == m * g;
    Combine(n, g, x * a, y * b, x * t, y * s, m);
    CancelFactor(n, (x * t + y * s) * m, g);
    Multiple(m, x * t + y * s);
  }

  lemma OneTerm(x: int, a: int, n: int, t: int, b: int, p: int, q: int, g: int)
    requires n == t * b && a == p * g && b == q * g
    ensures (x * a) * n == (x * t) * (p * q * g * g)
  {
    assert a * b == p * q * g * g;
    assert a * n == t * (a * b);
    assert (x * a) * n == x * (t * (a * b));
  }

  lemma Combine(n: int, g: int, u: int, v: int, i: int, j: int, m: int)
    requires g == u + v && u * n == i * (m * g) && v * n == j * (m * g)
    ensures n * g == ((i + j) * m) * g
  {
    assert n * g == u * n + v * n;
    assert i * (m * g) + j * (m * g) == ((i + j) * m) * g;
  }

  lemma CancelFactor(a: int, b: int, g: int)
    requires g > 0 && a * g == b * g
    ensures a == b
  {
    Multiple(g, a);
    Multiple(g, b);
  }

  // ---- spans ----

  ghost predicate CommonMultiple(n: int, a: nat, b: nat)
    requires a > 0 && b > 0
  {
    Divides(a, n) && Divides(b, n)
  }

  /** `s` is the greatest common multiple not above `top`. */
  ghost predicate GreatestCommon(s: int, a: nat, b: nat, top: int)
    requires a > 0 && b > 0
  {
    CommonMultiple(s, a, b) && s <= top && forall t :: CommonMultiple(t, a, b) && t <= top ==> t <= s
  }

  lemma FloorBounds(m: nat, top: int)
    requires m > 0
    ensures (top / m) * m <= top < (top / m + 1) * m
  {
  }

  lemma FloorIsGreatest(m: nat, top: int, t: int)
    requires m > 0
    ensures Divides(m, (top / m) * m) && (top / m) * m <= top
    ensures Divides(m, t) && t <= top ==> t <= (top / m) * m
  {
    var q := top / m;
    Multiple(m, q);
    FloorBounds(m, top);
    if Divides(m, t) && t <= top {
      var k := DividesBy(m, t);
      MulMonotone(q + 1, k, m);
      MulMonotone(k, q, m);
    }
  }

  lemma LesserFloor(m: nat, a: int, b: int)
    requires m > 0
    ensures Min((a / m) * m, (b / m) * m) == (Min(a, b) / m) * m
  {
    FloorIsGreatest(m, a, (b / m) * m);
    FloorIsGreatest(m, b, (a / m) * m);
  }

  function Top(prompt: int, cap: Option<int>): int {
    if cap.Some? then Min(prompt - 1, cap.value) else prompt - 1
  }

  /** The safe boundary: nothing, or the greatest common multiple of alignment
      and chunk that leaves a token to compute and respects the cap. */
  method AlignedPrefixSpan(prompt: int, alignment: int, chunk: int, least: int, cap: Option<int>)
    returns (span: int, ghost best: int)
    ensures prompt <= 1 || alignment <= 0 || chunk <= 0 ==> span == 0
    ensures prompt > 1 && alignment > 0 && chunk > 0 ==>
      GreatestCommon(best, alignment, chunk, Top(prompt, cap)) && span == if best >= least then best else 0
  {
    best := 0;
    if prompt <= 1 || alignment <= 0 || chunk <= 0 {
      return 0, 0;
    }
    var g, x, y := Gcd(alignment, chunk);
    LeastCommonMultiple(alignment, chunk, g, x, y, 0);
    var quantum := alignment * chunk / g;
    span := ((prompt - 1) / quantum) * quantum;
    if cap.Some? {
      LesserFloor(quantum, prompt - 1, cap.value);
      span := Min(span, (cap.value / quantum) * quantum);
    }
    best := span;
    forall t ensures CommonMultiple(t, alignment, chunk) && t <= Top(prompt, cap) ==> t <= best {
      LeastCommonMultiple(alignment, chunk, g, x, y, t);
      FloorIsGreatest(quantum, Top(prompt, cap), t);
    }
    FloorIsGreatest(quantum, Top(prompt, cap), 0);
    LeastCommonMultiple(alignment, chunk, g, x, y, best);
    span := if span >= least then span else 0;
  }

  /** The smallest whole alignment covering at least 256 tokens. */
  function AlignedChunkTokens(alignment: nat): (chunk: nat)
    requires alignment > 0
    ensures Divides(alignment, chunk) && 256 <= chunk < 256 + alignment
  {
    CeilDivFacts(256, alignment);
    Multiple(alignment, CeilDiv(256, alignment));
    var chunk := CeilDiv(256, alignment) * alignment;
    assert (CeilDiv(256, alignment) - 1) * alignment == chunk - alignment;
    chunk
  }

  // ---- the layout's alignment ----

  /** `n` is a whole number of pages for each of the first `k` page-indexed groups. */
  ghost predicate PageAligned(layout: Layout, k: nat, n: int)
    requires layout.Wf() && k <= |layout.groups|
  {
    forall i :: 0 <= i < k && !layout.groups[i].policy.Circular? ==> Divides(layout.groups[i].tokensPerPage, n)
  }

  /** The least common multiple of the page widths; circular groups, whose one
      page is scratch, do not constrain it. */
  method AlignmentTokens(layout: Layout) returns (alignment: nat)
    requires layout.Wf()
    ensures alignment > 0
    ensures forall n :: Divides(alignment, n) <==> PageAligned(layout, |layout.groups|, n)
  {
    alignment := 1;
    var k := 0;
    forall n ensures Divides(1, n) {
      Multiple(1, n);
    }
    while k < |layout.groups|
      invariant 0 <= k <= |layout.groups| && alignment > 0
      invariant forall n :: Divides(alignment, n) <==> PageAligned(layout, k, n)
    {
      var g := layout.groups[k];
      if !g.policy.Circular? {
        alignment := NextAlignment(alignment, g.tokensPerPage);
      }
      k := k + 1;
    }
  }

  method NextAlignment(a: nat, width: nat) returns (next: nat)
    requires a > 0 && width > 0
    ensures next > 0 && forall n :: Divides(next, n) <==> Divides(a, n) && Divides(width, n)
  {
    var d, x, y := Gcd(a, width);
    next := a * width / d;
    forall n ensures Divides(next, n) <==> Divides(a, n) && Divides(width, n) {
      LeastCommonMultiple(a, width, d, x, y, n);
    }
    LeastCommonMultiple(a, width, d, x, y, 0);
  }

  /** Every positive multiple of the chunk width is a legal span for every
      group, and sliding groups keep the tokens their window can reach. */
  lemma ChunkMultiplesAreLegal(layout: Layout, alignment: nat, n: int, i: nat)
    requires layout.Wf() && alignment > 0 && i < |layout.groups|
    requires forall m :: Divides(alignment, m) <==> PageAligned(layout, |layout.groups|, m)
    requires n > 0 && Divides(AlignedChunkTokens(alignment), n)
    ensures var g := layout.groups[i];
      && SelectedPageCount(g, n).Some?
      && (g.policy.Sliding? ==>
            var pages := SelectedPageCount(g, n).value;
            (pages - 1) * g.tokensPerPage < Min(n, g.policy.window - 1) <= pages * g.tokensPerPage)
  {
    var chunk := AlignedChunkTokens(alignment);
    var q := DividesBy(chunk, n);
    DividesSum(alignment, chunk, 0, q);
    assert Divides(alignment, n);
    assert PageAligned(layout, |layout.groups|, n);
    var g := layout.groups[i];
    if !g.policy.Circular? { assert Divides(g.tokensPerPage, n); }
    if g.policy.Sliding? { SlidingCoverage(g, n); }
  }
}
