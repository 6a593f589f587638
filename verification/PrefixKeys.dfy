/** Exact-prefix keys: a hash chain over token chunks, with the media that
    start inside the prefix mixed in at the end. */
module PrefixKeys {
  import opened Collections

  type Octets = seq<nat>

  /** The digest function, of which nothing is assumed but what the lemmas require. */
  type Hash = Octets -> Octets

  const TWO_62: nat := 0x4000_0000_0000_0000
  const TWO_63: int := 0x8000_0000_0000_0000
  const TWO_64: nat := 0x1_0000_0000_0000_0000

  /** `spoolcache-exact-prefix/v2` and a zero byte. */
  const DOMAIN: Octets := [115, 112, 111, 111, 108, 99, 97, 99, 104, 101, 45, 101, 120, 97, 99, 116, 45, 112, 114, 101, 102,
                           105, 120, 47, 118, 50, 0]
  /** `spoolcache-multimodal-prefix/v1` and a zero byte. */
  const MULTIMODAL_DOMAIN: Octets := [115, 112, 111, 111, 108, 99, 97, 99, 104, 101, 45, 109, 117, 108, 116, 105, 109, 111,
                                      100, 97, 108, 45, 112, 114, 101, 102, 105, 120, 47, 118, 49, 0]

  datatype Feature = Feature(modality: Octets, identifier: Octets, offset: int, length: int)

  // ---- little-endian fields ----

  function Power(k: nat): nat { if k == 0 then 1 else 256 * Power(k - 1) }

  function Le(n: nat, k: nat): (s: Octets)
    ensures |s| == k
  {
    if k == 0 then [] else [n % 256] + Le(n / 256, k - 1)
  }

  function Value(s: Octets): nat {
    if s == [] then 0 else s[0] + 256 * Value(s[1..])
  }

  lemma {:induction false} LeValue(n: nat, k: nat)
    requires n < Power(k)
    ensures Value(Le(n, k)) == n
  {
    if k > 0 {
      LeValue(n / 256, k - 1);
      assert Le(n, k)[1..] == Le(n / 256, k - 1);
    }
  }

  lemma Power8()
    ensures Power(8) == TWO_64
  {
    assert Power(2) == 65536;
    assert Power(4) == 0x1_0000_0000;
    assert Power(6) == 0x1_0000_0000_0000;
  }

  function Count(n: nat): (s: Octets)
    ensures |s| == 8
  {
    Le(n, 8)
  }

  lemma CountInjective(a: nat, b: nat)
    requires a < TWO_64 && b < TWO_64 && Count(a) == Count(b)
    ensures a == b
  {
    Power8();
    LeValue(a, 8);
    LeValue(b, 8);
  }

  /** A signed 64-bit token, in two's complement. */
  function TokenBytes(t: int): (s: Octets)
    requires -TWO_63 <= t < TWO_63
    ensures |s| == 8
  {
    Count(if t < 0 then t + TWO_64 else t)
  }

  lemma TokenInjective(a: int, b: int)
    requires -TWO_63 <= a < TWO_63 && -TWO_63 <= b < TWO_63 && TokenBytes(a) == TokenBytes(b)
    ensures a == b
  {
    CountInjective(if a < 0 then a + TWO_64 else a, if b < 0 then b + TWO_64 else b);
  }

  predicate ValidTokens(tokens: seq<int>) { forall i :: 0 <= i < |tokens| ==> -TWO_63 <= tokens[i] < TWO_63 }

  function TokensBytes(tokens: seq<int>): (s: Octets)
    requires ValidTokens(tokens)
    ensures |s| == 8 * |tokens|
  {
    if tokens == [] then [] else TokenBytes(tokens[0]) + TokensBytes(tokens[1..])
  }

  lemma SplitEqual<T>(a: seq<T>, b: seq<T>, c: seq<T>, d: seq<T>)
    requires |a| == |c| && a + b == c + d
    ensures a == c && b == d
  {
    assert a == (a + b)[..|a|] && b == (a + b)[|a|..];
    assert c == (c + d)[..|c|] && d == (c + d)[|c|..];
  }

  lemma {:induction false} TokensInjective(a: seq<int>, b: seq<int>)
    requires ValidTokens(a) && ValidTokens(b) && |a| == |b| && TokensBytes(a) == TokensBytes(b)
    ensures a == b
  {
    if a != [] {
      SplitEqual(TokenBytes(a[0]), TokensBytes(a[1..]), TokenBytes(b[0]), TokensBytes(b[1..]));
      TokenInjective(a[0], b[0]);
      TokensInjective(a[1..], b[1..]);
      assert a == [a[0]] + a[1..] && b == [b[0]] + b[1..];
    }
  }

  // ---- media ----

  /** Fields that fit their 64-bit places. */
  predicate Packable(f: Feature) {
    0 <= f.offset < TWO_64 && 0 <= f.length < TWO_64 && |f.modality| < TWO_64 && |f.identifier| < TWO_64
  }

  predicate AllPackable(fs: seq<Feature>) {
    |fs| < TWO_64 && forall i :: 0 <= i < |fs| ==> Packable(fs[i])
  }

  /** A byte string behind its length. */
  function Text(t: Octets): Octets { Count(|t|) + t }

  function FeatureBytes(f: Feature): Octets
    requires Packable(f)
  {
    Count(f.offset) + (Count(f.length) + (Text(f.modality) + Text(f.identifier)))
  }

  function FeaturesBytes(fs: seq<Feature>): Octets
    requires forall i :: 0 <= i < |fs| ==> Packable(fs[i])
  {
    if fs == [] then [] else FeaturesBytes(fs[..|fs| - 1]) + FeatureBytes(fs[|fs| - 1])
  }

  /** The features that start inside the prefix. */
  function Active(fs: seq<Feature>, span: int): seq<Feature> {
    if fs == [] then [] else
      Active(fs[..|fs| - 1], span) + if fs[|fs| - 1].offset < span then [fs[|fs| - 1]] else []
  }

  function Media(active: seq<Feature>): Octets
    requires AllPackable(active)
  {
    if active == [] then [] else MULTIMODAL_DOMAIN + Count(|active|) + FeaturesBytes(active)
  }

  lemma Associate<T>(a: seq<T>, b: seq<T>, c: seq<T>)
    ensures (a + b) + c == a + (b + c)
  {
  }

  lemma FieldSplits(n: nat, x: Octets, m: nat, y: Octets)
    requires n < TWO_64 && m < TWO_64 && Count(n) + x == Count(m) + y
    ensures n == m && x == y
  {
    SplitEqual(Count(n), x, Count(m), y);
    CountInjective(n, m);
  }

  lemma TextSplits(s: Octets, x: Octets, t: Octets, y: Octets)
    requires |s| < TWO_64 && |t| < TWO_64 && Text(s) + x == Text(t) + y
    ensures s == t && x == y
  {
    Associate(Count(|s|), s, x);
    Associate(Count(|t|), t, y);
    FieldSplits(|s|, s + x, |t|, t + y);
    SplitEqual(s, x, t, y);
  }

  lemma FeatureThen(f: Feature, x: Octets)
    requires Packable(f)
    ensures FeatureBytes(f) + x == Count(f.offset) + (Count(f.length) + (Text(f.modality) + (Text(f.identifier) + x)))
  {
    var texts := Text(f.modality) + Text(f.identifier);
    Associate(Count(f.offset), Count(f.length) + texts, x);
    Associate(Count(f.length), texts, x);
    Associate(Text(f.modality), Text(f.identifier), x);
  }

  /** One feature is self-delimiting. */
  lemma FeatureSplits(f: Feature, x: Octets, g: Feature, y: Octets)
    requires Packable(f) && Packable(g) && FeatureBytes(f) + x == FeatureBytes(g) + y
    ensures f == g && x == y
  {
    FeatureThen(f, x);
    FeatureThen(g, y);
    var f2, g2 := Text(f.identifier) + x, Text(g.identifier) + y;
    var f1, g1 := Text(f.modality) + f2, Text(g.modality) + g2;
    FieldSplits(f.offset, Count(f.length) + f1, g.offset, Count(g.length) + g1);
    FieldSplits(f.length, f1, g.length, g1);
    TextSplits(f.modality, f2, g.modality, g2);
    TextSplits(f.identifier, x, g.identifier, y);
  }

  lemma {:induction false} FeaturesFront(fs: seq<Feature>)
    requires fs != [] && forall i :: 0 <= i < |fs| ==> Packable(fs[i])
    ensures FeaturesBytes(fs) == FeatureBytes(fs[0]) + FeaturesBytes(fs[1..])
  {
    var n := |fs| - 1;
    if n == 0 {
      assert fs[..0] == [] && fs[1..] == [];
    } else {
      var front, last := fs[..n], FeatureBytes(fs[n]);
      FeaturesFront(front);
      assert front[1..] == fs[1..][..n - 1] && fs[1..][n - 1] == fs[n] && front[0] == fs[0];
      FeaturesLast(fs[1..]);
      Associate(FeatureBytes(fs[0]), FeaturesBytes(front[1..]), last);
    }
  }

  lemma FeaturesLast(fs: seq<Feature>)
    requires fs != [] && forall i :: 0 <= i < |fs| ==> Packable(fs[i])
    ensures FeaturesBytes(fs) == FeaturesBytes(fs[..|fs| - 1]) + FeatureBytes(fs[|fs| - 1])
  {
  }

  lemma {:induction false} FeaturesInjective(fs: seq<Feature>, gs: seq<Feature>)
    requires |fs| == |gs| && (forall i :: 0 <= i < |fs| ==> Packable(fs[i]) && Packable(gs[i]))
    requires FeaturesBytes(fs) == FeaturesBytes(gs)
    ensures fs == gs
  {
    if fs != [] {
      FeaturesFront(fs);
      FeaturesFront(gs);
      FeatureSplits(fs[0], FeaturesBytes(fs[1..]), gs[0], FeaturesBytes(gs[1..]));
      FeaturesInjective(fs[1..], gs[1..]);
      assert fs == [fs[0]] + fs[1..] && gs == [gs[0]] + gs[1..];
    }
  }

  lemma MediaThen(a: seq<Feature>)
    requires AllPackable(a) && a != []
    ensures Media(a) == MULTIMODAL_DOMAIN + (Count(|a|) + FeaturesBytes(a)) != []
  {
    Associate(MULTIMODAL_DOMAIN, Count(|a|), FeaturesBytes(a));
  }

  lemma MediaInjective(a: seq<Feature>, b: seq<Feature>)
    requires AllPackable(a) && AllPackable(b) && Media(a) == Media(b)
    ensures a == b
  {
    if a != [] { MediaThen(a); }
    if b != [] { MediaThen(b); }
    if a != [] && b != [] {
      var x, y := Count(|a|) + FeaturesBytes(a), Count(|b|) + FeaturesBytes(b);
      SplitEqual(MULTIMODAL_DOMAIN, x, MULTIMODAL_DOMAIN, y);
      FieldSplits(|a|, FeaturesBytes(a), |b|, FeaturesBytes(b));
      FeaturesInjective(a, b);
    }
  }

  /** Named content in ordered, disjoint ranges of the prompt. */
  ghost predicate ValidFeatures(fs: seq<Feature>, count: nat) {
    && (forall i :: 0 <= i < |fs| ==>
          fs[i].modality != [] && fs[i].identifier != [] && 0 <= fs[i].offset && 0 < fs[i].length &&
          fs[i].offset + fs[i].length <= count)
    && (forall i, j :: 0 <= i < j < |fs| ==> fs[i].offset + fs[i].length <= fs[j].offset)
  }

  /** Exactly the first `n` features start before `span`. */
  ghost predicate StartsBefore(fs: seq<Feature>, n: nat, span: int) {
    && n <= |fs|
    && (forall i :: 0 <= i < n ==> fs[i].offset < span)
    && (forall i :: n <= i < |fs| ==> fs[i].offset >= span)
  }

  /** Features in order of their offsets start before a boundary up to some index. */
  lemma SplitsAtBoundary(fs: seq<Feature>, count: nat, span: int) returns (n: nat)
    requires ValidFeatures(fs, count)
    ensures StartsBefore(fs, n, span)
  {
    n := |fs|;
    while n > 0 && fs[n - 1].offset >= span
      invariant 0 <= n <= |fs| && forall i :: n <= i < |fs| ==> fs[i].offset >= span
    {
      n := n - 1;
    }
  }

  /** A feature is active as often as it occurs when it starts before the
      boundary, and otherwise not at all. */
  lemma {:induction false} ActiveAre(fs: seq<Feature>, span: int, f: Feature)
    ensures multiset(Active(fs, span))[f] == if f.offset < span then multiset(fs)[f] else 0
  {
    if fs != [] {
      ActiveAre(fs[..|fs| - 1], span, f);
      assert fs == fs[..|fs| - 1] + [fs[|fs| - 1]];
    }
  }

  /** Active features keep their order. */
  lemma {:induction false} ActivePrefix(fs: seq<Feature>, span: int, n: nat)
    requires StartsBefore(fs, n, span)
    ensures Active(fs, span) == fs[..n]
  {
    if fs != [] {
      var last := |fs| - 1;
      ActivePrefix(fs[..last], span, Min(n, last));
      if n <= last {
        assert fs[..last][..n] == fs[..n];
      } else {
        assert fs[..n] == fs[..last] + [fs[last]];
        assert fs[..last][..last] == fs[..last];
      }
    }
  }

  // ---- keys ----

  function InitialString(deployment: Octets, salt: Octets): Octets {
    DOMAIN + deployment + Count(|salt|) + salt
  }

  function ChunkBytes(chunk: seq<int>): Octets
    requires ValidTokens(chunk)
  {
    Count(|chunk|) + TokensBytes(chunk)
  }

  /** A request: what its keys depend on. */
  datatype Prompt = Prompt(deployment: Octets, salt: Octets, tokens: seq<int>, features: seq<Feature>) {
    predicate Chunked(chunk: nat, n: nat) { ValidTokens(tokens) && n * chunk <= |tokens| }

    ghost predicate Wf() {
      && |deployment| == 32 && |salt| < TWO_64 && ValidTokens(tokens)
      && |features| < TWO_64 && forall i :: 0 <= i < |features| ==> Packable(features[i])
    }
  }

  lemma ChunkBounds(n: nat, chunk: nat)
    requires n > 0
    ensures 0 <= (n - 1) * chunk <= n * chunk && n * chunk == (n - 1) * chunk + chunk
  {
  }

  /** The tokens of chunk `n`, counted from one. */
  function ChunkOf(p: Prompt, chunk: nat, n: nat): (tokens: seq<int>)
    requires n > 0 && p.Chunked(chunk, n)
    ensures |tokens| == chunk && ValidTokens(tokens)
  {
    ChunkBounds(n, chunk);
    p.tokens[(n - 1) * chunk..n * chunk]
  }

  /** What is hashed last for the digest after `n` whole chunks. */
  function ChainString(hash: Hash, p: Prompt, chunk: nat, n: nat): Octets
    requires p.Chunked(chunk, n)
  {
    if n == 0 then InitialString(p.deployment, p.salt) else
      ChunkBounds(n, chunk);
      hash(ChainString(hash, p, chunk, n - 1)) + ChunkBytes(ChunkOf(p, chunk, n))
  }

  /** The chained digest after `n` whole chunks. */
  function Chain(hash: Hash, p: Prompt, chunk: nat, n: nat): Octets
    requires p.Chunked(chunk, n)
  {
    hash(ChainString(hash, p, chunk, n))
  }

  lemma {:induction false} ActivePackable(fs: seq<Feature>, span: int)
    requires forall i :: 0 <= i < |fs| ==> Packable(fs[i])
    ensures |Active(fs, span)| <= |fs| && forall i :: 0 <= i < |Active(fs, span)| ==> Packable(Active(fs, span)[i])
  {
    if fs != [] { ActivePackable(fs[..|fs| - 1], span); }
  }

  /** The key of the first `n` chunks. */
  function KeyAt(hash: Hash, p: Prompt, chunk: nat, n: nat): Octets
    requires p.Wf() && p.Chunked(chunk, n)
  {
    ActivePackable(p.features, n * chunk);
    var text, active := Chain(hash, p, chunk, n), Active(p.features, n * chunk);
    if active == [] then text else hash(text + Media(active))
  }

  /** Everything that is hashed for the digest after `n` chunks. */
  function ChainStrings(hash: Hash, p: Prompt, chunk: nat, n: nat): set<Octets>
    requires p.Chunked(chunk, n)
  {
    {ChainString(hash, p, chunk, n)} +
    if n == 0 then {} else
      ChunkBounds(n, chunk);
      ChainStrings(hash, p, chunk, n - 1)
  }

  /** Everything that is hashed for the key of the first `n` chunks. */
  function KeyStrings(hash: Hash, p: Prompt, chunk: nat, n: nat): set<Octets>
    requires p.Wf() && p.Chunked(chunk, n)
  {
    ActivePackable(p.features, n * chunk);
    var active := Active(p.features, n * chunk);
    ChainStrings(hash, p, chunk, n) + if active == [] then {} else {Chain(hash, p, chunk, n) + Media(active)}
  }

  // ---- what is needed of the digest function ----

  ghost predicate Sized(hash: Hash) {
    forall x :: |hash(x)| == 32
  }

  /** No two of the strings share a digest. */
  ghost predicate CollisionFree(hash: Hash, strings: set<Octets>) {
    forall x, y :: x in strings && y in strings && hash(x) == hash(y) ==> x == y
  }

  /** No digest of the strings starts like a first string. */
  ghost predicate Undisguised(hash: Hash, strings: set<Octets>) {
    forall x :: x in strings ==> !(DOMAIN <= hash(x))
  }

  lemma InitialInjective(d: Octets, s: Octets, e: Octets, t: Octets)
    requires |d| == 32 && |e| == 32 && |s| < TWO_64 && |t| < TWO_64 && InitialString(d, s) == InitialString(e, t)
    ensures d == e && s == t
  {
    assert InitialString(d, s) == DOMAIN + (d + (Count(|s|) + s));
    assert InitialString(e, t) == DOMAIN + (e + (Count(|t|) + t));
    SplitEqual(DOMAIN, d + (Count(|s|) + s), DOMAIN, e + (Count(|t|) + t));
    SplitEqual(d, Count(|s|) + s, e, Count(|t|) + t);
    SplitEqual(Count(|s|), s, Count(|t|), t);
  }

  lemma InitialIsNoLink(d: Octets, s: Octets, a: Octets, x: Octets)
    requires |a| == 32 && !(DOMAIN <= a)
    ensures InitialString(d, s) != a + x
  {
    assert InitialString(d, s) == DOMAIN + (d + (Count(|s|) + s));
    assert (a + x)[..|DOMAIN|] == a[..|DOMAIN|];
  }

  /** A chunk's count can never read as the start of the media domain. */
  lemma CountIsNoDomain(n: nat, x: Octets, y: Octets)
    requires n < TWO_62
    ensures Count(n) + x != MULTIMODAL_DOMAIN + y
  {
    var head := MULTIMODAL_DOMAIN[..8];
    if Count(n) + x == MULTIMODAL_DOMAIN + y {
      assert MULTIMODAL_DOMAIN + y == head + (MULTIMODAL_DOMAIN[8..] + y);
      SplitEqual(Count(n), x, head, MULTIMODAL_DOMAIN[8..] + y);
      Power8();
      LeValue(n, 8);
      DomainValue();
      assert false;
    }
  }

  lemma DomainValue()
    ensures Value(MULTIMODAL_DOMAIN[..8]) >= TWO_62
  {
    var d := MULTIMODAL_DOMAIN[..8];
    assert d == [115, 112, 111, 111, 108, 99, 97, 99];
    assert d[7..] == [99] && Value(d[7..]) == 99 by { assert d[7..][1..] == []; }
    assert Value(d[6..]) == 97 + 256 * 99 by { assert d[6..][1..] == d[7..]; }
    assert Value(d[5..]) >= 65536 * 99 by { assert d[5..][1..] == d[6..]; }
    assert Value(d[4..]) >= 0x100_0000 * 99 by { assert d[4..][1..] == d[5..]; }
    assert Value(d[3..]) >= 0x1_0000_0000 * 99 by { assert d[3..][1..] == d[4..]; }
    assert Value(d[2..]) >= 0x100_0000_0000 * 99 by { assert d[2..][1..] == d[3..]; }
    assert Value(d[1..]) >= 0x1_0000_0000_0000 * 99 by { assert d[1..][1..] == d[2..]; }
  }

  // ---- identity ----

  lemma PrefixSplits(tokens: seq<int>, more: seq<int>, a: nat, b: nat)
    requires a <= b <= |tokens| && b <= |more|
    ensures tokens[..b] == more[..b] <==> tokens[..a] == more[..a] && tokens[a..b] == more[a..b]
  {
    assert tokens[..b] == tokens[..a] + tokens[a..b] && more[..b] == more[..a] + more[a..b];
    if tokens[..b] == more[..b] {
      SplitEqual(tokens[..a], tokens[a..b], more[..a], more[a..b]);
    }
  }

  lemma ChunkInjective(a: seq<int>, b: seq<int>)
    requires ValidTokens(a) && ValidTokens(b) && |a| == |b| && ChunkBytes(a) == ChunkBytes(b)
    ensures a == b
  {
    SplitEqual(Count(|a|), TokensBytes(a), Count(|b|), TokensBytes(b));
    TokensInjective(a, b);
  }

  lemma LinksIdentify(a: Octets, x: seq<int>, b: Octets, y: seq<int>)
    requires |a| == |b| && ValidTokens(x) && ValidTokens(y) && |x| == |y|
    ensures a + ChunkBytes(x) == b + ChunkBytes(y) <==> a == b && x == y
  {
    if a + ChunkBytes(x) == b + ChunkBytes(y) {
      SplitEqual(a, ChunkBytes(x), b, ChunkBytes(y));
      ChunkInjective(x, y);
    }
  }

  /** Everything that goes into a digest after `n` chunks. */
  ghost predicate SameText(p: Prompt, q: Prompt, chunk: nat, n: nat, m: nat)
    requires p.Chunked(chunk, n) && q.Chunked(chunk, m)
  {
    n == m && p.deployment == q.deployment && p.salt == q.salt && p.tokens[..n * chunk] == q.tokens[..m * chunk]
  }

  lemma FirstIsNotLater(hash: Hash, p: Prompt, q: Prompt, chunk: nat, m: nat, strings: set<Octets>)
    requires Sized(hash) && Undisguised(hash, strings) && q.Chunked(chunk, m) && m > 0 && ChainStrings(hash, q, chunk, m) <= strings
    ensures InitialString(p.deployment, p.salt) != ChainString(hash, q, chunk, m)
  {
    ChunkBounds(m, chunk);
    var before := ChainString(hash, q, chunk, m - 1);
    assert before in ChainStrings(hash, q, chunk, m - 1);
    InitialIsNoLink(p.deployment, p.salt, hash(before), ChunkBytes(ChunkOf(q, chunk, m)));
  }

  lemma SameDigest(hash: Hash, strings: set<Octets>, x: Octets, y: Octets)
    requires CollisionFree(hash, strings) && x in strings && y in strings
    ensures hash(x) == hash(y) <==> x == y
  {
  }

  lemma FirstsIdentify(hash: Hash, p: Prompt, q: Prompt, chunk: nat)
    requires p.Wf() && q.Wf()
    ensures ChainString(hash, p, chunk, 0) == ChainString(hash, q, chunk, 0) <==> SameText(p, q, chunk, 0, 0)
  {
    assert p.tokens[..0] == q.tokens[..0];
    if InitialString(p.deployment, p.salt) == InitialString(q.deployment, q.salt) {
      InitialInjective(p.deployment, p.salt, q.deployment, q.salt);
    }
  }

  lemma LaterIdentify(hash: Hash, p: Prompt, q: Prompt, chunk: nat, n: nat, m: nat)
    requires Sized(hash) && n > 0 && m > 0 && p.Chunked(chunk, n) && q.Chunked(chunk, m)
    ensures p.Chunked(chunk, n - 1) && q.Chunked(chunk, m - 1)
    ensures ChainString(hash, p, chunk, n) == ChainString(hash, q, chunk, m) <==>
            Chain(hash, p, chunk, n - 1) == Chain(hash, q, chunk, m - 1) && ChunkOf(p, chunk, n) == ChunkOf(q, chunk, m)
  {
    ChunkBounds(n, chunk);
    ChunkBounds(m, chunk);
    LinksIdentify(Chain(hash, p, chunk, n - 1), ChunkOf(p, chunk, n), Chain(hash, q, chunk, m - 1), ChunkOf(q, chunk, m));
  }

  lemma SameTextStep(p: Prompt, q: Prompt, chunk: nat, n: nat, m: nat)
    requires n > 0 && m > 0 && p.Chunked(chunk, n) && q.Chunked(chunk, m)
    ensures p.Chunked(chunk, n - 1) && q.Chunked(chunk, m - 1)
    ensures SameText(p, q, chunk, n, m) <==> SameText(p, q, chunk, n - 1, m - 1) && ChunkOf(p, chunk, n) == ChunkOf(q, chunk, m)
  {
    ChunkBounds(n, chunk);
    ChunkBounds(m, chunk);
    if n == m { PrefixSplits(p.tokens, q.tokens, (n - 1) * chunk, n * chunk); }
  }

  /** Chained digests are equal exactly when everything that went in is. For two
      digests of one span it is enough that the strings hashed for them do not
      collide. */
  lemma {:induction false} ChainIdentifies(hash: Hash, p: Prompt, q: Prompt, chunk: nat, n: nat, m: nat, strings: set<Octets>)
    requires Sized(hash) && CollisionFree(hash, strings) && (n == m || Undisguised(hash, strings))
    requires p.Wf() && q.Wf() && chunk > 0 && p.Chunked(chunk, n) && q.Chunked(chunk, m)
    requires ChainStrings(hash, p, chunk, n) <= strings && ChainStrings(hash, q, chunk, m) <= strings
    ensures Chain(hash, p, chunk, n) == Chain(hash, q, chunk, m) <==> SameText(p, q, chunk, n, m)
  {
    SameDigest(hash, strings, ChainString(hash, p, chunk, n), ChainString(hash, q, chunk, m));
    if n == 0 && m == 0 {
      FirstsIdentify(hash, p, q, chunk);
    } else if n == 0 {
      FirstIsNotLater(hash, p, q, chunk, m, strings);
    } else if m == 0 {
      FirstIsNotLater(hash, q, p, chunk, n, strings);
    } else {
      ChunkBounds(n, chunk);
      ChunkBounds(m, chunk);
      ChainIdentifies(hash, p, q, chunk, n - 1, m - 1, strings);
      LaterIdentify(hash, p, q, chunk, n, m);
      SameTextStep(p, q, chunk, n, m);
    }
  }

  /** A chunk's string is never a string with media mixed in. */
  lemma ChunkIsNotMedia(a: Octets, tokens: seq<int>, b: Octets, active: seq<Feature>)
    requires |a| == |b| && ValidTokens(tokens) && |tokens| < TWO_62 && AllPackable(active) && active != []
    ensures a + ChunkBytes(tokens) != b + Media(active)
  {
    MediaThen(active);
    CountIsNoDomain(|tokens|, TokensBytes(tokens), Count(|active|) + FeaturesBytes(active));
    if a + ChunkBytes(tokens) == b + Media(active) {
      SplitEqual(a, ChunkBytes(tokens), b, Media(active));
    }
  }

  /** What is hashed for a text-only digest is never what is hashed for a digest
      with media mixed in. */
  lemma TextIsNotMedia(hash: Hash, p: Prompt, chunk: nat, n: nat, other: Octets, active: seq<Feature>)
    requires Sized(hash) && |other| == 32 && (n > 0 || !(DOMAIN <= other))
    requires 0 < chunk < TWO_62 && p.Chunked(chunk, n) && AllPackable(active) && active != []
    ensures ChainString(hash, p, chunk, n) != other + Media(active)
  {
    if n == 0 {
      InitialIsNoLink(p.deployment, p.salt, other, Media(active));
    } else {
      ChunkBounds(n, chunk);
      ChunkIsNotMedia(Chain(hash, p, chunk, n - 1), ChunkOf(p, chunk, n), other, active);
    }
  }

  lemma {:induction false} NothingAtZero(fs: seq<Feature>)
    requires forall i :: 0 <= i < |fs| ==> Packable(fs[i])
    ensures Active(fs, 0) == []
  {
    if fs != [] { NothingAtZero(fs[..|fs| - 1]); }
  }

  /** A key with media mixed in is no text-only key. */
  lemma MediaOnOneSide(hash: Hash, p: Prompt, q: Prompt, chunk: nat, n: nat, m: nat, strings: set<Octets>)
    requires Sized(hash) && CollisionFree(hash, strings) && (n == m || Undisguised(hash, strings))
    requires p.Wf() && q.Wf() && 0 < chunk < TWO_62 && p.Chunked(chunk, n) && q.Chunked(chunk, m)
    requires KeyStrings(hash, p, chunk, n) + KeyStrings(hash, q, chunk, m) <= strings
    requires Active(p.features, n * chunk) == [] && Active(q.features, m * chunk) != []
    ensures KeyAt(hash, p, chunk, n) != KeyAt(hash, q, chunk, m)
  {
    ActivePackable(q.features, m * chunk);
    NothingAtZero(q.features);
    var text, active, first := Chain(hash, q, chunk, m), Active(q.features, m * chunk), ChainString(hash, q, chunk, m);
    assert first in strings && (n > 0 || !(DOMAIN <= hash(first)));
    TextIsNotMedia(hash, p, chunk, n, text, active);
    SameDigest(hash, strings, ChainString(hash, p, chunk, n), text + Media(active));
  }

  lemma MediaOnBothSides(hash: Hash, x: Octets, a: seq<Feature>, y: Octets, b: seq<Feature>, strings: set<Octets>)
    requires |x| == |y| && CollisionFree(hash, strings) && AllPackable(a) && AllPackable(b)
    requires x + Media(a) in strings && y + Media(b) in strings
    ensures hash(x + Media(a)) == hash(y + Media(b)) <==> x == y && a == b
  {
    if hash(x + Media(a)) == hash(y + Media(b)) {
      SplitEqual(x, Media(a), y, Media(b));
      MediaInjective(a, b);
    }
  }

  lemma ActiveIdentifies(hash: Hash, p: Prompt, q: Prompt, chunk: nat, n: nat, m: nat)
    requires p.Wf() && q.Wf() && 0 < chunk < TWO_62 && p.Chunked(chunk, n) && q.Chunked(chunk, m) && Sized(hash)
    requires CollisionFree(hash, KeyStrings(hash, p, chunk, n) + KeyStrings(hash, q, chunk, m))
    requires n == m || Undisguised(hash, KeyStrings(hash, p, chunk, n) + KeyStrings(hash, q, chunk, m))
    ensures KeyAt(hash, p, chunk, n) == KeyAt(hash, q, chunk, m) <==>
            SameText(p, q, chunk, n, m) && Active(p.features, n * chunk) == Active(q.features, m * chunk)
  {
    var strings := KeyStrings(hash, p, chunk, n) + KeyStrings(hash, q, chunk, m);
    ActivePackable(p.features, n * chunk);
    ActivePackable(q.features, m * chunk);
    var a, b := Active(p.features, n * chunk), Active(q.features, m * chunk);
    ChainIdentifies(hash, p, q, chunk, n, m, strings);
    if a == [] && b != [] {
      MediaOnOneSide(hash, p, q, chunk, n, m, strings);
    } else if a != [] && b == [] {
      MediaOnOneSide(hash, q, p, chunk, m, n, strings);
    } else if a != [] && b != [] {
      MediaOnBothSides(hash, Chain(hash, p, chunk, n), a, Chain(hash, q, chunk, m), b, strings);
    }
  }

  /** Exact-prefix identity, for any digest function: when the strings hashed for
      two keys do not collide, the keys are equal if and only if they are keys of
      the same span, deployment, salt, tokens up to the span, and the same media
      among that which starts before the span, the first `a` and `b` features.
      Keys of different spans also need that no digest starts like a first
      string. */
  lemma KeyIdentifies(hash: Hash, p: Prompt, q: Prompt, chunk: nat, n: nat, m: nat) returns (a: nat, b: nat)
    requires p.Wf() && q.Wf() && 0 < chunk < TWO_62 && p.Chunked(chunk, n) && q.Chunked(chunk, m) && Sized(hash)
    requires ValidFeatures(p.features, |p.tokens|) && ValidFeatures(q.features, |q.tokens|)
    requires CollisionFree(hash, KeyStrings(hash, p, chunk, n) + KeyStrings(hash, q, chunk, m))
    requires n == m || Undisguised(hash, KeyStrings(hash, p, chunk, n) + KeyStrings(hash, q, chunk, m))
    ensures StartsBefore(p.features, a, n * chunk) && StartsBefore(q.features, b, m * chunk)
    ensures KeyAt(hash, p, chunk, n) == KeyAt(hash, q, chunk, m) <==>
            SameText(p, q, chunk, n, m) && p.features[..a] == q.features[..b]
  {
    a := SplitsAtBoundary(p.features, |p.tokens|, n * chunk);
    b := SplitsAtBoundary(q.features, |q.tokens|, m * chunk);
    ActivePrefix(p.features, n * chunk, a);
    ActivePrefix(q.features, m * chunk, b);
    ActiveIdentifies(hash, p, q, chunk, n, m);
  }

  // ---- the loops ----

  method ValidateFeatures(fs: seq<Feature>, count: nat) returns (ok: bool)
    ensures ok <==> ValidFeatures(fs, count)
  {
    var end, i := 0, 0;
    while i < |fs|
      invariant 0 <= i <= |fs| && 0 <= end && ValidFeatures(fs[..i], count)
      invariant end == if i == 0 then 0 else fs[i - 1].offset + fs[i - 1].length
      invariant forall j :: 0 <= j < i ==> fs[j].offset + fs[j].length <= end
    {
      var f := fs[i];
      if f.modality == [] || f.identifier == [] || f.offset < 0 || f.length <= 0 {
        return false;
      }
      if f.offset < end || f.offset + f.length > count {
        assert i > 0 ==> 0 <= i - 1 < i < |fs|;
        return false;
      }
      end := f.offset + f.length;
      i := i + 1;
    }
    assert fs[..i] == fs;
    ok := true;
  }

  /** Encodes the features that start before the boundary. */
  method MultimodalPayload(fs: seq<Feature>, span: int) returns (encoded: Octets)
    requires |fs| < TWO_64 && forall i :: 0 <= i < |fs| ==> Packable(fs[i])
    ensures AllPackable(Active(fs, span)) && encoded == Media(Active(fs, span))
    ensures forall n: nat :: StartsBefore(fs, n, span) ==> AllPackable(fs[..n]) && encoded == Media(fs[..n])
  {
    ActivePackable(fs, span);
    forall n: nat | StartsBefore(fs, n, span) ensures Active(fs, span) == fs[..n] {
      ActivePrefix(fs, span, n);
    }
    var active := Active(fs, span);
    if active == [] {
      return [];
    }
    encoded := MULTIMODAL_DOMAIN + Count(|active|);
    var i := 0;
    while i < |active|
      invariant 0 <= i <= |active|
      invariant encoded == MULTIMODAL_DOMAIN + Count(|active|) + FeaturesBytes(active[..i])
    {
      assert active[..i + 1][..i] == active[..i];
      Associate(MULTIMODAL_DOMAIN + Count(|active|), FeaturesBytes(active[..i]), FeatureBytes(active[i]));
      encoded := encoded + FeatureBytes(active[i]);
      i := i + 1;
    }
    assert active[..i] == active;
  }

  datatype PrefixDigest = PrefixDigest(span: nat, digest: Octets)

  /** The keys of the requested boundaries among the first `n` chunks. */
  function Keys(hash: Hash, p: Prompt, chunk: nat, requested: set<int>, n: nat): seq<PrefixDigest>
    requires p.Wf() && p.Chunked(chunk, n)
  {
    if n == 0 then [] else
      ChunkBounds(n, chunk);
      Keys(hash, p, chunk, requested, n - 1) +
        if n * chunk in requested then [PrefixDigest(n * chunk, KeyAt(hash, p, chunk, n))] else []
  }

  lemma KeysStep(hash: Hash, p: Prompt, chunk: nat, requested: set<int>, n: nat)
    requires n > 0 && p.Wf() && p.Chunked(chunk, n)
    ensures p.Chunked(chunk, n - 1)
    ensures Keys(hash, p, chunk, requested, n) == Keys(hash, p, chunk, requested, n - 1) +
            if n * chunk in requested then [PrefixDigest(n * chunk, KeyAt(hash, p, chunk, n))] else []
  {
    ChunkBounds(n, chunk);
  }

  /** Each requested whole boundary has its key. */
  lemma {:induction false} KeyListed(hash: Hash, p: Prompt, chunk: nat, requested: set<int>, n: nat, m: nat)
    requires p.Wf() && p.Chunked(chunk, n) && 0 < m <= n && m * chunk in requested
    ensures p.Chunked(chunk, m) && PrefixDigest(m * chunk, KeyAt(hash, p, chunk, m)) in Keys(hash, p, chunk, requested, n)
  {
    KeysStep(hash, p, chunk, requested, n);
    if m < n { KeyListed(hash, p, chunk, requested, n - 1, m); }
  }

  /** There is no other key, and the keys come in order of their spans. */
  lemma {:induction false} KeyIsRequested(hash: Hash, p: Prompt, chunk: nat, requested: set<int>, n: nat, i: nat) returns (m: nat)
    requires p.Wf() && chunk > 0 && p.Chunked(chunk, n) && i < |Keys(hash, p, chunk, requested, n)|
    ensures 0 < m <= n && p.Chunked(chunk, m) && m * chunk in requested
    ensures Keys(hash, p, chunk, requested, n)[i] == PrefixDigest(m * chunk, KeyAt(hash, p, chunk, m))
    ensures forall j :: i < j < |Keys(hash, p, chunk, requested, n)| ==> m * chunk < Keys(hash, p, chunk, requested, n)[j].span
  {
    KeysStep(hash, p, chunk, requested, n);
    var before := Keys(hash, p, chunk, requested, n - 1);
    if i < |before| {
      m := KeyIsRequested(hash, p, chunk, requested, n - 1, i);
      MulMonotone(m + 1, n, chunk);
      assert (m + 1) * chunk == m * chunk + chunk;
    } else {
      m := n;
    }
  }

  ghost predicate ValidBoundaries(requested: set<int>, chunk: nat, count: nat)
    requires chunk > 0
  {
    forall b :: b in requested ==> 0 < b <= count && b % chunk == 0
  }

  /** Every whole boundary up to the end of the tokens. */
  function AllBoundaries(chunk: nat, count: nat): set<int>
    requires chunk > 0
  {
    set b | 0 < b <= count && b % chunk == 0 :: b
  }

  /** Hashes the chunks in order and yields a key at each requested boundary. */
  method PrefixDigests(hash: Hash, p: Prompt, chunk: int, boundaries: Option<set<int>>) returns (ok: bool, keys: seq<PrefixDigest>)
    requires |p.deployment| == 32 && |p.salt| < TWO_64
    requires |p.features| < TWO_64 && forall i :: 0 <= i < |p.features| ==> Packable(p.features[i])
    ensures ok <==> 0 < chunk && ValidTokens(p.tokens) && ValidFeatures(p.features, |p.tokens|) &&
                    (boundaries.Some? ==> ValidBoundaries(boundaries.value, chunk, |p.tokens|))
    ensures ok ==> WholeChunks(|p.tokens|, chunk) * chunk <= |p.tokens|
    ensures ok ==> keys == Keys(hash, p, chunk, if boundaries.Some? then boundaries.value else AllBoundaries(chunk, |p.tokens|),
                                WholeChunks(|p.tokens|, chunk))
  {
    keys, ok := [], 0 < chunk && ValidTokens(p.tokens);
    if !ok {
      return;
    }
    var requested := if boundaries.Some? then boundaries.value else AllBoundaries(chunk, |p.tokens|);
    ok := forall b :: b in requested ==> 0 < b <= |p.tokens| && b % chunk == 0;
    if !ok {
      return;
    }
    ok := ValidateFeatures(p.features, |p.tokens|);
    if !ok {
      return;
    }
    var previous, n := hash(InitialString(p.deployment, p.salt)), 0;
    WholeChunksBound(|p.tokens|, chunk);
    while n < WholeChunks(|p.tokens|, chunk)
      invariant 0 <= n <= WholeChunks(|p.tokens|, chunk) && n * chunk <= |p.tokens|
      invariant previous == Chain(hash, p, chunk, n)
      invariant keys == Keys(hash, p, chunk, requested, n)
    {
      ChunkBounds(n + 1, chunk);
      ChunkFits(n, WholeChunks(|p.tokens|, chunk), chunk);
      previous := hash(previous + ChunkBytes(ChunkOf(p, chunk, n + 1)));
      n := n + 1;
      if n * chunk in requested {
        var media := MultimodalPayload(p.features, n * chunk);
        if Active(p.features, n * chunk) != [] { MediaThen(Active(p.features, n * chunk)); }
        keys := keys + [PrefixDigest(n * chunk, if media != [] then hash(previous + media) else previous)];
      }
    }
  }

  function WholeChunks(count: nat, chunk: nat): nat
    requires chunk > 0
  {
    count / chunk
  }

  lemma WholeChunksBound(count: nat, chunk: nat)
    requires chunk > 0
    ensures WholeChunks(count, chunk) * chunk <= count
  {
  }

  lemma ChunkFits(n: nat, whole: nat, chunk: nat)
    requires n < whole
    ensures (n + 1) * chunk <= whole * chunk
  {
  }
}
