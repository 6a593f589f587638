/** Which restores the scheduler admits, and how many at a time. */
module Admission {
  import opened Collections
  import opened Boundaries

  const MAX_PENDING_RESTORES: nat := 2

  type Request = nat
  type Key = nat

  /** A prefix key with the span it stands for. */
  datatype Candidate = Candidate(span: int, key: Key)

  /** What the catalog answers at one moment: the pairs that have quorum, and the
      spans at which a key's boundary state has it. */
  datatype Quorums = Quorums(data: set<(Key, int)>, state: set<(Key, int)>, stateful: bool) {
    predicate Has(c: Candidate) { (c.key, c.span) in data }

    predicate HasBoundary(c: Candidate) { !stateful || (c.key, c.span) in state }
  }

  /** An admitted load, and what it was admitted on. */
  datatype Load = Load(key: Key, span: int, external: int)

  datatype Grounds = Grounds(computed: int, prompt: int, candidates: seq<Candidate>, at: nat, quorums: Quorums)

  /** The candidates are the keys of the spans `chunk`, `2 * chunk`, and so on. */
  ghost predicate Consecutive(candidates: seq<Candidate>, chunk: nat) {
    candidates == [] ||
    (var n := |candidates|; candidates[n - 1].span == n * chunk && Consecutive(candidates[..n - 1], chunk))
  }

  lemma {:induction false} ConsecutiveSpan(candidates: seq<Candidate>, chunk: nat, i: nat)
    requires Consecutive(candidates, chunk) && i < |candidates|
    ensures candidates[i].span == (i + 1) * chunk
  {
    if i < |candidates| - 1 { ConsecutiveSpan(candidates[..|candidates| - 1], chunk, i); }
  }

  /** The load is one of its candidates; it and every shorter candidate had
      quorum, its boundary state too, and it ends strictly inside the prompt. */
  ghost predicate Justified(l: Load, g: Grounds, chunk: nat) {
    && 0 <= g.computed < l.span < g.prompt && l.external == l.span - g.computed
    && Consecutive(g.candidates, chunk) && g.at < |g.candidates| && g.candidates[g.at] == Candidate(l.span, l.key)
    && (forall i :: 0 <= i <= g.at ==> g.quorums.Has(g.candidates[i]))
    && g.quorums.HasBoundary(g.candidates[g.at])
  }

  predicate Eligible(c: Candidate, first: int, alignment: nat, quorums: Quorums)
    requires alignment > 0
  {
    c.span >= first && c.span % alignment == 0 && quorums.HasBoundary(c)
  }

  ghost predicate Covered(candidates: seq<Candidate>, n: int, quorums: Quorums) {
    0 <= n < |candidates| && forall j :: 0 <= j <= n ==> quorums.Has(candidates[j])
  }

  /** The last eligible candidate below the first one without quorum, if any. */
  ghost predicate Longest(candidates: seq<Candidate>, first: int, alignment: nat, quorums: Quorums, selected: Option<nat>)
    requires alignment > 0
  {
    && (selected.Some? ==>
          Covered(candidates, selected.value, quorums) && Eligible(candidates[selected.value], first, alignment, quorums))
    && forall i :: Covered(candidates, i, quorums) && (selected.Some? ==> i > selected.value) ==>
         !Eligible(candidates[i], first, alignment, quorums)
  }

  ghost function Unjustified(loads: map<Request, Load>, grounds: map<Request, Grounds>, chunk: nat): set<Request> {
    set r | r in loads && !(r in grounds && Justified(loads[r], grounds[r], chunk))
  }

  /** Each load is justified by what its lookup was asked and answered. */
  ghost predicate AllJustified(loads: map<Request, Load>, grounds: map<Request, Grounds>, chunk: nat) {
    Unjustified(loads, grounds, chunk) == {}
  }

  lemma JustifiedLoad(loads: map<Request, Load>, grounds: map<Request, Grounds>, chunk: nat, r: Request)
    requires AllJustified(loads, grounds, chunk) && r in loads
    ensures r in grounds && Justified(loads[r], grounds[r], chunk)
  {
    assert r !in Unjustified(loads, grounds, chunk);
  }

  /** Every candidate up to `n` has quorum, and so has the state at `n`. */
  ghost predicate Usable(candidates: seq<Candidate>, n: int, quorums: Quorums) {
    Covered(candidates, n, quorums) && quorums.HasBoundary(candidates[n])
  }

  /** No usable prefix of the prompt goes beyond what is computed already. */
  ghost predicate NothingToLoad(candidates: seq<Candidate>, quorums: Quorums, prompt: nat, computed: int) {
    forall m :: Usable(candidates, m, quorums) && candidates[m].span < prompt ==> candidates[m].span <= computed
  }

  class Scheduler {
    const chunk: nat
    const alignment: nat
    var needLoad: map<Request, Load>
    var pendingLoads: map<Request, Load>
    /** The arguments and answers of the lookup that admitted each load. */
    ghost var needGrounds: map<Request, Grounds>
    ghost var pendingGrounds: map<Request, Grounds>

    function Active(): set<Request>
      reads this
    {
      needLoad.Keys + pendingLoads.Keys
    }

    ghost predicate Valid()
      reads this
    {
      && chunk > 0 && alignment > 0 && Divides(alignment, chunk)
      && |Active()| <= MAX_PENDING_RESTORES
      && AllJustified(needLoad, needGrounds, chunk) && AllJustified(pendingLoads, pendingGrounds, chunk)
    }

    /** The restore budget has no place for the request. */
    predicate Full(request: Request)
      reads this
    {
      request !in Active() && |Active()| >= MAX_PENDING_RESTORES
    }

    constructor (alignment: nat)
      requires alignment > 0
      ensures Valid() && needLoad == map[] && pendingLoads == map[]
    {
      this.alignment, chunk := alignment, AlignedChunkTokens(alignment);
      needLoad, pendingLoads := map[], map[];
      needGrounds, pendingGrounds := map[], map[];
    }

    /** The longest usable candidate below the first one without quorum. */
    method SelectPrefix(candidates: seq<Candidate>, first: int, quorums: Quorums) returns (selected: Option<nat>)
      requires alignment > 0
      ensures Longest(candidates, first, alignment, quorums, selected)
    {
      selected := None;
      var i := 0;
      while i < |candidates|
        invariant 0 <= i <= |candidates| && (selected.Some? ==> selected.value < i)
        invariant forall j :: 0 <= j < i ==> quorums.Has(candidates[j])
        invariant selected.Some? ==> Eligible(candidates[selected.value], first, alignment, quorums)
        invariant forall k :: 0 <= k < i && (selected.Some? ==> k > selected.value) ==>
          !Eligible(candidates[k], first, alignment, quorums)
      {
        if !quorums.Has(candidates[i]) {
          break;
        }
        if Eligible(candidates[i], first, alignment, quorums) {
          selected := Some(i);
        }
        i := i + 1;
      }
    }

    /** The longest prefix that leaves a token to compute, goes beyond what is
        computed already, and whose every chunk and boundary state have quorum. */
    method Lookup(prompt: nat, computed: nat, keys: seq<Key>, quorums: Quorums) returns (selected: Option<nat>)
      requires Valid() && |keys| * chunk <= prompt < (|keys| + 1) * chunk
      ensures var all := CandidatesOf(keys, chunk);
        && (selected.Some? ==> Usable(all, selected.value, quorums) && computed < all[selected.value].span < prompt)
        && (forall m :: Usable(all, m, quorums) && all[m].span < prompt && (selected.Some? ==> m > selected.value) ==>
              all[m].span <= computed)
    {
      var ceiling, best := AlignedPrefixSpan(prompt, alignment, chunk, chunk, None);
      var first := Max(chunk, (computed / chunk + 1) * chunk);
      FirstBeyond(computed, chunk);
      AllCandidates(keys, chunk, alignment, prompt, ceiling, best, first, computed);
      if ceiling < first {
        return None;
      }
      Multiple(chunk, 0);
      CeilingWithin(ceiling, chunk, |keys|, prompt);
      selected := SelectPrefix(CandidatesOf(keys, chunk)[..ceiling / chunk], first, quorums);
      if selected.Some? {
        CandidateBelow(selected.value, ceiling, chunk);
      }
      LongestInAll(CandidatesOf(keys, chunk), ceiling, chunk, alignment, prompt, first, computed, quorums, selected);
    }

    /** Looks a prompt up. `keys[i]` is the key of its first `i + 1` chunks;
        `skipped` stands for the request shapes that are never looked up, and
        `unidentified` for media without an identity. Nothing is loaded exactly
        when there is nothing to load or no place for it; otherwise the longest
        usable prefix is admitted on the arguments of this very call. */
    method GetNumNewMatchedTokens(request: Request, skipped: bool, unidentified: bool, prompt: nat, computed: int,
                                  keys: seq<Key>, quorums: Quorums)
      returns (external: int, raised: bool, ghost at: nat)
      requires Valid() && |keys| * chunk <= prompt < (|keys| + 1) * chunk
      modifies this`needLoad, this`needGrounds
      ensures Valid() && external >= 0
      ensures raised <==> !skipped && !(0 <= computed <= prompt)
      ensures external == 0 <==> skipped || raised || unidentified || old(Full(request)) ||
                                 NothingToLoad(CandidatesOf(keys, chunk), quorums, prompt, computed)
      ensures external == 0 ==> needLoad == old(needLoad) && needGrounds == old(needGrounds)
      ensures external > 0 ==>
        var all := CandidatesOf(keys, chunk);
        && at < |all| && needLoad == old(needLoad)[request := Load(all[at].key, all[at].span, external)]
        && needGrounds == old(needGrounds)[request := Grounds(computed, prompt, all, at, quorums)]
        && forall m :: Usable(all, m, quorums) && all[m].span < prompt ==> m <= at
    {
      external, raised, at := 0, !skipped && !(0 <= computed <= prompt), 0;
      if skipped || raised || unidentified {
        return;
      }
      var selected := Lookup(prompt, computed, keys, quorums);
      BeyondComputed(CandidatesOf(keys, chunk), quorums, prompt, computed, selected);
      if selected.None? || Full(request) {
        return;
      }
      at := selected.value;
      var span := (selected.value + 1) * chunk;
      external := span - computed;
      ghost var grounds := Grounds(computed, prompt, CandidatesOf(keys, chunk), at, quorums);
      var load := Load(keys[selected.value], span, external);
      FoundJustifies(keys, chunk, quorums, prompt, computed, at);
      NoneUnjustified(chunk);
      OneMoreJustified(map[], map[], chunk, request, load, grounds);
      AddOne(Active(), request);
      Admit(request, load, grounds);
    }

    method Admit(request: Request, load: Load, ghost grounds: Grounds)
      requires Valid() && |Active() + {request}| <= MAX_PENDING_RESTORES
      requires AllJustified(map[request := load], map[request := grounds], chunk)
      modifies this`needLoad, this`needGrounds
      ensures Valid() && needLoad == old(needLoad)[request := load] && needGrounds == old(needGrounds)[request := grounds]
    {
      JustifiedLoad(map[request := load], map[request := grounds], chunk, request);
      OneMoreJustified(needLoad, needGrounds, chunk, request, load, grounds);
      assert needLoad[request := load].Keys + pendingLoads.Keys == Active() + {request};
      needLoad := needLoad[request := load];
      needGrounds := needGrounds[request := grounds];
    }

    /** The allocation is for the admitted load, on pages that can be selected. */
    predicate Matches(request: Request, external: int, selectable: bool)
      reads this
    {
      request in needLoad && needLoad[request].external == external && selectable
    }

    /** The allocation follows through on the admitted load exactly when it
        matches it and its pages can be selected; otherwise the load is dropped. */
    method UpdateStateAfterAlloc(request: Request, external: int, selectable: bool) returns (raised: bool)
      requires Valid()
      modifies this`needLoad, this`pendingLoads, this`needGrounds, this`pendingGrounds
      ensures Valid()
      ensures external > 0 && old(Matches(request, external, selectable)) ==>
        && !raised && request in old(needLoad) && request in old(needGrounds)
        && needLoad == old(needLoad) - {request} && needGrounds == old(needGrounds) - {request}
        && pendingLoads == old(pendingLoads)[request := old(needLoad)[request]]
        && pendingGrounds == old(pendingGrounds)[request := old(needGrounds)[request]]
      ensures !(external > 0 && old(Matches(request, external, selectable))) ==>
        && (raised <==> external != 0) && pendingLoads == old(pendingLoads) && pendingGrounds == old(pendingGrounds)
        && (external < 0 ==> needLoad == old(needLoad) && needGrounds == old(needGrounds))
        && (external >= 0 ==> needLoad == old(needLoad) - {request} && needGrounds == old(needGrounds) - {request})
    {
      raised := external < 0;
      if raised {
        return;
      }
      if external > 0 && Matches(request, external, selectable) {
        MoveToPending(request);
      } else {
        Forget({request});
        raised := external > 0;
      }
    }

    /** An admitted load becomes pending. */
    method FollowThrough(request: Request, load: Load, ghost grounds: Grounds)
      requires Valid() && |Active() + {request}| <= MAX_PENDING_RESTORES
      requires AllJustified(map[request := load], map[request := grounds], chunk)
      modifies this`pendingLoads, this`pendingGrounds
      ensures Valid() && pendingLoads == old(pendingLoads)[request := load]
      ensures pendingGrounds == old(pendingGrounds)[request := grounds]
    {
      JustifiedLoad(map[request := load], map[request := grounds], chunk, request);
      OneMoreJustified(pendingLoads, pendingGrounds, chunk, request, load, grounds);
      assert needLoad.Keys + pendingLoads[request := load].Keys == Active() + {request};
      pendingLoads := pendingLoads[request := load];
      pendingGrounds := pendingGrounds[request := grounds];
    }

    method MoveToPending(request: Request)
      requires Valid() && request in needLoad
      modifies this`needLoad, this`pendingLoads, this`needGrounds, this`pendingGrounds
      ensures Valid() && request in old(needGrounds)
      ensures needLoad == old(needLoad) - {request} && needGrounds == old(needGrounds) - {request}
      ensures pendingLoads == old(pendingLoads)[request := old(needLoad)[request]]
      ensures pendingGrounds == old(pendingGrounds)[request := old(needGrounds)[request]]
    {
      OneJustified(needLoad, needGrounds, chunk, request);
      AddOne(Active(), request);
      FollowThrough(request, needLoad[request], needGrounds[request]);
      Forget({request});
    }

    /** Admitted loads of `gone` are dropped. */
    method Forget(gone: set<Request>)
      requires Valid()
      modifies this`needLoad, this`needGrounds
      ensures Valid() && needLoad == old(needLoad) - gone && needGrounds == old(needGrounds) - gone
      ensures pendingLoads == old(pendingLoads) && pendingGrounds == old(pendingGrounds)
    {
      SubsetSize((needLoad - gone).Keys + pendingLoads.Keys, Active());
      FewerJustified(needLoad, needGrounds, chunk, gone);
      needLoad, needGrounds := needLoad - gone, needGrounds - gone;
    }

    /** `tuple` and `clear` on the pending loads. */
    method TakePending() returns (loads: map<Request, Load>)
      requires Valid()
      modifies this`pendingLoads, this`pendingGrounds
      ensures Valid() && loads == old(pendingLoads) && |loads| <= MAX_PENDING_RESTORES && pendingLoads == map[]
      ensures AllJustified(loads, old(pendingGrounds), chunk)
    {
      loads := pendingLoads;
      SubsetSize(loads.Keys, Active());
      assert |loads| == |loads.Keys|;
      SubsetSize(needLoad.Keys, Active());
      NoneUnjustified(chunk);
      pendingLoads, pendingGrounds := map[], map[];
      assert Active() == needLoad.Keys;
    }

    /** Hands the pending loads to the workers and forgets finished requests.
        Each load had quorum at every boundary up to its span when its own
        lookup was answered. */
    method BuildConnectorMeta(finished: set<Request>) returns (loads: map<Request, Load>)
      requires Valid()
      modifies this`needLoad, this`pendingLoads, this`needGrounds, this`pendingGrounds
      ensures Valid() && loads == old(pendingLoads) && |loads| <= MAX_PENDING_RESTORES
      ensures AllJustified(loads, old(pendingGrounds), chunk)
      ensures pendingLoads == map[] && needLoad == old(needLoad) - finished && needGrounds == old(needGrounds) - finished
    {
      loads := TakePending();
      Forget(finished);
    }
  }

  lemma {:induction false} CandidatesConsecutive(keys: seq<Key>, chunk: nat)
    ensures Consecutive(CandidatesOf(keys, chunk), chunk)
  {
    if keys != [] {
      CandidatesConsecutive(keys[..|keys| - 1], chunk);
      assert CandidatesOf(keys, chunk)[..|keys| - 1] == CandidatesOf(keys[..|keys| - 1], chunk);
    }
  }

  lemma FewerJustified(loads: map<Request, Load>, grounds: map<Request, Grounds>, chunk: nat, gone: set<Request>)
    requires AllJustified(loads, grounds, chunk)
    ensures AllJustified(loads - gone, grounds - gone, chunk)
  {
    forall r | r in loads - gone ensures r !in Unjustified(loads - gone, grounds - gone, chunk) {
      JustifiedLoad(loads, grounds, chunk, r);
    }
  }

  lemma OneMoreJustified(loads: map<Request, Load>, grounds: map<Request, Grounds>, chunk: nat, r: Request, l: Load, g: Grounds)
    requires AllJustified(loads, grounds, chunk) && Justified(l, g, chunk)
    ensures AllJustified(loads[r := l], grounds[r := g], chunk)
  {
    forall q | q in loads && q != r ensures q !in Unjustified(loads[r := l], grounds[r := g], chunk) {
      JustifiedLoad(loads, grounds, chunk, q);
    }
  }

  lemma NoneUnjustified(chunk: nat)
    ensures AllJustified(map[], map[], chunk)
  {
  }

  lemma OneJustified(loads: map<Request, Load>, grounds: map<Request, Grounds>, chunk: nat, r: Request)
    requires AllJustified(loads, grounds, chunk) && r in loads
    ensures r in grounds && AllJustified(map[r := loads[r]], map[r := grounds[r]], chunk)
  {
    JustifiedLoad(loads, grounds, chunk, r);
  }

  /** The longest usable prefix justifies its load. */
  lemma FoundJustifies(keys: seq<Key>, chunk: nat, quorums: Quorums, prompt: nat, computed: nat, at: nat)
    requires Usable(CandidatesOf(keys, chunk), at, quorums) && computed < (at + 1) * chunk < prompt
    requires forall m :: Usable(CandidatesOf(keys, chunk), m, quorums) && (m + 1) * chunk < prompt && m > at ==> (m + 1) * chunk <= computed
    ensures var all, span := CandidatesOf(keys, chunk), (at + 1) * chunk;
      Justified(Load(keys[at], span, span - computed), Grounds(computed, prompt, all, at, quorums), chunk)
    ensures forall m :: Usable(CandidatesOf(keys, chunk), m, quorums) && (m + 1) * chunk < prompt ==> m <= at
  {
    CandidatesConsecutive(keys, chunk);
    forall m | Usable(CandidatesOf(keys, chunk), m, quorums) && (m + 1) * chunk < prompt ensures m <= at {
      MulMonotone(at + 1, m + 1, chunk);
    }
  }

  /** What a lookup finds goes beyond what is computed. */
  lemma BeyondComputed(all: seq<Candidate>, quorums: Quorums, prompt: nat, computed: int, selected: Option<nat>)
    requires selected.Some? ==> Usable(all, selected.value, quorums) && computed < all[selected.value].span < prompt
    requires forall m :: Usable(all, m, quorums) && all[m].span < prompt && (selected.Some? ==> m > selected.value) ==>
               all[m].span <= computed
    ensures selected.None? <==> NothingToLoad(all, quorums, prompt, computed)
  {
  }

  /** Candidates for every whole chunk. */
  function CandidatesOf(keys: seq<Key>, chunk: nat): seq<Candidate> {
    seq(|keys|, i requires 0 <= i < |keys| => Candidate((i + 1) * chunk, keys[i]))
  }

  lemma FirstBeyond(computed: int, chunk: nat)
    requires chunk > 0 && computed >= 0
    ensures (computed / chunk + 1) * chunk > computed
  {
  }

  lemma BelowFirst(m: nat, computed: nat, chunk: nat)
    requires chunk > 0 && m > 0
    ensures m * chunk < Max(chunk, (computed / chunk + 1) * chunk) ==> m * chunk <= computed
  {
    MulMonotone(computed / chunk + 1, m, chunk);
    MulMonotone(m, computed / chunk, chunk);
    MulMonotone(1, m, chunk);
  }

  /** What the spans of a lookup have to do with one candidate. */
  ghost predicate CandidateFits(c: Candidate, m: int, chunk: nat, alignment: nat, prompt: nat, ceiling: int, first: int, computed: int)
    requires chunk > 0 && alignment > 0
  {
    && c.span % alignment == 0 && (c.span < prompt ==> c.span <= ceiling)
    && (c.span < first ==> c.span <= computed) && (c.span <= ceiling ==> m < ceiling / chunk)
  }

  lemma CandidateFacts(all: seq<Candidate>, m: nat, keys: seq<Key>, chunk: nat, alignment: nat, prompt: nat, ceiling: int,
                       best: int, first: int, computed: nat)
    requires chunk > 0 && alignment > 0 && Divides(alignment, chunk) && all == CandidatesOf(keys, chunk) && m < |keys|
    requires prompt > 1 ==> GreatestCommon(best, alignment, chunk, prompt - 1) && ceiling == if best >= chunk then best else 0
    requires prompt <= 1 ==> ceiling == 0
    requires first == Max(chunk, (computed / chunk + 1) * chunk)
    ensures CandidateFits(all[m], m, chunk, alignment, prompt, ceiling, first, computed)
  {
    var span := (m + 1) * chunk;
    Multiple(chunk, m + 1);
    DividesSum(alignment, chunk, 0, m + 1);
    BelowFirst(m + 1, computed, chunk);
    MulMonotone(1, m + 1, chunk);
    assert CommonMultiple(span, alignment, chunk);
    MulMonotone(ceiling / chunk + 1, m + 1, chunk);
  }

  lemma AllCandidates(keys: seq<Key>, chunk: nat, alignment: nat, prompt: nat, ceiling: int, best: int, first: int, computed: nat)
    requires chunk > 0 && alignment > 0 && Divides(alignment, chunk)
    requires prompt > 1 ==> GreatestCommon(best, alignment, chunk, prompt - 1) && ceiling == if best >= chunk then best else 0
    requires prompt <= 1 ==> ceiling == 0
    requires first == Max(chunk, (computed / chunk + 1) * chunk)
    ensures AllFit(CandidatesOf(keys, chunk), chunk, alignment, prompt, ceiling, first, computed)
  {
    var all := CandidatesOf(keys, chunk);
    forall m | 0 <= m < |all| ensures CandidateFits(all[m], m, chunk, alignment, prompt, ceiling, first, computed) {
      CandidateFacts(all, m, keys, chunk, alignment, prompt, ceiling, best, first, computed);
    }
  }

  ghost predicate AllFit(all: seq<Candidate>, chunk: nat, alignment: nat, prompt: nat, ceiling: int, first: int, computed: nat)
    requires chunk > 0 && alignment > 0
  {
    forall m :: 0 <= m < |all| ==> CandidateFits(all[m], m, chunk, alignment, prompt, ceiling, first, computed)
  }

  /** What is longest below the ceiling is longest for the prompt. */
  lemma LongestInAll(all: seq<Candidate>, ceiling: int, chunk: nat, alignment: nat, prompt: nat, first: int, computed: nat,
                     quorums: Quorums, selected: Option<nat>)
    requires chunk > 0 && alignment > 0 && 0 <= ceiling / chunk <= |all|
    requires AllFit(all, chunk, alignment, prompt, ceiling, first, computed)
    requires Longest(all[..ceiling / chunk], first, alignment, quorums, selected)
    ensures selected.Some? ==> Usable(all, selected.value, quorums) && first <= all[selected.value].span
    ensures forall m :: Usable(all, m, quorums) && all[m].span < prompt && (selected.Some? ==> m > selected.value) ==>
              all[m].span <= computed
  {
    var candidates := all[..ceiling / chunk];
    if selected.Some? {
      assert forall j :: 0 <= j <= selected.value ==> candidates[j] == all[j];
    }
    forall m | Usable(all, m, quorums) && all[m].span < prompt && (selected.Some? ==> m > selected.value)
      ensures all[m].span <= computed
    {
      assert CandidateFits(all[m], m, chunk, alignment, prompt, ceiling, first, computed);
      assert forall j :: 0 <= j <= m ==> candidates[j] == all[j];
      assert Covered(candidates, m, quorums);
    }
  }

  lemma CeilingWithin(ceiling: int, chunk: nat, keys: nat, prompt: nat)
    requires chunk > 0 && 0 <= ceiling <= prompt < (keys + 1) * chunk && Divides(chunk, ceiling)
    ensures 0 <= ceiling / chunk <= keys && (ceiling / chunk) * chunk == ceiling
  {
    MulMonotone(keys + 1, ceiling / chunk, chunk);
  }

  lemma CandidateBelow(n: nat, ceiling: int, chunk: nat)
    requires chunk > 0 && 0 <= ceiling && n < ceiling / chunk && (ceiling / chunk) * chunk == ceiling
    ensures (n + 1) * chunk <= ceiling
  {
    MulMonotone(n + 1, ceiling / chunk, chunk);
  }

  lemma AddOne(active: set<Request>, r: Request)
    ensures |active + {r}| == |active| + if r in active then 0 else 1
  {
    if r in active { assert active + {r} == active; }
  }
}
