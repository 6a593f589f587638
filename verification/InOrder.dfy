/** In-order delivery: what the catalog shows, the worker held. */
module InOrder {
  import opened Collections
  import opened Inventory
  import opened Reporter
  import opened ReporterHistory
  import opened Catalog
  import opened CatalogSteps
  import opened Snapshots
  import opened Network
  import opened NetworkRuns

  // ---- the order in which packets were sent ----

  ghost predicate Births(lives: map<Identity, Life>) {
    && (forall a :: a in lives ==> lives[a].birth < |lives|)
    && (forall a, b :: a in lives && b in lives && lives[a].birth == lives[b].birth ==> a == b)
  }

  /** `x` was sent no later than `y` by the same or an earlier process. */
  ghost predicate Precedes(x: Sent, y: Sent, lives: map<Identity, Life>) {
    && x.id in lives && y.id in lives && lives[x.id].birth <= lives[y.id].birth
    && (x.id == y.id ==> x.sequence <= y.sequence)
  }

  ghost predicate LogOrder(ch: Channel) {
    && Births(ch.lives)
    && ch.worker.id in ch.lives && ch.lives[ch.worker.id].birth == |ch.lives| - 1
    && (forall i, j :: 0 <= i <= j < |ch.sent| ==> Precedes(ch.sent[i], ch.sent[j], ch.lives))
    && (forall i :: 0 <= i < |ch.sent| && ch.sent[i].id == ch.worker.id ==> ch.sent[i].sequence <= ch.worker.sequence)
  }

  /** The rank's generation is that of the last packet, unless it is withdrawn
      as conflicting; earlier generations were born before. */
  ghost predicate Follows(s: RankState, x: Sent, lives: map<Identity, Life>) {
    && x.id in lives && s.generation.Some? && s.generation.value in lives
    && lives[s.generation.value].birth <= lives[x.id].birth
    && (s.generation.value != x.id ==> s.conflict)
    && (s.generation.value == x.id ==> s.sequence <= x.sequence)
    && forall p :: p in s.past ==> p in lives && lives[p].birth < lives[s.generation.value].birth
  }

  /** The image is what the sender of `x` held when it sent `x`. */
  ghost predicate Shows(s: RankState, x: Sent) {
    !s.desync ==> s.generation == Some(x.id) && s.sequence == x.sequence && SubMap(s.image.at, x.held)
  }

  ghost predicate InStep(ch: Channel, s: RankState) {
    && LogOrder(ch) && -1 <= ch.last < |ch.sent|
    && if ch.last == -1 then s == NoRecord else Follows(s, ch.sent[ch.last], ch.lives) && Shows(s, ch.sent[ch.last])
  }

  // ---- delivery ----

  lemma FollowsConflict(s: RankState, y: Sent, x: Sent, lives: map<Identity, Life>)
    requires Births(lives) && Follows(s, y, lives) && Precedes(y, x, lives) && !Listens(s, x.id)
    ensures Follows(Ignored(s, x.id), x, lives) && Shows(Ignored(s, x.id), x)
  {
  }

  lemma FollowsListened(s: RankState, t: RankState, y: Sent, x: Sent, lives: map<Identity, Life>)
    requires Births(lives) && Follows(s, y, lives) && Precedes(y, x, lives)
    requires Listens(s, x.id) && CaughtUp(s, t, x) && 0 <= x.sequence
    ensures Follows(t, x, lives) && t.sequence <= x.sequence
  {
    forall p | p in t.past ensures p in lives && lives[p].birth < lives[x.id].birth {
      assert p in s.past || (s.generation == Some(p) && p != x.id);
    }
  }

  lemma FollowsFirst(t: RankState, x: Sent, lives: map<Identity, Life>)
    requires CaughtUp(NoRecord, t, x) && 0 <= x.sequence && x.id in lives
    ensures Follows(t, x, lives) && t.sequence <= x.sequence
  {
  }

  /** The packet's image was held, and the record shows part of such an image. */
  ghost predicate Pictured(x: Sent, t: RankState, lives: map<Identity, Life>) {
    && x.id in lives && x.sequence in lives[x.id].images && SubMap(lives[x.id].images[x.sequence], x.held)
    && (t.generation == Some(x.id) && !t.desync ==>
          t.sequence in lives[x.id].images && SubMap(t.image.at, lives[x.id].images[t.sequence]))
  }

  /** Delivered in order, a packet keeps the rank in step. */
  lemma Reacted(ch: Channel, s: RankState, t: RankState, i: nat)
    requires InStep(ch, s) && ch.last <= i < |ch.sent| && 0 <= ch.sent[i].sequence
    requires Pictured(ch.sent[i], t, ch.lives) && Reacts(s, t, ch.sent[i])
    ensures InStep(ch.(last := i), t)
  {
    var x := ch.sent[i];
    if ch.last == -1 {
      FollowsFirst(t, x, ch.lives);
    } else if Listens(s, x.id) {
      FollowsListened(s, t, ch.sent[ch.last], x, ch.lives);
    } else {
      FollowsConflict(s, ch.sent[ch.last], x, ch.lives);
    }
  }

  /** A packet in order leaves the rank withdrawn or exactly at the packet. */
  lemma DeliveredInOrder(v: View, r: Rank, ch: Channel, i: nat, batch: nat)
    requires batch > 0 && Wf(v) && r in v.ranks && ch.last <= i < |ch.sent| && 0 <= ch.sent[i].sequence
    requires RankFits(v.ranks[r], ch.lives, batch) && SentFits(ch.sent[i], r, ch.lives, batch)
    requires InStep(ch, v.ranks[r])
    ensures r in Delivered(v, r, ch.sent[i]).ranks
    ensures InStep(ch.(last := i), Delivered(v, r, ch.sent[i]).ranks[r])
  {
    DeliveredStep(v, r, ch.sent[i], ch.lives, batch);
    Reacted(ch, v.ranks[r], Delivered(v, r, ch.sent[i]).ranks[r], i);
  }

  // ---- sending ----

  lemma AppendedOrder(ch: Channel, lives: map<Identity, Life>, x: Sent)
    requires forall i, j :: 0 <= i <= j < |ch.sent| ==> Precedes(ch.sent[i], ch.sent[j], lives)
    requires forall i :: 0 <= i < |ch.sent| ==> Precedes(ch.sent[i], x, lives)
    requires x.id in lives
    ensures var sent := ch.sent + [x];
      forall i, j :: 0 <= i <= j < |sent| ==> Precedes(sent[i], sent[j], lives)
  {
    var sent := ch.sent + [x];
    forall i, j | 0 <= i <= j < |sent| ensures Precedes(sent[i], sent[j], lives) {
      if j < |ch.sent| {
        assert Precedes(ch.sent[i], ch.sent[j], lives);
      } else if i < |ch.sent| {
        assert Precedes(ch.sent[i], x, lives);
      }
    }
  }

  /** The same processes, with possibly more observed images. */
  ghost predicate SameBirths(a: map<Identity, Life>, b: map<Identity, Life>) {
    forall id :: id in a ==> id in b && b[id].birth == a[id].birth
  }

  lemma SameOrder(sent: seq<Sent>, a: map<Identity, Life>, b: map<Identity, Life>)
    requires SameBirths(a, b)
    requires forall i, j :: 0 <= i <= j < |sent| ==> Precedes(sent[i], sent[j], a)
    ensures forall i, j :: 0 <= i <= j < |sent| ==> Precedes(sent[i], sent[j], b)
  {
    forall i, j | 0 <= i <= j < |sent| ensures Precedes(sent[i], sent[j], b) {
      assert Precedes(sent[i], sent[j], a);
    }
  }

  lemma EmittedOrder(ch: Channel, batch: nat)
    requires batch > 0 && LogOrder(ch) && Reporter.AfterReport(ch.worker, batch).sequence >= ch.worker.sequence
    requires NextReport(ch.worker, batch).checkpoint.sequence == Reporter.AfterReport(ch.worker, batch).sequence
    ensures LogOrder(Emitted(ch, batch)) && SameBirths(ch.lives, Emitted(ch, batch).lives)
  {
    var e := Emitted(ch, batch);
    assert e.lives.Keys == ch.lives.Keys;
    assert |e.lives| == |e.lives.Keys| && |ch.lives| == |ch.lives.Keys|;
    SameOrder(ch.sent, ch.lives, e.lives);
    var x := e.sent[|ch.sent|];
    forall i | 0 <= i < |ch.sent| ensures Precedes(ch.sent[i], x, e.lives) {
      assert Precedes(ch.sent[i], ch.sent[i], e.lives);
    }
    AppendedOrder(ch, e.lives, x);
  }

  lemma RestartedOrder(ch: Channel, id: Identity, stored: Store)
    requires ch.worker.bounds.Wf() && LogOrder(ch) && id !in ch.lives
    ensures LogOrder(Restarted(ch, id, stored)) && SameBirths(ch.lives, Restarted(ch, id, stored).lives)
  {
    var e := Restarted(ch, id, stored);
    BootedIs(ch.worker.rank, id, ch.worker.bounds, stored);
    assert e.lives.Keys == ch.lives.Keys + {id};
    assert |e.lives| == |e.lives.Keys| && |ch.lives| == |ch.lives.Keys|;
    SameOrder(ch.sent, ch.lives, e.lives);
    var x := e.sent[|ch.sent|];
    forall i | 0 <= i < |ch.sent| ensures Precedes(ch.sent[i], x, e.lives) && ch.sent[i].id != id {
      assert Precedes(ch.sent[i], ch.sent[i], ch.lives);
    }
    AppendedOrder(ch, e.lives, x);
  }

  lemma SameBirthsInStep(ch: Channel, e: Channel, s: RankState)
    requires InStep(ch, s) && LogOrder(e) && SameBirths(ch.lives, e.lives) && e.last == ch.last
    requires ch.sent <= e.sent
    ensures InStep(e, s)
  {
  }

  lemma MutatedInStep(ch: Channel, s: RankState, m: Mutation)
    requires ch.worker.bounds.Wf() && InStep(ch, s)
    ensures InStep(ch.(worker := Changed(ch.worker, m)), s)
  {
    assert LogOrder(ch.(worker := Changed(ch.worker, m)));
  }

  lemma EmittedInStep(ch: Channel, s: RankState, r: Rank, batch: nat)
    requires batch > 0 && WorkerFits(ch.worker, r, ch.lives, batch) && InStep(ch, s)
    ensures InStep(Emitted(ch, batch), s)
  {
    ReportKeepsInv(ch.worker, batch, ch.lives[ch.worker.id].images);
    SettledKeepsInv(ch.worker, batch, ch.lives[ch.worker.id].images);
    EmittedOrder(ch, batch);
    SameBirthsInStep(ch, Emitted(ch, batch), s);
  }

  lemma SentInStep(ch: Channel, s: RankState, r: Rank, batch: nat, step: Step)
    requires batch > 0 && ChannelFits(ch, s, r, batch) && CanMove(ch, batch, step) && !step.Deliver? && InStep(ch, s)
    ensures InStep(Moved(ch, batch, step), s)
  {
    match step
    case Mutate(_, m) => MutatedInStep(ch, s, m);
    case Emit(_) => EmittedInStep(ch, s, r, batch);
    case Restart(_, id, stored) =>
      RestartedOrder(ch, id, stored);
      SameBirthsInStep(ch, Restarted(ch, id, stored), s);
  }

  // ---- whole runs ----

  /** Packets may be lost or repeated, but a rank's packets never overtake. */
  ghost predicate Ordered(sys: System, step: Step)
    requires Enabled(sys, step)
  {
    step.Deliver? ==> step.i >= sys.channels[step.r].last
  }

  ghost predicate OrderedMoves(states: seq<System>, steps: seq<Step>, m: nat) {
    && m < |states| && m <= |steps|
    && (m > 0 ==> OrderedMoves(states, steps, m - 1) && Enabled(states[m - 1], steps[m - 1]) && Ordered(states[m - 1], steps[m - 1]))
  }

  ghost predicate OrderedRun(states: seq<System>, steps: seq<Step>) {
    Run(states, steps) && OrderedMoves(states, steps, |steps|)
  }

  ghost predicate AllInStep(channels: map<Rank, Channel>, ranks: map<Rank, RankState>) {
    ranks.Keys == channels.Keys && forall r :: r in channels ==> InStep(channels[r], ranks[r])
  }

  lemma ShrunkInStep(ch: Channel, s: RankState, t: RankState)
    requires InStep(ch, s) && Shrunk(s, t) && (s.image == EmptyDict ==> t.image == EmptyDict)
    ensures InStep(ch, t)
  {
  }

  lemma StartsInStep(ch: Channel, r: Rank, batch: nat)
    requires Starts(ch, r, batch)
    ensures InStep(ch, NoRecord)
  {
    var stored :| ch.worker == Booted(r, ch.worker.id, ch.worker.bounds, stored);
    BootedIs(r, ch.worker.id, ch.worker.bounds, stored);
    assert |ch.lives| == |ch.lives.Keys| == 1 by { assert ch.lives.Keys == {ch.worker.id}; }
  }

  lemma InitialInStep(sys: System)
    requires Starting(sys)
    ensures AllInStep(sys.channels, sys.view.ranks)
  {
    forall r | r in sys.channels ensures InStep(sys.channels[r], sys.view.ranks[r]) {
      StartsInStep(sys.channels[r], r, sys.batch);
    }
  }

  lemma SentNonNegative(ch: Channel, s: RankState, r: Rank, batch: nat, i: nat)
    requires batch > 0 && ChannelFits(ch, s, r, batch) && i < |ch.sent|
    ensures 0 <= ch.sent[i].sequence && SentFits(ch.sent[i], r, ch.lives, batch)
  {
    assert SentFits(ch.sent[i], r, ch.lives, batch);
  }

  lemma OtherRank(v: View, w: View, r: Rank, q: Rank)
    requires OnlyRank(v, w, r) && Wf(v) && Wf(w) && q in v.ranks && q != r
    ensures q in w.ranks && Shrunk(v.ranks[q], w.ranks[q])
    ensures v.ranks[q].image == EmptyDict ==> w.ranks[q].image == EmptyDict
  {
    assert WfRank(w.ranks[q]);
    if v.ranks[q].image == EmptyDict {
      NoKeys(w.ranks[q].image);
    }
  }

  lemma NoKeys(d: Dict)
    requires d.Wf() && d.at == map[]
    ensures d == EmptyDict
  {
    DistinctSize(d.keys);
  }

  lemma InStepAre(channels: map<Rank, Channel>, ranks: map<Rank, RankState>, r: Rank, ch: Channel)
    requires ranks.Keys == channels.Keys && r in channels && InStep(ch, ranks[r])
    requires forall q :: q in channels && q != r ==> InStep(channels[q], ranks[q])
    ensures AllInStep(channels[r := ch], ranks)
  {
  }

  lemma InStepAfter(channels: map<Rank, Channel>, v: View, w: View, r: Rank, ch: Channel)
    requires AllInStep(channels, v.ranks) && OnlyRank(v, w, r) && Wf(v) && Wf(w)
    requires r in channels && InStep(ch, w.ranks[r])
    ensures AllInStep(channels[r := ch], w.ranks)
  {
    forall q | q in channels && q != r ensures InStep(channels[q], w.ranks[q]) {
      OtherRank(v, w, r, q);
      ShrunkInStep(channels[q], v.ranks[q], w.ranks[q]);
    }
    InStepAre(channels, w.ranks, r, ch);
  }

  lemma MoveInStep(v: View, r: Rank, ch: Channel, batch: nat, step: Step)
    requires batch > 0 && Wf(v) && r in v.ranks && ChannelFits(ch, v.ranks[r], r, batch) && InStep(ch, v.ranks[r])
    requires CanMove(ch, batch, step) && step.r == r && (step.Deliver? ==> step.i >= ch.last)
    ensures var w := if step.Deliver? then Delivered(v, r, ch.sent[step.i]) else v;
      Wf(w) && OnlyRank(v, w, r) && InStep(Moved(ch, batch, step), w.ranks[r])
  {
    if step.Deliver? {
      SentNonNegative(ch, v.ranks[r], r, batch, step.i);
      DeliveredWf(v, r, ch.sent[step.i]);
      DeliveredInOrder(v, r, ch, step.i, batch);
    } else {
      SameView(v, r);
      SentInStep(ch, v.ranks[r], r, batch, step);
    }
  }

  lemma StepInStep(sys: System, step: Step)
    requires SystemInv(sys) && AllInStep(sys.channels, sys.view.ranks) && Enabled(sys, step) && Ordered(sys, step)
    ensures AllInStep(After(sys, step).channels, After(sys, step).view.ranks)
  {
    var r, ch := step.r, sys.channels[step.r];
    FitsAt(sys, r);
    MoveInStep(sys.view, r, ch, sys.batch, step);
    InStepAfter(sys.channels, sys.view, ViewAfter(sys, step), r, Moved(ch, sys.batch, step));
  }

  lemma {:induction false} OrderedAt(states: seq<System>, steps: seq<Step>, m: nat, k: nat)
    requires OrderedMoves(states, steps, m) && k <= m
    ensures OrderedMoves(states, steps, k)
  {
    if k < m { OrderedAt(states, steps, m - 1, k); }
  }

  lemma {:induction false} MovesInStep(states: seq<System>, steps: seq<Step>, k: nat)
    requires Moves(states, steps, k) && OrderedMoves(states, steps, k) && Starting(states[0])
    ensures AllInStep(states[k].channels, states[k].view.ranks)
  {
    if k == 0 {
      InitialInStep(states[0]);
    } else {
      MovesInStep(states, steps, k - 1);
      MovesInv(states, steps, k - 1);
      StepInStep(states[k - 1], steps[k - 1]);
    }
  }

  lemma RunInStep(states: seq<System>, steps: seq<Step>, k: nat)
    requires OrderedRun(states, steps) && k < |states|
    ensures SystemInv(states[k]) && AllInStep(states[k].channels, states[k].view.ranks)
  {
    RunInv(states, steps, k);
    MovesAt(states, steps, |steps|, k);
    OrderedAt(states, steps, |steps|, k);
    MovesInStep(states, steps, k);
  }

  /** In every run in which no rank's packets overtake one another, a
      synchronized rank shows exactly the sequence of its last delivered packet,
      and every entry it shows was held when that packet was sent. */
  lemma SynchronizedIsHeld(states: seq<System>, steps: seq<Step>, k: nat, r: Rank)
    requires OrderedRun(states, steps) && k < |states| && r in states[k].channels
    ensures r in states[k].view.ranks
    ensures var s, ch := states[k].view.ranks[r], states[k].channels[r];
      s.desync || (0 <= ch.last < |ch.sent| && Shows(s, ch.sent[ch.last]))
  {
    RunInStep(states, steps, k);
    assert InStep(states[k].channels[r], states[k].view.ranks[r]);
  }

  /** No ghosts: a key with quorum was held, with that span, by every rank when
      it sent the last packet that reached the scheduler. */
  lemma NoGhosts(states: seq<System>, steps: seq<Step>, k: nat, key: Key, span: int, r: Rank)
    requires OrderedRun(states, steps) && k < |states|
    requires Quorum(ImagesOf(states[k].view), key, span) && r in states[k].channels
    ensures var ch := states[k].channels[r];
      0 <= ch.last < |ch.sent| && key in ch.sent[ch.last].held && ch.sent[ch.last].held[key] == span
  {
    SynchronizedIsHeld(states, steps, k, r);
    RunInStep(states, steps, k);
    var s := states[k].view.ranks[r];
    assert ImagesOf(states[k].view)[r] == s.image && WfRank(s);
  }
}
