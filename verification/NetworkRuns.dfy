/** What holds in every run: consistent snapshots under any reordering, and no
    ghost entries when each rank's packets arrive in order. */
module NetworkRuns {
  import opened Collections
  import opened Inventory
  import opened Reporter
  import opened ReporterHistory
  import opened Catalog
  import opened CatalogSteps
  import opened Snapshots
  import opened Network

  /** A rank whose first worker has just called `startup`. */
  ghost predicate Starts(ch: Channel, r: Rank, batch: nat) {
    var w := ch.worker;
    && w.bounds.Wf() && 0 < batch <= w.bounds.maxReport && r < MAX_INVENTORY_REPORTS && ValidIdentity(w.id)
    && (exists stored :: w == Booted(r, w.id, w.bounds, stored))
    && ch == Channel(w, [Greeting(w)], map[w.id := Life(0, map[0 := w.held.at])], -1)
  }

  ghost predicate Starting(sys: System) {
    && sys.batch > 0 && sys.view.bounds.Wf()
    && sys.view == Unheard(sys.channels.Keys, sys.view.bounds)
    && forall r :: r in sys.channels ==> Starts(sys.channels[r], r, sys.batch)
  }

  /** Where a step leads, if it is enabled. */
  ghost function Outcome(sys: System, step: Step): Option<System> {
    if Enabled(sys, step) then Some(After(sys, step)) else None
  }

  /** Each of the first `m` steps is enabled and leads to the next state. */
  ghost predicate Moves(states: seq<System>, steps: seq<Step>, m: nat) {
    && m < |states| && m <= |steps|
    && (m > 0 ==> Moves(states, steps, m - 1) && Outcome(states[m - 1], steps[m - 1]) == Some(states[m]))
  }

  ghost predicate Run(states: seq<System>, steps: seq<Step>) {
    |states| == |steps| + 1 && Starting(states[0]) && Moves(states, steps, |steps|)
  }

  lemma {:induction false} MovesAt(states: seq<System>, steps: seq<Step>, m: nat, k: nat)
    requires Moves(states, steps, m) && k <= m
    ensures Moves(states, steps, k)
  {
    if k < m { MovesAt(states, steps, m - 1, k); }
  }

  /** One step of a run. */
  lemma RunAt(states: seq<System>, steps: seq<Step>, k: nat)
    requires Run(states, steps) && k < |steps|
    ensures Enabled(states[k], steps[k]) && states[k + 1] == After(states[k], steps[k])
  {
    MovesAt(states, steps, |steps|, k + 1);
  }

  // ---- consistent snapshots ----

  lemma StartsFits(ch: Channel, r: Rank, batch: nat)
    requires Starts(ch, r, batch)
    ensures ChannelFits(ch, NoRecord, r, batch)
  {
    var w := ch.worker;
    var stored :| w == Booted(r, w.id, w.bounds, stored);
    BootedFits(r, w.id, w.bounds, batch, stored);
  }

  lemma StartingFits(channels: map<Rank, Channel>, ranks: map<Rank, RankState>, batch: nat)
    requires batch > 0 && ranks.Keys == channels.Keys
    requires forall r :: r in channels ==> Starts(channels[r], r, batch) && ranks[r] == NoRecord
    ensures ChannelsFit(channels, ranks, batch)
  {
    forall r | r in channels ensures ChannelFits(channels[r], ranks[r], r, batch) {
      StartsFits(channels[r], r, batch);
    }
  }

  lemma InitialInv(sys: System)
    requires Starting(sys)
    ensures SystemInv(sys)
  {
    UnheardFacts(sys.channels.Keys, sys.view.bounds);
    StartingFits(sys.channels, sys.view.ranks, sys.batch);
  }

  lemma {:induction false} MovesInv(states: seq<System>, steps: seq<Step>, k: nat)
    requires Moves(states, steps, k) && Starting(states[0])
    ensures SystemInv(states[k])
  {
    if k == 0 {
      InitialInv(states[0]);
    } else {
      MovesInv(states, steps, k - 1);
      StepKeepsInv(states[k - 1], steps[k - 1]);
    }
  }

  lemma RunInv(states: seq<System>, steps: seq<Step>, k: nat)
    requires Run(states, steps) && k < |states|
    ensures SystemInv(states[k])
  {
    MovesAt(states, steps, |steps|, k);
    MovesInv(states, steps, k);
  }

  /** The image is a part of one image that this very process observed. */
  ghost predicate OneObservedImage(s: RankState, lives: map<Identity, Life>) {
    && s.generation.Some? && s.generation.value in lives
    && var images := lives[s.generation.value].images;
    && s.sequence in images && SubMap(s.image.at, images[s.sequence])
  }

  /** Pending pages are pages of one image that this very process observed. */
  ghost predicate OneObservedCheckpoint(s: RankState, lives: map<Identity, Life>, batch: nat)
    requires s.pending.Some?
  {
    && s.generation.Some? && s.generation.value in lives
    && var p, images := s.pending.value, lives[s.generation.value].images;
    && p.sequence in images && PagesFrom(p.pages, Sorted(images[p.sequence]), batch, p.count)
  }

  /** However packets are lost, repeated and reordered, across any number of
      processes, a synchronized rank never mixes two observed images. */
  lemma ConsistentSnapshots(states: seq<System>, steps: seq<Step>, k: nat, r: Rank)
    requires Run(states, steps) && k < |states| && r in states[k].channels
    ensures r in states[k].view.ranks
    ensures var s, lives := states[k].view.ranks[r], states[k].channels[r].lives;
      && (!s.desync ==> OneObservedImage(s, lives))
      && (s.desync ==> s.image == EmptyDict)
      && (s.pending.Some? && s.generation.Some? ==> OneObservedCheckpoint(s, lives, states[k].batch))
  {
    RunInv(states, steps, k);
    var sys := states[k];
    assert ChannelFits(sys.channels[r], sys.view.ranks[r], r, sys.batch) && WfRank(sys.view.ranks[r]);
  }

  lemma ReactionAdvances(s: RankState, t: RankState, x: Sent)
    requires Reacts(s, t, x) && t.generation == s.generation
    ensures t.sequence >= s.sequence
  {
  }

  /** Within one generation a rank never moves backwards. */
  lemma SequenceNeverDecreases(sys: System, step: Step, r: Rank)
    requires SystemInv(sys) && Enabled(sys, step) && r in sys.view.ranks && step.r in sys.channels
    ensures r in After(sys, step).view.ranks
    ensures After(sys, step).view.ranks[r].generation == sys.view.ranks[r].generation ==>
      After(sys, step).view.ranks[r].sequence >= sys.view.ranks[r].sequence
  {
    if step.Deliver? {
      var v, q, ch := sys.view, step.r, sys.channels[step.r];
      var x := ch.sent[step.i];
      FitsAt(sys, q);
      DeliveredStep(v, q, x, ch.lives, sys.batch);
      var w := Delivered(v, q, x);
      if w.ranks[q].generation == v.ranks[q].generation {
        ReactionAdvances(v.ranks[q], w.ranks[q], x);
      }
    }
  }

  // ---- the deliberate gap ----

  /** No image was or ever will be observed at number `q` of process `id`. */
  ghost predicate Skipped(ch: Channel, id: Identity, q: int) {
    id in ch.lives && q !in ch.lives[id].images && (id == ch.worker.id ==> q < ch.worker.sequence)
  }

  /** A report that gives up on naming its removals starts at a skipped number. */
  lemma GapSkips(ch: Channel, s: RankState, r: Rank, batch: nat)
    requires batch > 0 && ChannelFits(ch, s, r, batch)
    requires Reporter.Mutated(ch.worker) && !Within(ch.worker, batch)
    ensures NextReport(ch.worker, batch).delta == Some(NewDelta(ch.worker, batch))
    ensures Skipped(Emitted(ch, batch), ch.worker.id, NewDelta(ch.worker, batch).base)
  {
    LastPushed(Kept(ch.worker, batch), NewDelta(ch.worker, batch));
  }

  lemma EmittedSkips(ch: Channel, s: RankState, r: Rank, batch: nat, id: Identity, q: int)
    requires batch > 0 && ChannelFits(ch, s, r, batch) && Skipped(ch, id, q)
    ensures Skipped(Emitted(ch, batch), id, q)
  {
    NewDeltaFits(ch.worker, batch, ch.lives[ch.worker.id].images);
    SettledKeepsInv(ch.worker, batch, ch.lives[ch.worker.id].images);
  }

  lemma SkippedUnheard(ch: Channel, batch: nat, step: Step, id: Identity, q: int)
    requires CanMove(ch, batch, step) && Skipped(ch, id, q) && !step.Emit?
    ensures Skipped(Moved(ch, batch, step), id, q)
  {
    if step.Restart? {
      BootedIs(ch.worker.rank, step.id, ch.worker.bounds, step.stored);
    }
  }

  lemma SkippedStays(ch: Channel, s: RankState, r: Rank, batch: nat, step: Step, id: Identity, q: int)
    requires batch > 0 && ChannelFits(ch, s, r, batch) && CanMove(ch, batch, step) && Skipped(ch, id, q)
    ensures Skipped(Moved(ch, batch, step), id, q)
  {
    if step.Emit? {
      EmittedSkips(ch, s, r, batch, id, q);
    } else {
      SkippedUnheard(ch, batch, step, id, q);
    }
  }

  /** A delta whose base was skipped is never applied, whenever it arrives. */
  lemma SkippedNeverApplied(sys: System, r: Rank, d: Delta)
    requires SystemInv(sys) && r in sys.channels && r in sys.view.ranks
    requires sys.view.ranks[r].generation.Some? && Skipped(sys.channels[r], sys.view.ranks[r].generation.value, d.base)
    ensures sys.view.ranks[r].desync || !Continues(sys.view.ranks[r], d)
  {
    FitsAt(sys, r);
  }

  lemma OneChannelMoves(sys: System, step: Step, r: Rank)
    requires Enabled(sys, step) && r in sys.channels
    ensures r in After(sys, step).channels
    ensures After(sys, step).channels[r] == if step.r == r then Moved(sys.channels[r], sys.batch, step) else sys.channels[r]
  {
  }

  lemma SkippedNext(states: seq<System>, steps: seq<Step>, m: nat, r: Rank, id: Identity, q: int)
    requires m > 0 && Moves(states, steps, m) && SystemInv(states[m - 1])
    requires r in states[m - 1].channels && Skipped(states[m - 1].channels[r], id, q)
    ensures r in states[m].channels && Skipped(states[m].channels[r], id, q)
  {
    var sys, step := states[m - 1], steps[m - 1];
    OneChannelMoves(sys, step, r);
    if step.r == r {
      FitsAt(sys, r);
      SkippedStays(sys.channels[r], sys.view.ranks[r], r, sys.batch, step, id, q);
    }
  }

  lemma {:induction false} SkippedForever(states: seq<System>, steps: seq<Step>, k: nat, m: nat, r: Rank, id: Identity, q: int)
    requires Moves(states, steps, m) && Starting(states[0]) && k <= m
    requires r in states[k].channels && Skipped(states[k].channels[r], id, q)
    ensures r in states[m].channels && Skipped(states[m].channels[r], id, q)
  {
    if k < m {
      SkippedForever(states, steps, k, m - 1, r, id, q);
      MovesInv(states, steps, m - 1);
      SkippedNext(states, steps, m, r, id, q);
    }
  }

  /** In every run, a delta that gives up on naming its removals is sent and
      then never applied by the catalog, whenever and however often it arrives. */
  lemma GapNeverBridged(states: seq<System>, steps: seq<Step>, k: nat, m: nat, r: Rank)
    requires Run(states, steps) && k < m < |states| && steps[k] == Emit(r) && r in states[k].channels
    requires Reporter.Mutated(states[k].channels[r].worker) && !Within(states[k].channels[r].worker, states[k].batch)
    ensures var w, batch := states[k].channels[r].worker, states[k].batch;
      && batch > 0 && NextReport(w, batch).delta == Some(NewDelta(w, batch))
      && r in states[m].view.ranks
      && var s := states[m].view.ranks[r];
         s.generation == Some(w.id) ==> s.desync || !Continues(s, NewDelta(w, batch))
  {
    var sys, w := states[k], states[k].channels[r].worker;
    RunInv(states, steps, k);
    FitsAt(sys, r);
    GapSkips(sys.channels[r], sys.view.ranks[r], r, sys.batch);
    RunAt(states, steps, k);
    MovesAt(states, steps, |steps|, m);
    SkippedForever(states, steps, k + 1, m, r, w.id, NewDelta(w, sys.batch).base);
    RunInv(states, steps, m);
    FitsAt(states[m], r);
    if states[m].view.ranks[r].generation == Some(w.id) {
      SkippedNeverApplied(states[m], r, NewDelta(w, sys.batch));
    }
  }
}
