/** In every run, a synchronized rank whose packets arrive once each and in order
    stays synchronized until its worker leaves a gap. */
module FollowingRuns {
  import opened Collections
  import opened Inventory
  import opened Reporter
  import opened ReporterHistory
  import opened ReporterProgress
  import opened Catalog
  import opened CatalogSteps
  import opened Snapshots
  import opened Network
  import opened NetworkRuns
  import opened Convergence
  import opened Following
  import Generations

  // ---- the sequence numbers of consecutive packets ----

  /** After a packet of the same process comes a report that repeats its number,
      follows it by one delta, or skips a number. */
  predicate Linked(y: Sent, x: Sent) {
    y.id == x.id ==>
      && x.packet.Update? && x.packet.report.checkpoint.sequence == x.sequence
      && (x.sequence > y.sequence + 1 || Succeeds(y.sequence, x.packet.report.delta, x.packet.report.checkpoint))
  }

  ghost predicate Chained(ch: Channel) {
    && ch.sent != [] && ch.sent[|ch.sent| - 1].id == ch.worker.id && ch.sent[|ch.sent| - 1].sequence == ch.worker.sequence
    && forall i :: 0 < i < |ch.sent| ==> Linked(ch.sent[i - 1], ch.sent[i])
  }

  lemma ReportSucceeds(s: ReporterState, batch: nat, hist: History)
    requires Inv(s, batch, hist)
    ensures var rep := NextReport(s, batch);
      && rep.checkpoint.sequence == Reporter.AfterReport(s, batch).sequence
      && (rep.checkpoint.sequence > s.sequence + 1 || Succeeds(s.sequence, rep.delta, rep.checkpoint))
  {
    ReportKeepsInv(s, batch, hist);
    if Reporter.Mutated(s) && Within(s, batch) {
      FirstReportOf(s, batch);
    }
  }

  lemma LinkedMore(sent: seq<Sent>, x: Sent)
    requires sent != [] && Linked(sent[|sent| - 1], x)
    requires forall i :: 0 < i < |sent| ==> Linked(sent[i - 1], sent[i])
    ensures forall i :: 0 < i < |sent + [x]| ==> Linked((sent + [x])[i - 1], (sent + [x])[i])
  {
  }

  lemma EmittedChained(ch: Channel, s: RankState, r: Rank, batch: nat)
    requires batch > 0 && ChannelFits(ch, s, r, batch) && Chained(ch)
    ensures Chained(Emitted(ch, batch))
  {
    ReportSucceeds(ch.worker, batch, ch.lives[ch.worker.id].images);
    LinkedMore(ch.sent, Emitted(ch, batch).sent[|ch.sent|]);
  }

  lemma RestartedChained(ch: Channel, s: RankState, r: Rank, batch: nat, id: Identity, stored: Store)
    requires batch > 0 && ChannelFits(ch, s, r, batch) && Chained(ch) && id !in ch.lives
    ensures Chained(Restarted(ch, id, stored))
  {
    BootedIs(ch.worker.rank, id, ch.worker.bounds, stored);
    assert SentFits(ch.sent[|ch.sent| - 1], r, ch.lives, batch);
    LinkedMore(ch.sent, Restarted(ch, id, stored).sent[|ch.sent|]);
  }

  lemma MutatedChained(ch: Channel, m: Mutation)
    requires ch.worker.bounds.Wf() && Chained(ch)
    ensures Chained(ch.(worker := Changed(ch.worker, m)))
  {
  }

  lemma MovedChained(ch: Channel, s: RankState, r: Rank, batch: nat, step: Step)
    requires batch > 0 && ChannelFits(ch, s, r, batch) && CanMove(ch, batch, step) && Chained(ch)
    ensures Chained(Moved(ch, batch, step))
  {
    match step
    case Mutate(_, m) => MutatedChained(ch, m);
    case Emit(_) => EmittedChained(ch, s, r, batch);
    case Restart(_, id, stored) => RestartedChained(ch, s, r, batch, id, stored);
    case Deliver(_, _) =>
  }

  lemma StartsChained(ch: Channel, r: Rank, batch: nat)
    requires Starts(ch, r, batch)
    ensures Chained(ch)
  {
    var stored :| ch.worker == Booted(r, ch.worker.id, ch.worker.bounds, stored);
    BootedIs(r, ch.worker.id, ch.worker.bounds, stored);
  }

  lemma StepChained(sys: System, step: Step, r: Rank)
    requires SystemInv(sys) && Enabled(sys, step) && r in sys.channels && Chained(sys.channels[r])
    ensures r in After(sys, step).channels && Chained(After(sys, step).channels[r])
  {
    OneChannelMoves(sys, step, r);
    FitsAt(sys, r);
    if step.r == r { MovedChained(sys.channels[r], sys.view.ranks[r], r, sys.batch, step); }
  }

  lemma {:induction false} RunChained(states: seq<System>, steps: seq<Step>, k: nat, r: Rank)
    requires Moves(states, steps, k) && Starting(states[0]) && r in states[0].channels
    ensures r in states[k].channels && Chained(states[k].channels[r])
  {
    if k == 0 {
      StartsChained(states[0].channels[r], r, states[0].batch);
    } else {
      RunChained(states, steps, k - 1, r);
      MovesInv(states, steps, k - 1);
      StepChained(states[k - 1], steps[k - 1], r);
    }
  }

  // ---- deliveries one by one ----

  /** The record is synchronized at the last packet that was delivered. */
  ghost predicate StandsAtLast(s: RankState, ch: Channel) {
    0 <= ch.last < |ch.sent| && Synced(s, ch.sent[ch.last].id, ch.sent[ch.last].sequence)
  }

  /** A delivery to rank `r` is of the next packet, a valid report of the same
      process, and leaves no gap. */
  ghost predicate OneByOne(sys: System, step: Step, r: Rank) {
    step.r == r && step.Deliver? && r in sys.channels ==>
      var ch := sys.channels[r];
      && step.i == ch.last + 1 < |ch.sent| && 0 <= ch.last && sys.view.bounds.Wf()
      && var y, x := ch.sent[ch.last], ch.sent[step.i];
         x.id == y.id && x.sequence <= y.sequence + 1 && x.packet.Update? && ValidReport(x.packet.report, sys.view.bounds)
  }

  lemma NextFollowed(sys: System, r: Rank, i: nat)
    requires SystemInv(sys) && Enabled(sys, Deliver(r, i)) && OneByOne(sys, Deliver(r, i), r)
    requires StandsAtLast(sys.view.ranks[r], sys.channels[r]) && Chained(sys.channels[r])
    ensures var ch, w := sys.channels[r], After(sys, Deliver(r, i)).view;
      r in w.ranks && Synced(w.ranks[r], ch.sent[i].id, ch.sent[i].sequence)
  {
    var ch := sys.channels[r];
    FitsAt(sys, r);
    assert SentFits(ch.sent[i], r, ch.lives, sys.batch) && Linked(ch.sent[i - 1], ch.sent[i]);
    ReportFollowed(sys.view, ch.sent[i].packet.report, ch.lives[ch.sent[i].id].images, sys.batch);
  }

  lemma LastStays(ch: Channel, batch: nat, step: Step, s: RankState)
    requires CanMove(ch, batch, step) && !step.Deliver? && StandsAtLast(s, ch)
    ensures StandsAtLast(s, Moved(ch, batch, step))
  {
  }

  lemma OthersLeaveSync(sys: System, step: Step, r: Rank)
    requires SystemInv(sys) && Enabled(sys, step) && step.r != r && r in sys.channels && r in sys.view.ranks
    requires StandsAtLast(sys.view.ranks[r], sys.channels[r])
    ensures r in After(sys, step).view.ranks && StandsAtLast(After(sys, step).view.ranks[r], sys.channels[r])
  {
    if step.Deliver? {
      FitsAt(sys, step.r);
      DeliveredWf(sys.view, step.r, sys.channels[step.r].sent[step.i]);
    }
  }

  lemma OneByOneStep(sys: System, step: Step, r: Rank)
    requires SystemInv(sys) && Enabled(sys, step) && r in sys.channels && r in sys.view.ranks && OneByOne(sys, step, r)
    requires Chained(sys.channels[r]) && StandsAtLast(sys.view.ranks[r], sys.channels[r])
    ensures r in After(sys, step).channels && r in After(sys, step).view.ranks
    ensures StandsAtLast(After(sys, step).view.ranks[r], After(sys, step).channels[r])
  {
    OneChannelMoves(sys, step, r);
    if step.r != r {
      OthersLeaveSync(sys, step, r);
    } else if step.Deliver? {
      NextFollowed(sys, r, step.i);
    } else {
      LastStays(sys.channels[r], sys.batch, step, sys.view.ranks[r]);
    }
  }

  ghost predicate AllOneByOne(states: seq<System>, steps: seq<Step>, r: Rank, at: nat, to: nat) {
    forall i :: at <= i < to && i < |states| && i < |steps| ==> OneByOne(states[i], steps[i], r)
  }

  lemma {:induction false} RanksStay(states: seq<System>, steps: seq<Step>, k: nat, r: Rank)
    requires Moves(states, steps, k) && r in states[k].channels
    ensures r in states[0].channels
  {
    if k > 0 { RanksStay(states, steps, k - 1, r); }
  }

  /** In every run: from a moment at which a rank is synchronized at its last
      packet, as long as its worker's reports arrive once each and in order and
      leave no gap, the rank is never withdrawn. It always stands at the last
      packet, whatever happens to the other ranks and however full the catalog
      is. */
  lemma {:induction false} NeverWithdrawn(states: seq<System>, steps: seq<Step>, r: Rank, at: nat, to: nat)
    requires Run(states, steps) && at <= to < |states| && AllOneByOne(states, steps, r, at, to)
    requires r in states[at].channels && r in states[at].view.ranks && StandsAtLast(states[at].view.ranks[r], states[at].channels[r])
    ensures r in states[to].channels && r in states[to].view.ranks
    ensures StandsAtLast(states[to].view.ranks[r], states[to].channels[r])
  {
    if at < to {
      NeverWithdrawn(states, steps, r, at, to - 1);
      RunInv(states, steps, to - 1);
      RunAt(states, steps, to - 1);
      MovesAt(states, steps, |steps|, to - 1);
      RanksStay(states, steps, to - 1, r);
      RunChained(states, steps, to - 1, r);
      OneByOneStep(states[to - 1], steps[to - 1], r);
    }
  }

  // ---- the whole inventory ----

  /** The record shows all of the image that its process observed. */
  ghost predicate ShowsAll(s: RankState, ch: Channel) {
    && StandsAtLast(s, ch)
    && var x := ch.sent[ch.last];
       x.id in ch.lives && x.sequence in ch.lives[x.id].images && s.image.at == ch.lives[x.id].images[x.sequence]
  }

  /** Other ranks' packets evict nothing of rank `r`. */
  ghost predicate Undisturbed(sys: System, step: Step, r: Rank) {
    step.r != r && Enabled(sys, step) && r in sys.view.ranks ==>
      r in After(sys, step).view.ranks && After(sys, step).view.ranks[r] == sys.view.ranks[r]
  }

  lemma NextShown(sys: System, r: Rank, i: nat)
    requires SystemInv(sys) && Enabled(sys, Deliver(r, i)) && OneByOne(sys, Deliver(r, i), r)
    requires ShowsAll(sys.view.ranks[r], sys.channels[r]) && Chained(sys.channels[r])
    ensures var ch, w := sys.channels[r], After(sys, Deliver(r, i)).view;
      r in w.ranks && ShowsAll(w.ranks[r], ch.(last := i))
  {
    var ch := sys.channels[r];
    FitsAt(sys, r);
    assert SentFits(ch.sent[i], r, ch.lives, sys.batch) && Linked(ch.sent[i - 1], ch.sent[i]);
    var rep, images := ch.sent[i].packet.report, ch.lives[ch.sent[i].id].images;
    ReportFollowed(sys.view, rep, images, sys.batch);
    ReportExact(sys.view, rep, images, sys.batch);
  }

  lemma ImageStays(ch: Channel, s: RankState, r: Rank, batch: nat, step: Step)
    requires batch > 0 && ChannelFits(ch, s, r, batch) && CanMove(ch, batch, step) && !step.Deliver? && ShowsAll(s, ch)
    ensures ShowsAll(s, Moved(ch, batch, step))
  {
    LastStays(ch, batch, step, s);
    if step.Emit? {
      NewDeltaFits(ch.worker, batch, ch.lives[ch.worker.id].images);
    }
  }

  lemma ShownStep(sys: System, step: Step, r: Rank)
    requires SystemInv(sys) && Enabled(sys, step) && r in sys.channels && r in sys.view.ranks
    requires OneByOne(sys, step, r) && Undisturbed(sys, step, r)
    requires Chained(sys.channels[r]) && ShowsAll(sys.view.ranks[r], sys.channels[r])
    ensures r in After(sys, step).channels && r in After(sys, step).view.ranks
    ensures ShowsAll(After(sys, step).view.ranks[r], After(sys, step).channels[r])
  {
    OneChannelMoves(sys, step, r);
    FitsAt(sys, r);
    if step.r == r && step.Deliver? {
      NextShown(sys, r, step.i);
    } else if step.r == r {
      ImageStays(sys.channels[r], sys.view.ranks[r], r, sys.batch, step);
    }
  }

  ghost predicate AllUndisturbed(states: seq<System>, steps: seq<Step>, r: Rank, at: nat, to: nat) {
    forall i :: at <= i < to && i < |states| && i < |steps| ==> Undisturbed(states[i], steps[i], r)
  }

  /** While nothing is evicted for other ranks, it shows at every moment all that
      its worker had advertised with the last packet. */
  lemma {:induction false} ShowsEverything(states: seq<System>, steps: seq<Step>, r: Rank, at: nat, to: nat)
    requires Run(states, steps) && at <= to < |states|
    requires AllOneByOne(states, steps, r, at, to) && AllUndisturbed(states, steps, r, at, to)
    requires r in states[at].channels && r in states[at].view.ranks && ShowsAll(states[at].view.ranks[r], states[at].channels[r])
    ensures r in states[to].channels && r in states[to].view.ranks
    ensures ShowsAll(states[to].view.ranks[r], states[to].channels[r])
  {
    if at < to {
      ShowsEverything(states, steps, r, at, to - 1);
      RunInv(states, steps, to - 1);
      RunAt(states, steps, to - 1);
      MovesAt(states, steps, |steps|, to - 1);
      RanksStay(states, steps, to - 1, r);
      RunChained(states, steps, to - 1, r);
      ShownStep(states[to - 1], steps[to - 1], r);
    }
  }

  /** A handshake of a superseding process, taken from the network, starts it. */
  lemma GreetingStarts(sys: System, r: Rank, i: nat)
    requires SystemInv(sys) && Enabled(sys, Deliver(r, i)) && sys.channels[r].sent[i].packet.Handshake?
    requires Generations.Supersedes(sys.view.ranks[r], sys.channels[r].sent[i].id)
    requires AcceptableStartup(sys.channels[r].sent[i].packet.entries, sys.view.bounds)
    ensures var next := After(sys, Deliver(r, i));
      r in next.channels && r in next.view.ranks && StandsAtLast(next.view.ranks[r], next.channels[r])
  {
    var ch := sys.channels[r];
    FitsAt(sys, r);
    assert SentFits(ch.sent[i], r, ch.lives, sys.batch);
    SortedIsListing(ch.lives[ch.sent[i].id].images[0]);
    GreetingSynchronizes(sys.view, r, ch.sent[i].id, ch.sent[i].packet.entries);
  }
}
