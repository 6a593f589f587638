/** Convergence in whole runs of the network. */
module ConvergenceRuns {
  import opened Collections
  import opened Inventory
  import opened Reporter
  import opened ReporterHistory
  import Catalog
  import opened CatalogSteps
  import opened Snapshots
  import opened Network
  import opened NetworkRuns
  import opened Convergence

  datatype Turn = Other | Emission | Arrival | Wrong

  /** What a step from `a` to `b` is to rank `r`, when `sent` says that a report
      is under way: traffic of other ranks that leaves this rank's record alone,
      the worker's next report, or the delivery of the one just sent. */
  ghost function TurnOf(a: System, step: Step, b: System, r: Rank, sent: bool): Turn {
    if r !in a.channels || r !in a.view.ranks || r !in b.view.ranks then Wrong
    else
      var w := a.channels[r].worker;
      if step.r != r then (if b.view.ranks[r] == a.view.ranks[r] then Other else Wrong)
      else if step.Emit? && !sent && Countable(w) then Emission
      else if step.Deliver? && sent && step.i == |a.channels[r].sent| - 1 then Arrival
      else Wrong
  }

  /** Whether a report is under way after a turn. */
  function SentAfter(turn: Turn, sent: bool): bool { turn == Emission || (turn == Other && sent) }

  /** From state `at` to state `to` the worker of rank `r` only sends reports, and
      each is delivered before the next is sent, `n` more times. */
  ghost predicate Rounds(states: seq<System>, steps: seq<Step>, r: Rank, at: nat, to: nat, sent: bool, n: nat)
    requires at <= to < |states| && to <= |steps|
    decreases |states| - at
  {
    if at == to then n == 0 && !sent
    else
      var turn := TurnOf(states[at], steps[at], states[at + 1], r, sent);
      && turn != Wrong && (turn == Arrival ==> n > 0)
      && Rounds(states, steps, r, at + 1, to, SentAfter(turn, sent), if turn == Arrival then n - 1 else n)
  }

  /** The catalog before each delivery to rank `r`, and at the end. */
  ghost function ViewsOf(states: seq<System>, steps: seq<Step>, r: Rank, at: nat, to: nat): (views: seq<View>)
    requires at <= to < |states| && to <= |steps|
    ensures views != [] && views[|views| - 1] == states[to].view
    decreases |states| - at
  {
    if at == to then [states[to].view] else
      (if steps[at].r == r && steps[at].Deliver? then [states[at].view] else []) + ViewsOf(states, steps, r, at + 1, to)
  }

  /** The channel of a worker at rest that is about to send the report of state
      `s`, or has just sent it. */
  ghost predicate Underway(ch: Channel, s: ReporterState, batch: nat, hist: History, sent: bool) {
    && AtRest(s, batch, hist) && s.id in ch.lives && ch.lives[s.id].images == hist
    && (!sent ==> ch.worker == s)
    && (sent ==> ch.worker == AfterReport(s, batch) && ch.sent != [] && ch.sent[|ch.sent| - 1].packet == Update(NextReport(s, batch)))
  }

  lemma EmitUnderway(ch: Channel, s: ReporterState, batch: nat, hist: History)
    requires Underway(ch, s, batch, hist, false)
    ensures Underway(Emitted(ch, batch), s, batch, hist, true)
  {
    RestReport(s, batch, hist);
  }

  lemma DeliveredUnderway(ch: Channel, s: ReporterState, batch: nat, hist: History, i: int)
    requires Underway(ch, s, batch, hist, true)
    ensures Underway(ch.(last := i), AfterReport(s, batch), batch, hist, false)
  {
    RestReport(s, batch, hist);
  }

  lemma BoundsStay(sys: System, step: Step)
    requires SystemInv(sys) && Enabled(sys, step)
    ensures After(sys, step).view.bounds == sys.view.bounds && After(sys, step).batch == sys.batch
  {
    if step.Deliver? {
      DeliveredWf(sys.view, step.r, sys.channels[step.r].sent[step.i]);
    }
  }

  ghost predicate Tracked(sys: System, r: Rank, s: ReporterState, hist: History, sent: bool) {
    && r in sys.channels && r in sys.view.ranks && s.rank == r && s.bounds == sys.view.bounds
    && Underway(sys.channels[r], s, sys.batch, hist, sent)
  }

  datatype Phase = Reporting | Elsewhere

  /** Whether the system is at the report of worker state `s`. */
  ghost function PhaseOf(sys: System, r: Rank, s: ReporterState, hist: History, sent: bool): Phase {
    if SystemInv(sys) && Tracked(sys, r, s, hist, sent) && (sent ==> Countable(s)) then Reporting else Elsewhere
  }

  lemma TrackedStep(sys: System, step: Step, r: Rank, s: ReporterState, hist: History, sent: bool)
    requires SystemInv(sys) && Tracked(sys, r, s, hist, sent) && Enabled(sys, step)
    requires step.r == r ==> (step.Emit? && !sent) || (step.Deliver? && sent)
    ensures var next := After(sys, step);
      if step.r != r then Tracked(next, r, s, hist, sent)
      else if step.Emit? then Tracked(next, r, s, hist, true)
      else Tracked(next, r, AfterReport(s, sys.batch), hist, false)
  {
    OneChannelMoves(sys, step, r);
    BoundsStay(sys, step);
    StepKeepsInv(sys, step);
    FitsAt(After(sys, step), r);
    RestReport(s, sys.batch, hist);
    if step.r == r {
      if step.Emit? {
        EmitUnderway(sys.channels[r], s, sys.batch, hist);
      } else {
        DeliveredUnderway(sys.channels[r], s, sys.batch, hist, step.i);
      }
    }
  }

  lemma DeliveredHeard(sys: System, r: Rank, s: ReporterState, hist: History, i: nat)
    requires SystemInv(sys) && Tracked(sys, r, s, hist, true) && Enabled(sys, Deliver(r, i)) && i == |sys.channels[r].sent| - 1
    requires Countable(s)
    ensures Deliverable(sys.view, s, sys.batch, hist)
    ensures After(sys, Deliver(r, i)).view == Heard(sys.view, s, sys.batch)
  {
    RestReport(s, sys.batch, hist);
  }

  /** How many reports the views follow, from a rank's record on. */
  ghost function Reports(views: seq<View>, t: RankState, batch: nat, s: ReporterState, hist: History): Option<nat> {
    if views != [] && Delivery(views, s, batch, hist) && Catalog.Wf(views[0]) && s.rank in views[0].ranks && views[0].ranks[s.rank] == t
    then Some(|views| - 1) else None
  }

  lemma DeliveryCons(v: View, rest: seq<View>, s: ReporterState, batch: nat, hist: History)
    requires Deliverable(v, s, batch, hist) && rest != [] && Calm(Heard(v, s, batch), rest[0], s.rank)
    requires Delivery(rest, AfterReport(s, batch), batch, hist)
    ensures Delivery([v] + rest, s, batch, hist)
  {
    var views := [v] + rest;
    assert views[1..] == rest && views[1] == rest[0] && views[0] == v;
  }

  lemma ReportsCons(v: View, rest: seq<View>, t: RankState, batch: nat, s: ReporterState, hist: History, n: nat)
    requires Deliverable(v, s, batch, hist) && s.rank in Heard(v, s, batch).ranks && t == Heard(v, s, batch).ranks[s.rank]
    requires Reports(rest, t, batch, AfterReport(s, batch), hist) == Some(n) && AfterReport(s, batch).rank == s.rank
    ensures Reports([v] + rest, v.ranks[s.rank], batch, s, hist) == Some(n + 1)
  {
    DeliveryCons(v, rest, s, batch, hist);
    assert ([v] + rest)[0] == v;
  }

  lemma DeliverPhase(sys: System, step: Step, r: Rank, s: ReporterState, hist: History)
    requires PhaseOf(sys, r, s, hist, true) == Reporting && Enabled(sys, step)
    requires TurnOf(sys, step, After(sys, step), r, true) == Arrival
    ensures PhaseOf(After(sys, step), r, AfterReport(s, sys.batch), hist, false) == Reporting
  {
    TrackedStep(sys, step, r, s, hist, true);
    StepKeepsInv(sys, step);
  }

  lemma DeliverReports(sys: System, step: Step, r: Rank, s: ReporterState, hist: History, rest: seq<View>, n: nat)
    requires PhaseOf(sys, r, s, hist, true) == Reporting && Enabled(sys, step)
    requires TurnOf(sys, step, After(sys, step), r, true) == Arrival
    requires Reports(rest, After(sys, step).view.ranks[r], sys.batch, AfterReport(s, sys.batch), hist) == Some(n)
    ensures Reports([sys.view] + rest, sys.view.ranks[r], sys.batch, s, hist) == Some(n + 1)
  {
    DeliveredHeard(sys, r, s, hist, step.i);
    RestReport(s, sys.batch, hist);
    ReportsCons(sys.view, rest, After(sys, step).view.ranks[r], sys.batch, s, hist, n);
  }

  lemma EmitLeavesView(sys: System, step: Step)
    requires Enabled(sys, step) && step.Emit?
    ensures After(sys, step).view == sys.view
  {
  }

  lemma EmitPhase(sys: System, step: Step, r: Rank, s: ReporterState, hist: History)
    requires PhaseOf(sys, r, s, hist, false) == Reporting && Enabled(sys, step)
    requires step.r == r && step.Emit? && Countable(s)
    ensures PhaseOf(After(sys, step), r, s, hist, true) == Reporting
  {
    TrackedStep(sys, step, r, s, hist, false);
    StepKeepsInv(sys, step);
  }

  lemma EmissionCounts(a: System, step: Step, b: System, r: Rank, s: ReporterState, hist: History)
    requires PhaseOf(a, r, s, hist, false) == Reporting && TurnOf(a, step, b, r, false) == Emission
    ensures Countable(s)
  {
  }

  lemma OtherPhase(sys: System, step: Step, r: Rank, s: ReporterState, hist: History, sent: bool)
    requires PhaseOf(sys, r, s, hist, sent) == Reporting && Enabled(sys, step) && step.r != r
    ensures PhaseOf(After(sys, step), r, s, hist, sent) == Reporting
  {
    TrackedStep(sys, step, r, s, hist, sent);
    StepKeepsInv(sys, step);
  }

  lemma TurnRanks(a: System, step: Step, b: System, r: Rank, sent: bool)
    requires TurnOf(a, step, b, r, sent) != Wrong
    ensures r in a.view.ranks && r in b.view.ranks
    ensures TurnOf(a, step, b, r, sent) == Other ==> b.view.ranks[r] == a.view.ranks[r]
  {
  }

  lemma TurnRank(a: System, step: Step, b: System, r: Rank, sent: bool)
    ensures TurnOf(a, step, b, r, sent) == Other ==> step.r != r
    ensures TurnOf(a, step, b, r, sent) == Emission ==> step.r == r && step.Emit? && !sent
    ensures TurnOf(a, step, b, r, sent) == Arrival ==> step.r == r && step.Deliver? && sent
  {
  }

  lemma EndPhase(sys: System, r: Rank, s: ReporterState, hist: History)
    requires PhaseOf(sys, r, s, hist, false) == Reporting
    ensures r in sys.view.ranks && Reports([sys.view], sys.view.ranks[r], sys.batch, s, hist) == Some(0)
  {
  }

  /** Which worker state's report is next after a turn. */
  function StateAfter(turn: Turn, s: ReporterState, batch: nat): ReporterState
    requires batch > 0
  {
    if turn == Arrival then AfterReport(s, batch) else s
  }

  lemma NextPhase(states: seq<System>, steps: seq<Step>, at: nat, r: Rank, sent: bool, s: ReporterState, hist: History, turn: Turn)
    requires Moves(states, steps, at + 1) && PhaseOf(states[at], r, s, hist, sent) == Reporting && states[at].batch > 0
    requires turn == TurnOf(states[at], steps[at], states[at + 1], r, sent) && turn != Wrong
    ensures states[at + 1].batch == states[at].batch
    ensures PhaseOf(states[at + 1], r, StateAfter(turn, s, states[at].batch), hist, SentAfter(turn, sent)) == Reporting
  {
    var sys, step := states[at], steps[at];
    TurnRank(sys, step, states[at + 1], r, sent);
    match turn
    case Other => OtherPhase(sys, step, r, s, hist, sent);
    case Emission =>
      EmissionCounts(sys, step, states[at + 1], r, s, hist);
      EmitPhase(sys, step, r, s, hist);
    case Arrival => DeliverPhase(sys, step, r, s, hist);
  }

  lemma SameRecord(states: seq<System>, steps: seq<Step>, at: nat, r: Rank, sent: bool, s: ReporterState, hist: History)
    requires Moves(states, steps, at + 1) && PhaseOf(states[at], r, s, hist, sent) == Reporting
    requires TurnOf(states[at], steps[at], states[at + 1], r, sent) in {Other, Emission}
    ensures r in states[at].view.ranks && r in states[at + 1].view.ranks
    ensures states[at + 1].view.ranks[r] == states[at].view.ranks[r]
  {
    var sys, step := states[at], steps[at];
    TurnRank(sys, step, states[at + 1], r, sent);
    TurnRanks(sys, step, states[at + 1], r, sent);
    if step.r == r { EmitLeavesView(sys, step); }
  }

  lemma ArrivalReports(states: seq<System>, steps: seq<Step>, at: nat, r: Rank, s: ReporterState, hist: History, rest: seq<View>, n: nat)
    requires Moves(states, steps, at + 1) && PhaseOf(states[at], r, s, hist, true) == Reporting
    requires TurnOf(states[at], steps[at], states[at + 1], r, true) == Arrival
    requires r in states[at + 1].view.ranks
    requires Reports(rest, states[at + 1].view.ranks[r], states[at].batch, AfterReport(s, states[at].batch), hist) == Some(n)
    ensures r in states[at].view.ranks
    ensures Reports([states[at].view] + rest, states[at].view.ranks[r], states[at].batch, s, hist) == Some(n + 1)
  {
    DeliverReports(states[at], steps[at], r, s, hist, rest, n);
  }

  lemma ViewsStep(states: seq<System>, steps: seq<Step>, r: Rank, at: nat, to: nat, sent: bool, turn: Turn)
    requires at < to < |states| && to <= |steps|
    requires turn == TurnOf(states[at], steps[at], states[at + 1], r, sent) && turn != Wrong
    ensures ViewsOf(states, steps, r, at, to) ==
      if turn == Arrival then [states[at].view] + ViewsOf(states, steps, r, at + 1, to) else ViewsOf(states, steps, r, at + 1, to)
  {
    TurnRank(states[at], steps[at], states[at + 1], r, sent);
    assert [] + ViewsOf(states, steps, r, at + 1, to) == ViewsOf(states, steps, r, at + 1, to);
  }

  /** What the views follow before a turn, from what they follow after it. */
  lemma JoinReports(states: seq<System>, steps: seq<Step>, at: nat, r: Rank, sent: bool, s: ReporterState, hist: History,
                    turn: Turn, batch: nat, rest: seq<View>, views: seq<View>, n: nat)
    requires batch > 0 && Moves(states, steps, at + 1) && states[at].batch == batch
    requires PhaseOf(states[at], r, s, hist, sent) == Reporting
    requires turn == TurnOf(states[at], steps[at], states[at + 1], r, sent) && turn != Wrong && r in states[at + 1].view.ranks
    requires Reports(rest, states[at + 1].view.ranks[r], batch, StateAfter(turn, s, batch), hist) == Some(n)
    requires views == if turn == Arrival then [states[at].view] + rest else rest
    ensures r in states[at].view.ranks
    ensures Reports(views, states[at].view.ranks[r], batch, s, hist) == Some(if turn == Arrival then n + 1 else n)
  {
    if turn == Arrival {
      TurnRank(states[at], steps[at], states[at + 1], r, sent);
      ArrivalReports(states, steps, at, r, s, hist, rest, n);
    } else {
      SameRecord(states, steps, at, r, sent, s, hist);
    }
  }

  /** The views of the rounds follow one report each. */
  lemma {:induction false} RoundsFollowed(states: seq<System>, steps: seq<Step>, r: Rank, at: nat, to: nat, sent: bool, n: nat,
                                          s: ReporterState, hist: History, batch: nat)
    requires Moves(states, steps, to) && at <= to && Rounds(states, steps, r, at, to, sent, n)
    requires PhaseOf(states[at], r, s, hist, sent) == Reporting && states[at].batch == batch > 0
    ensures r in states[at].view.ranks
    ensures Reports(ViewsOf(states, steps, r, at, to), states[at].view.ranks[r], batch, s, hist) == Some(n)
    decreases |states| - at
  {
    if at == to {
      EndPhase(states[at], r, s, hist);
    } else {
      var turn := TurnOf(states[at], steps[at], states[at + 1], r, sent);
      var left := if turn == Arrival then n - 1 else n;
      MovesAt(states, steps, to, at + 1);
      NextPhase(states, steps, at, r, sent, s, hist, turn);
      RoundsFollowed(states, steps, r, at + 1, to, SentAfter(turn, sent), left, StateAfter(turn, s, batch), hist, batch);
      ViewsStep(states, steps, r, at, to, sent, turn);
      JoinReports(states, steps, at, r, sent, s, hist, turn, batch, ViewsOf(states, steps, r, at + 1, to),
                  ViewsOf(states, steps, r, at, to), left);
    }
  }

  ghost predicate Resting(sys: System, r: Rank) {
    && sys.batch > 0 && r in sys.channels && r in sys.view.ranks
    && var w := sys.channels[r].worker;
       w.held.at == w.observed && w.bounds == sys.view.bounds && Catalog.Listens(sys.view.ranks[r], w.id)
  }

  lemma RestingPhase(sys: System, r: Rank) returns (hist: History)
    requires SystemInv(sys) && Resting(sys, r)
    ensures var w := sys.channels[r].worker;
      && w.rank == r && PhaseOf(sys, r, w, hist, false) == Reporting
      && AtRest(w, sys.batch, hist) && Ready(sys.view.ranks[r], w, sys.batch, hist)
  {
    ReachableIsReady(sys, r);
    hist := sys.channels[r].lives[sys.channels[r].worker.id].images;
  }

  lemma ReportsConverge(views: seq<View>, sys: System, r: Rank, s: ReporterState, hist: History)
    requires sys.batch > 0 && s.rank == r && AtRest(s, sys.batch, hist)
    requires r in sys.view.ranks && Ready(sys.view.ranks[r], s, sys.batch, hist)
    requires views != [] && Reports(views, sys.view.ranks[r], sys.batch, s, hist) == Some(2 * Pages(s, sys.batch))
    ensures EndsConverged(views, s)
  {
    Converges(views, s, sys.batch, hist);
  }

  /** In every run: once a worker is at rest, `2 * count` of its reports, each
      delivered before the next, leave its rank synchronized on exactly what it
      holds, while anything may happen to the other ranks. */
  lemma ConvergesInRun(states: seq<System>, steps: seq<Step>, r: Rank, at: nat, to: nat)
    requires Run(states, steps) && at <= to < |states| && Resting(states[at], r)
    requires Rounds(states, steps, r, at, to, false, 2 * Pages(states[at].channels[r].worker, states[at].batch))
    ensures r in states[to].view.ranks && Converged(states[to].view.ranks[r], states[at].channels[r].worker)
  {
    var sys, w := states[at], states[at].channels[r].worker;
    RunInv(states, steps, at);
    var hist := RestingPhase(sys, r);
    MovesAt(states, steps, |steps|, to);
    RoundsFollowed(states, steps, r, at, to, false, 2 * Pages(w, sys.batch), w, hist, sys.batch);
    ReportsConverge(ViewsOf(states, steps, r, at, to), sys, r, w, hist);
  }
}
