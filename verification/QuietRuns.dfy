/** From any moment on at which a worker's inventory stops changing, its rank
    converges on it. */
module QuietRuns {
  import opened Collections
  import opened Inventory
  import opened Reporter
  import opened ReporterHistory
  import opened ReporterProgress
  import Catalog
  import opened CatalogSteps
  import opened Snapshots
  import opened Network
  import opened NetworkRuns
  import opened Convergence
  import opened ConvergenceRuns

  /** Between two moments the inventory of rank `r` is not touched. */
  ghost predicate Quiet(steps: seq<Step>, r: Rank, at: nat, to: nat) {
    forall i :: at <= i < to && i < |steps| && steps[i].r == r ==> steps[i].Emit? || steps[i].Deliver?
  }

  /** How many reports rank `r` sends between two moments. */
  function Emits(steps: seq<Step>, r: Rank, at: nat, to: nat): nat
    requires at <= to <= |steps|
  {
    if at == to then 0 else Emits(steps, r, at, to - 1) + if steps[to - 1] == Emit(r) then 1 else 0
  }

  /** Held and advertised entries of a worker. */
  datatype Stock = Stock(held: Dict, observed: map<Key, int>)

  function StockOf(w: ReporterState): Stock { Stock(w.held, w.observed) }

  /** What a worker with stock `a` has advertised after `n` reports. */
  ghost predicate Progressed(a: Stock, b: Stock, n: nat, batch: nat) {
    && b.held == a.held && (n == 0 ==> b == a)
    && (n > 0 ==> Obsolete(b.held.at, b.observed) == {})
    && |Queued(b.held.at, b.observed)| <= Left(|Queued(a.held.at, a.observed)|, n, batch)
  }

  lemma OneMoreReport(a: Stock, s: ReporterState, batch: nat, hist: History, n: nat)
    requires Inv(s, batch, hist) && Progressed(a, StockOf(s), n, batch)
    ensures Progressed(a, StockOf(AfterReport(s, batch)), n + 1, batch)
  {
    ReportDrains(s, batch, hist);
    if n > 0 { OneBatchLess(|Queued(a.held.at, a.observed)|, n, batch); }
  }

  lemma QuietStep(sys: System, step: Step, r: Rank, a: Stock, n: nat)
    requires SystemInv(sys) && Enabled(sys, step) && r in sys.channels && (step.r == r ==> step.Emit? || step.Deliver?)
    requires Progressed(a, StockOf(sys.channels[r].worker), n, sys.batch)
    ensures r in After(sys, step).channels
    ensures Progressed(a, StockOf(After(sys, step).channels[r].worker), if step == Emit(r) then n + 1 else n, sys.batch)
  {
    OneChannelMoves(sys, step, r);
    FitsAt(sys, r);
    if step == Emit(r) {
      var ch := sys.channels[r];
      OneMoreReport(a, ch.worker, sys.batch, ch.lives[ch.worker.id].images, n);
    }
  }

  lemma NoReport(a: Stock, batch: nat)
    ensures Progressed(a, a, 0, batch)
  {
  }

  lemma QuietNext(states: seq<System>, steps: seq<Step>, m: nat, r: Rank, a: Stock, n: nat, batch: nat)
    requires m > 0 && Moves(states, steps, m) && Starting(states[0]) && states[m - 1].batch == batch
    requires r in states[m - 1].channels && (steps[m - 1].r == r ==> steps[m - 1].Emit? || steps[m - 1].Deliver?)
    requires Progressed(a, StockOf(states[m - 1].channels[r].worker), n, batch)
    ensures r in states[m].channels && states[m].batch == batch
    ensures Progressed(a, StockOf(states[m].channels[r].worker), if steps[m - 1] == Emit(r) then n + 1 else n, batch)
  {
    MovesInv(states, steps, m - 1);
    QuietStep(states[m - 1], steps[m - 1], r, a, n);
  }

  lemma {:induction false} QuietProgress(states: seq<System>, steps: seq<Step>, r: Rank, at: nat, to: nat)
    requires Moves(states, steps, to) && Starting(states[0]) && at <= to && Quiet(steps, r, at, to)
    requires r in states[at].channels
    ensures r in states[to].channels && states[to].batch == states[at].batch
    ensures Progressed(StockOf(states[at].channels[r].worker), StockOf(states[to].channels[r].worker),
                       Emits(steps, r, at, to), states[at].batch)
  {
    var a := StockOf(states[at].channels[r].worker);
    if at == to {
      NoReport(a, states[at].batch);
    } else {
      QuietProgress(states, steps, r, at, to - 1);
      QuietNext(states, steps, to, r, a, Emits(steps, r, at, to - 1), states[at].batch);
    }
  }

  /** A worker whose inventory is not touched comes to rest after one report and
      one more for each batch of queued entries. */
  lemma ComesToRest(states: seq<System>, steps: seq<Step>, r: Rank, at: nat, to: nat, n: nat)
    requires Run(states, steps) && at <= to < |states| && r in states[at].channels && Quiet(steps, r, at, to)
    requires var w := states[at].channels[r].worker; n * states[at].batch >= |Queued(w.held.at, w.observed)|
    requires Emits(steps, r, at, to) > n
    ensures r in states[to].channels
    ensures var w, rested := states[at].channels[r].worker, states[to].channels[r].worker;
      rested.held == w.held && rested.observed == w.held.at
  {
    MovesAt(states, steps, |steps|, to);
    QuietProgress(states, steps, r, at, to);
    var a := StockOf(states[at].channels[r].worker);
    var b := StockOf(states[to].channels[r].worker);
    NothingLeft(|Queued(a.held.at, a.observed)|, n, Emits(steps, r, at, to), states[at].batch);
    NothingQueued(b.held.at, b.observed);
  }

  lemma RestedPages(sys: System, r: Rank)
    requires SystemInv(sys) && r in sys.channels && sys.channels[r].worker.held.at == sys.channels[r].worker.observed
    ensures var w := sys.channels[r].worker; Pages(w, sys.batch) == PageCount(|w.held.at|, sys.batch)
  {
    FitsAt(sys, r);
    SortedIsListing(sys.channels[r].worker.observed);
  }

  /** In every run, from any moment `at` after which a worker's inventory is not
      touched: it sends its queue by the moment `mid`, and then two full cycles
      of pages, each delivered before the next is sent, leave its rank
      synchronized on exactly what it held at `at`. */
  lemma ConvergesOnceQuiet(states: seq<System>, steps: seq<Step>, r: Rank, at: nat, mid: nat, to: nat, n: nat)
    requires Run(states, steps) && at <= mid <= to < |states| && r in states[at].channels && Quiet(steps, r, at, mid)
    requires var w := states[at].channels[r].worker; n * states[at].batch >= |Queued(w.held.at, w.observed)|
    requires Emits(steps, r, at, mid) > n
    requires r in states[mid].channels && r in states[mid].view.ranks && states[mid].channels[r].worker.bounds == states[mid].view.bounds
    requires Catalog.Listens(states[mid].view.ranks[r], states[mid].channels[r].worker.id)
    requires states[mid].batch > 0 &&
      Rounds(states, steps, r, mid, to, false, 2 * PageCount(|states[at].channels[r].worker.held.at|, states[mid].batch))
    ensures r in states[to].view.ranks
    ensures var t := states[to].view.ranks[r];
      !t.desync && t.image.at == states[at].channels[r].worker.held.at
  {
    ComesToRest(states, steps, r, at, mid, n);
    RunInv(states, steps, mid);
    RestedPages(states[mid], r);
    ConvergesInRun(states, steps, r, mid, to);
  }
}
