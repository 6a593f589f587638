/** Workers, the catalog, and a network that may lose, repeat and reorder. */
module Network {
  import opened Collections
  import opened Inventory
  import opened Reporter
  import opened ReporterHistory
  import opened Catalog
  import opened CatalogSteps
  import opened Snapshots

  datatype Packet = Handshake(entries: seq<Entry>) | Update(report: Report)

  /** A packet that was sent, and what its worker held at that moment. */
  datatype Sent = Sent(id: Identity, packet: Packet, sequence: int, held: map<Key, int>)

  /** One process: its birth order and every image it observed. */
  datatype Life = Life(birth: nat, images: History)

  /** One rank's worker, everything it ever sent, all processes that ever ran
      for the rank, and the last packet that was delivered. */
  datatype Channel = Channel(worker: ReporterState, sent: seq<Sent>, lives: map<Identity, Life>, last: int)

  datatype System = System(view: View, batch: nat, channels: map<Rank, Channel>)

  /** What a starting worker finds on disk: offers, newest first, and marked keys. */
  datatype Store = Store(offers: seq<Entry>, marked: seq<Key>)

  datatype Mutation = Replace(entries: seq<Entry>) | Add(key: Key, span: int) | Remove(key: Key)

  datatype Step = Mutate(r: Rank, m: Mutation) | Emit(r: Rank) | Restart(r: Rank, id: Identity, stored: Store)
                | Deliver(r: Rank, i: nat)

  // ---- steps ----

  function Changed(s: ReporterState, m: Mutation): ReporterState
    requires s.bounds.Wf()
  {
    match m
    case Replace(entries) => AfterReplace(s, entries)
    case Add(key, span) => AfterAdd(s, key, span)
    case Remove(key) => AfterRemove(s, key)
  }

  function RemovedAll(s: ReporterState, keys: seq<Key>): ReporterState {
    if keys == [] then s else AfterRemove(RemovedAll(s, keys[..|keys| - 1]), keys[|keys| - 1])
  }

  /** A worker process that has loaded its store, withdrawn every marked key,
      and called `startup`. */
  function Booted(rank: Rank, id: Identity, bounds: Bounds, stored: Store): ReporterState
    requires bounds.Wf()
  {
    Reporter.AfterStartup(RemovedAll(AfterReplace(Fresh(rank, id, bounds), stored.offers), stored.marked))
  }

  function Greeting(s: ReporterState): Sent {
    Sent(s.id, Handshake(s.items), 0, s.held.at)
  }

  ghost function Emitted(ch: Channel, batch: nat): Channel
    requires batch > 0 && ch.worker.id in ch.lives
  {
    var id, rep := ch.worker.id, NextReport(ch.worker, batch);
    var images := Extended(ch.lives[id].images, ch.worker, batch);
    ch.(worker := Reporter.AfterReport(ch.worker, batch),
        sent := ch.sent + [Sent(id, Update(rep), rep.checkpoint.sequence, ch.worker.held.at)],
        lives := ch.lives[id := Life(ch.lives[id].birth, images)])
  }

  function Restarted(ch: Channel, id: Identity, stored: Store): Channel
    requires ch.worker.bounds.Wf()
  {
    var w := Booted(ch.worker.rank, id, ch.worker.bounds, stored);
    ch.(worker := w, sent := ch.sent + [Greeting(w)], lives := ch.lives[id := Life(|ch.lives|, map[0 := w.held.at])])
  }

  function Delivered(v: View, r: Rank, x: Sent): View
    requires r in v.ranks && v.bounds.Wf() && (x.packet.Update? ==> x.packet.report.rank == r)
  {
    match x.packet
    case Handshake(entries) => Catalog.AfterStartup(v, r, x.id, entries)
    case Update(rep) => Catalog.AfterReport(v, rep)
  }

  ghost predicate CanMove(ch: Channel, batch: nat, step: Step) {
    && batch > 0 && ch.worker.bounds.Wf() && ch.worker.id in ch.lives
    && match step
       case Mutate(r, m) => true
       case Emit(r) => true
       case Restart(r, id, stored) =>
         id !in ch.lives && ValidIdentity(id) && ValidEntries(Selected(stored.offers, ch.worker.bounds))
       case Deliver(r, i) => i < |ch.sent| && (ch.sent[i].packet.Update? ==> ch.sent[i].packet.report.rank == r)
  }

  ghost function Moved(ch: Channel, batch: nat, step: Step): Channel
    requires CanMove(ch, batch, step)
  {
    match step
    case Mutate(_, m) => ch.(worker := Changed(ch.worker, m))
    case Emit(_) => Emitted(ch, batch)
    case Restart(_, id, stored) => Restarted(ch, id, stored)
    case Deliver(_, i) => ch.(last := i)
  }

  ghost predicate Enabled(sys: System, step: Step) {
    && step.r in sys.channels && step.r in sys.view.ranks && sys.view.bounds.Wf()
    && CanMove(sys.channels[step.r], sys.batch, step)
  }

  ghost function ViewAfter(sys: System, step: Step): View
    requires Enabled(sys, step)
  {
    if step.Deliver? then Delivered(sys.view, step.r, sys.channels[step.r].sent[step.i]) else sys.view
  }

  ghost function After(sys: System, step: Step): System
    requires Enabled(sys, step)
  {
    System(ViewAfter(sys, step), sys.batch,
           sys.channels[step.r := Moved(sys.channels[step.r], sys.batch, step)])
  }

  // ---- the invariant ----

  ghost predicate SentFits(x: Sent, r: Rank, lives: map<Identity, Life>, batch: nat)
    requires batch > 0
  {
    && x.id in lives && ValidIdentity(x.id)
    && var images := lives[x.id].images;
    && 0 in images && x.sequence in images && SubMap(images[x.sequence], x.held)
    && match x.packet
       case Handshake(entries) => x.sequence == 0 && entries == Sorted(images[0])
       case Update(rep) =>
         && rep.rank == r && rep.id == x.id && rep.checkpoint.sequence == x.sequence
         && Honest(images, batch, rep.delta, rep.checkpoint)
  }

  ghost predicate AllSentFit(sent: seq<Sent>, r: Rank, lives: map<Identity, Life>, batch: nat)
    requires batch > 0
  {
    forall i :: 0 <= i < |sent| ==> SentFits(sent[i], r, lives, batch)
  }

  /** The catalog's record of a rank reflects one observed image of its process. */
  ghost predicate RankFits(s: RankState, lives: map<Identity, Life>, batch: nat)
    requires batch > 0
  {
    s.generation.Some? ==> s.generation.value in lives && Snapshot(s, lives[s.generation.value].images, batch)
  }

  ghost predicate WorkerFits(w: ReporterState, r: Rank, lives: map<Identity, Life>, batch: nat)
    requires batch > 0
  {
    w.rank == r && w.id in lives && 0 in lives[w.id].images && Inv(w, batch, lives[w.id].images)
  }

  ghost predicate ChannelFits(ch: Channel, s: RankState, r: Rank, batch: nat)
    requires batch > 0
  {
    && WorkerFits(ch.worker, r, ch.lives, batch)
    && AllSentFit(ch.sent, r, ch.lives, batch)
    && RankFits(s, ch.lives, batch)
  }

  ghost predicate ChannelsFit(channels: map<Rank, Channel>, ranks: map<Rank, RankState>, batch: nat)
    requires batch > 0
  {
    ranks.Keys == channels.Keys && forall r :: r in channels ==> ChannelFits(channels[r], ranks[r], r, batch)
  }

  ghost predicate SystemInv(sys: System) {
    sys.batch > 0 && Wf(sys.view) && ChannelsFit(sys.channels, sys.view.ranks, sys.batch)
  }

  // ---- worker steps ----

  lemma ReportIsHonest(s: ReporterState, batch: nat, hist: History)
    requires Inv(s, batch, hist)
    ensures Honest(Extended(hist, s, batch), batch, NextReport(s, batch).delta, NextReport(s, batch).checkpoint)
  {
    ReportKeepsInv(s, batch, hist);
    SettledKeepsInv(s, batch, hist);
    var t := Settled(s, batch);
    PageIsValid(t, batch);
    DeltaIsRetained(t, batch, Extended(hist, s, batch));
  }

  lemma SentFitsLater(x: Sent, r: Rank, lives: map<Identity, Life>, batch: nat, id: Identity, q: int, image: map<Key, int>)
    requires batch > 0 && SentFits(x, r, lives, batch) && id in lives && Bounded(lives[id].images, q - 1)
    ensures SentFits(x, r, lives[id := Life(lives[id].birth, lives[id].images[q := image])], batch)
  {
    if x.id == id && x.packet.Update? {
      ReportFitsLater(lives[id].images, batch, x.packet.report, q, image);
    }
  }

  lemma RankFitsLater(s: RankState, lives: map<Identity, Life>, batch: nat, id: Identity, q: int, image: map<Key, int>)
    requires batch > 0 && RankFits(s, lives, batch) && id in lives && q !in lives[id].images
    ensures RankFits(s, lives[id := Life(lives[id].birth, lives[id].images[q := image])], batch)
  {
    if s.generation == Some(id) {
      SnapshotLater(s, lives[id].images, batch, q, image);
    }
  }

  /** Recording one more observed image keeps all earlier packets fitting. */
  lemma LivesExtended(ch: Channel, s: RankState, r: Rank, batch: nat)
    requires batch > 0 && ChannelFits(ch, s, r, batch)
    ensures AllSentFit(ch.sent, r, Emitted(ch, batch).lives, batch)
    ensures RankFits(s, Emitted(ch, batch).lives, batch)
  {
    var id, w := ch.worker.id, ch.worker;
    if Reporter.Mutated(w) {
      var q, image := NewDelta(w, batch).sequence, Seen(w, batch);
      NewDeltaFits(w, batch, ch.lives[id].images);
      forall i | 0 <= i < |ch.sent| ensures SentFits(ch.sent[i], r, Emitted(ch, batch).lives, batch) {
        SentFitsLater(ch.sent[i], r, ch.lives, batch, id, q, image);
      }
      RankFitsLater(s, ch.lives, batch, id, q, image);
    } else {
      assert Emitted(ch, batch).lives == ch.lives;
    }
  }

  lemma EmittedFits(ch: Channel, s: RankState, r: Rank, batch: nat)
    requires batch > 0 && ChannelFits(ch, s, r, batch)
    ensures ChannelFits(Emitted(ch, batch), s, r, batch)
  {
    LivesExtended(ch, s, r, batch);
    ReportKeepsInv(ch.worker, batch, ch.lives[ch.worker.id].images);
    ReportIsHonest(ch.worker, batch, ch.lives[ch.worker.id].images);
    var e := Emitted(ch, batch);
    assert SentFits(e.sent[|ch.sent|], r, e.lives, batch);
  }

  lemma {:induction false} RemovedAllKeeps(s: ReporterState, keys: seq<Key>)
    ensures var t := RemovedAll(s, keys);
      && t.rank == s.rank && t.id == s.id && t.bounds == s.bounds
      && t.sequence == s.sequence && t.cycle == s.cycle && t.index == s.index && t.history == s.history
  {
    if keys != [] { RemovedAllKeeps(s, keys[..|keys| - 1]); }
  }

  lemma BootedIs(r: Rank, id: Identity, bounds: Bounds, stored: Store)
    requires bounds.Wf()
    ensures var w := Booted(r, id, bounds, stored);
      w.rank == r && w.id == id && w.bounds == bounds && w.sequence == 0
  {
    RemovedAllKeeps(AfterReplace(Fresh(r, id, bounds), stored.offers), stored.marked);
  }

  lemma {:induction false} RemovedAllHeldOk(s: ReporterState, keys: seq<Key>)
    requires HeldOk(s)
    ensures HeldOk(RemovedAll(s, keys))
  {
    if keys != [] {
      RemovedAllHeldOk(s, keys[..|keys| - 1]);
      RemoveHeldOk(RemovedAll(s, keys[..|keys| - 1]), keys[|keys| - 1]);
    }
  }

  lemma BootedFits(r: Rank, id: Identity, bounds: Bounds, batch: nat, stored: Store)
    requires bounds.Wf() && 0 < batch <= bounds.maxReport && r < MAX_INVENTORY_REPORTS && ValidIdentity(id)
    ensures var w := Booted(r, id, bounds, stored);
      && w.rank == r && w.id == id && w.bounds == bounds && w.items == Sorted(w.held.at)
      && Inv(w, batch, map[0 := w.held.at])
  {
    var newborn := Fresh(r, id, bounds);
    assert HeldOk(newborn);
    ReplaceHeldOk(newborn, stored.offers);
    RemovedAllHeldOk(AfterReplace(newborn, stored.offers), stored.marked);
    RemovedAllKeeps(AfterReplace(newborn, stored.offers), stored.marked);
    StartupEstablishesInv(RemovedAll(AfterReplace(newborn, stored.offers), stored.marked), batch);
  }

  lemma RestartedFits(ch: Channel, s: RankState, r: Rank, batch: nat, id: Identity, stored: Store)
    requires batch > 0 && ChannelFits(ch, s, r, batch) && id !in ch.lives && ValidIdentity(id)
    ensures ChannelFits(Restarted(ch, id, stored), s, r, batch)
  {
    BootedFits(r, id, ch.worker.bounds, batch, stored);
    var e := Restarted(ch, id, stored);
    forall i | 0 <= i < |e.sent| ensures SentFits(e.sent[i], r, e.lives, batch) {
      if i < |ch.sent| {
        assert SentFits(ch.sent[i], r, ch.lives, batch);
      }
    }
  }

  lemma ChangedFits(ch: Channel, s: RankState, r: Rank, batch: nat, m: Mutation)
    requires batch > 0 && ChannelFits(ch, s, r, batch)
    ensures ChannelFits(ch.(worker := Changed(ch.worker, m)), s, r, batch)
  {
    var hist := ch.lives[ch.worker.id].images;
    match m
    case Replace(entries) => MutationsKeepInv(ch.worker, batch, hist, entries, 0, 0);
    case Add(key, span) => MutationsKeepInv(ch.worker, batch, hist, [], key, span);
    case Remove(key) => MutationsKeepInv(ch.worker, batch, hist, [], key, 0);
  }

  // ---- delivery ----

  /** Where a rank stands once it has taken the packet's identity. */
  function Standing(s: RankState, id: Identity): int {
    if DispositionOf(s, id) == Current then s.sequence else 0
  }

  /** The record after a packet the catalog does not listen to. */
  function Ignored(s: RankState, id: Identity): RankState {
    if DispositionOf(s, id) == Stale then s else ConflictedRank(s)
  }

  function PastWith(s: RankState, id: Identity): seq<Identity> {
    if DispositionOf(s, id) == Current then s.past else AdoptedRank(s, id).past
  }

  lemma IdentifiedFits(v: View, r: Rank, x: Sent, lives: map<Identity, Life>, batch: nat)
    requires batch > 0 && Wf(v) && r in v.ranks && RankFits(v.ranks[r], lives, batch) && SentFits(x, r, lives, batch)
    ensures RankFits(Identified(v, r, x.id).ranks[r], lives, batch)
    ensures Listens(v.ranks[r], x.id) ==>
      Open(Identified(v, r, x.id), r) && Identified(v, r, x.id).ranks[r].generation == Some(x.id) &&
      Identified(v, r, x.id).ranks[r].sequence == Standing(v.ranks[r], x.id) &&
      Identified(v, r, x.id).ranks[r].past == PastWith(v.ranks[r], x.id)
    ensures !Listens(v.ranks[r], x.id) ==> Identified(v, r, x.id).ranks[r] == Ignored(v.ranks[r], x.id)
  {
    IdentifiedFacts(v, r, x.id);
    match DispositionOf(v.ranks[r], x.id)
    case Initial => AdoptedFacts(v, r, x.id);
    case Newer => AdoptedFacts(v, r, x.id);
    case Conflict => ConflictedFacts(v, r);
    case Stale =>
    case Current =>
  }

  /** What the catalog knows after a packet it listened to: withdrawn, or at
      least as far as the packet and no further than both. */
  ghost predicate CaughtUp(s: RankState, t: RankState, x: Sent) {
    && t.generation == Some(x.id) && !t.conflict && t.past == PastWith(s, x.id)
    && Standing(s, x.id) <= t.sequence <= Max(Standing(s, x.id), x.sequence)
    && (!t.desync ==> x.sequence <= t.sequence)
  }

  /** How a rank's record reacts to a packet of that rank. */
  ghost predicate Reacts(s: RankState, t: RankState, x: Sent) {
    if Listens(s, x.id) then CaughtUp(s, t, x) else t == Ignored(s, x.id)
  }

  lemma DeliveredWf(v: View, r: Rank, x: Sent)
    requires Wf(v) && r in v.ranks && (x.packet.Update? ==> x.packet.report.rank == r)
    ensures Wf(Delivered(v, r, x)) && OnlyRank(v, Delivered(v, r, x), r)
  {
    match x.packet
    case Handshake(entries) => StartupStep(v, r, x.id, entries);
    case Update(rep) => ReportStep(v, rep);
  }

  lemma DeliveredRank(v: View, r: Rank, x: Sent)
    requires Wf(v) && r in v.ranks && (x.packet.Update? ==> x.packet.report.rank == r)
    ensures r in Delivered(v, r, x).ranks
  {
    DeliveredWf(v, r, x);
  }

  lemma UpdateFits(v: View, r: Rank, x: Sent, lives: map<Identity, Life>, batch: nat)
    requires batch > 0 && Wf(v) && r in v.ranks && RankFits(v.ranks[r], lives, batch)
    requires SentFits(x, r, lives, batch) && x.packet.Update?
    ensures r in Delivered(v, r, x).ranks
    ensures RankFits(Delivered(v, r, x).ranks[r], lives, batch)
    ensures Reacts(v.ranks[r], Delivered(v, r, x).ranks[r], x)
  {
    var w, rep := Identified(v, r, x.id), x.packet.report;
    DeliveredRank(v, r, x);
    IdentifiedFits(v, r, x, lives, batch);
    if Listens(v.ranks[r], x.id) {
      if ValidReport(rep, v.bounds) {
        BodySnapshot(w, r, rep.delta, rep.checkpoint, lives[x.id].images, batch);
      } else {
        LostFacts(w, r);
      }
    }
  }

  /** A newly adopted rank takes the image of the handshake. */
  lemma Welcomed(w: View, r: Rank, entries: seq<Entry>, images: History, batch: nat)
    requires batch > 0 && Open(w, r) && w.ranks[r].sequence == 0 && w.ranks[r].pending.None?
    requires ValidEntries(entries) && 0 in images && entries == Sorted(images[0])
    ensures r in Replaced(w, r, PutAll(EmptyDict, entries)).ranks
    ensures var t := Replaced(w, r, PutAll(EmptyDict, entries)).ranks[r];
      Snapshot(t, images, batch) && Later(w.ranks[r], t, 0, 0)
  {
    var d := PutAll(EmptyDict, entries);
    StartupImage(entries);
    ReplacedFacts(w, r, d);
    SortedIsListing(images[0]);
    ListingIsExact(entries, images[0]);
    MovedSnapshot(w.ranks[r], Replaced(w, r, d).ranks[r], 0, d, images, batch);
  }

  /** The handshake of a new process. */
  lemma GreetedFits(v: View, r: Rank, x: Sent, lives: map<Identity, Life>, batch: nat)
    requires batch > 0 && Wf(v) && r in v.ranks && SentFits(x, r, lives, batch) && x.packet.Handshake?
    requires DispositionOf(v.ranks[r], x.id) in {Initial, Newer} && AcceptableStartup(x.packet.entries, v.bounds)
    ensures r in Delivered(v, r, x).ranks
    ensures RankFits(Delivered(v, r, x).ranks[r], lives, batch)
    ensures Reacts(v.ranks[r], Delivered(v, r, x).ranks[r], x)
  {
    var s, w := v.ranks[r], Identified(v, r, x.id);
    DeliveredRank(v, r, x);
    IdentifiedFacts(v, r, x.id);
    AdoptedFacts(v, r, x.id);
    Welcomed(w, r, x.packet.entries, lives[x.id].images, batch);
    GreetedReacts(s, w.ranks[r], Replaced(w, r, PutAll(EmptyDict, x.packet.entries)).ranks[r], x);
  }

  lemma GreetedReacts(s: RankState, a: RankState, t: RankState, x: Sent)
    requires DispositionOf(s, x.id) in {Initial, Newer} && a == AdoptedRank(s, x.id) && Later(a, t, 0, 0) && x.sequence == 0
    ensures Reacts(s, t, x)
  {
  }

  lemma HandshakeFits(v: View, r: Rank, x: Sent, lives: map<Identity, Life>, batch: nat)
    requires batch > 0 && Wf(v) && r in v.ranks && RankFits(v.ranks[r], lives, batch)
    requires SentFits(x, r, lives, batch) && x.packet.Handshake?
    ensures r in Delivered(v, r, x).ranks
    ensures RankFits(Delivered(v, r, x).ranks[r], lives, batch)
    ensures Reacts(v.ranks[r], Delivered(v, r, x).ranks[r], x)
  {
    var entries := x.packet.entries;
    DeliveredRank(v, r, x);
    IdentifiedFits(v, r, x, lives, batch);
    if DispositionOf(v.ranks[r], x.id) in {Initial, Newer} && AcceptableStartup(entries, v.bounds) {
      GreetedFits(v, r, x, lives, batch);
    }
  }

  lemma ShrunkFits(ch: Channel, s: RankState, t: RankState, r: Rank, batch: nat)
    requires batch > 0 && ChannelFits(ch, s, r, batch) && Shrunk(s, t)
    ensures ChannelFits(ch, t, r, batch)
  {
    if s.generation.Some? {
      SnapshotShrinks(s, t, ch.lives[s.generation.value].images, batch);
    }
  }

  lemma ChannelAfter(v: View, w: View, r: Rank, channels: map<Rank, Channel>, batch: nat, q: Rank)
    requires batch > 0 && OnlyRank(v, w, r) && ChannelsFit(channels, v.ranks, batch) && q in channels && q != r
    ensures q in w.ranks && ChannelFits(channels[q], w.ranks[q], q, batch)
  {
    assert ChannelFits(channels[q], v.ranks[q], q, batch) && Shrunk(v.ranks[q], w.ranks[q]);
    ShrunkFits(channels[q], v.ranks[q], w.ranks[q], q, batch);
  }

  lemma ChannelsAre(channels: map<Rank, Channel>, ranks: map<Rank, RankState>, batch: nat, r: Rank, ch: Channel)
    requires batch > 0 && ranks.Keys == channels.Keys && r in channels && ChannelFits(ch, ranks[r], r, batch)
    requires forall q :: q in channels && q != r ==> ChannelFits(channels[q], ranks[q], q, batch)
    ensures ChannelsFit(channels[r := ch], ranks, batch)
  {
  }

  /** A packet for one rank leaves the other ranks' channels fitting. */
  lemma ChannelsStep(v: View, w: View, r: Rank, channels: map<Rank, Channel>, batch: nat, ch: Channel)
    requires batch > 0 && OnlyRank(v, w, r) && r in channels && ChannelsFit(channels, v.ranks, batch)
    requires ChannelFits(ch, w.ranks[r], r, batch)
    ensures ChannelsFit(channels[r := ch], w.ranks, batch)
  {
    forall q | q in channels && q != r ensures ChannelFits(channels[q], w.ranks[q], q, batch) {
      ChannelAfter(v, w, r, channels, batch, q);
    }
    ChannelsAre(channels, w.ranks, batch, r, ch);
  }

  lemma DeliveredStep(v: View, r: Rank, x: Sent, lives: map<Identity, Life>, batch: nat)
    requires batch > 0 && Wf(v) && r in v.ranks && RankFits(v.ranks[r], lives, batch) && SentFits(x, r, lives, batch)
    ensures Wf(Delivered(v, r, x)) && OnlyRank(v, Delivered(v, r, x), r)
    ensures RankFits(Delivered(v, r, x).ranks[r], lives, batch)
    ensures Reacts(v.ranks[r], Delivered(v, r, x).ranks[r], x)
  {
    DeliveredWf(v, r, x);
    match x.packet
    case Handshake(_) => HandshakeFits(v, r, x, lives, batch);
    case Update(_) => UpdateFits(v, r, x, lives, batch);
  }

  lemma DeliverInv(sys: System, r: Rank, i: nat)
    requires SystemInv(sys) && Enabled(sys, Deliver(r, i))
    ensures SystemInv(After(sys, Deliver(r, i)))
  {
    var v, ch := sys.view, sys.channels[r];
    assert ChannelFits(ch, v.ranks[r], r, sys.batch) && SentFits(ch.sent[i], r, ch.lives, sys.batch);
    DeliveredStep(v, r, ch.sent[i], ch.lives, sys.batch);
    ChannelsStep(v, Delivered(v, r, ch.sent[i]), r, sys.channels, sys.batch, ch.(last := i));
  }

  lemma SameView(v: View, r: Rank)
    requires r in v.ranks
    ensures OnlyRank(v, v, r)
  {
  }

  lemma MovedFits(ch: Channel, s: RankState, r: Rank, batch: nat, step: Step)
    requires batch > 0 && ChannelFits(ch, s, r, batch) && CanMove(ch, batch, step) && !step.Deliver?
    ensures ChannelFits(Moved(ch, batch, step), s, r, batch)
  {
    match step
    case Mutate(_, m) => ChangedFits(ch, s, r, batch, m);
    case Emit(_) => EmittedFits(ch, s, r, batch);
    case Restart(_, id, stored) => RestartedFits(ch, s, r, batch, id, stored);
  }

  lemma StepKeepsInv(sys: System, step: Step)
    requires SystemInv(sys) && Enabled(sys, step)
    ensures SystemInv(After(sys, step))
  {
    var r, ch := step.r, sys.channels[step.r];
    if step.Deliver? {
      DeliverInv(sys, r, step.i);
    } else {
      FitsAt(sys, r);
      MovedFits(ch, sys.view.ranks[r], r, sys.batch, step);
      SameView(sys.view, r);
      ChannelsStep(sys.view, sys.view, r, sys.channels, sys.batch, Moved(ch, sys.batch, step));
    }
  }

  lemma FitsAt(sys: System, r: Rank)
    requires SystemInv(sys) && r in sys.channels
    ensures r in sys.view.ranks && ChannelFits(sys.channels[r], sys.view.ranks[r], r, sys.batch)
  {
  }
}
