/** One restore: a pinned chain is streamed, authenticated and placed, and the
    device then holds what was saved. */
module RestoreEntry {
  import opened Collections
  import opened Hma
  import opened PageBytes
  import opened PageTransfer
  import opened RoundTrip
  import opened TokenFiles
  import opened TokenCommit
  import opened TokenSave
  import opened TokenStream

  function PayloadsOf(descs: seq<Sealed>): seq<seq<Byte>> {
    seq(|descs|, i requires 0 <= i < |descs| => descs[i].published)
  }

  function FilesOf(descs: seq<Sealed>): seq<seq<PageSlice>> {
    seq(|descs|, i requires 0 <= i < |descs| => descs[i].slices)
  }

  lemma LastOf(descs: seq<Sealed>)
    requires descs != []
    ensures var n := |descs| - 1;
      && FilesOf(descs)[..n] == FilesOf(descs[..n]) && PayloadsOf(descs)[..n] == PayloadsOf(descs[..n])
      && FilesOf(descs)[n] == descs[n].slices && PayloadsOf(descs)[n] == descs[n].published
  {
  }

  lemma LastApart<T>(a: seq<T>, b: seq<T>)
    requires b != []
    ensures a + b == (a + b[..|b| - 1]) + [b[|b| - 1]]
  {
  }

  lemma {:induction false} PutAppend(memory: seq<Byte>, a: seq<Delivery>, b: seq<Delivery>, regions: Regions, selected: Selection)
    requires AllFit(a, regions, selected, |memory|) && AllFit(b, regions, selected, |memory|)
    ensures AllFit(a + b, regions, selected, |memory|)
    ensures PutRanges(memory, a + b, regions, selected) ==
            PutRanges(PutRanges(memory, a, regions, selected), b, regions, selected)
  {
    if b == [] {
      assert a + b == a;
    } else {
      var n := |b| - 1;
      var front := a + b[..n];
      PutAppend(memory, a, b[..n], regions, selected);
      LastApart(a, b);
      PutMore(memory, front, b[n], regions, selected);
    }
  }

  // ---- the ranges of one file ----

  /** The file whose first `start` bytes have been placed. */
  ghost function PlacedUpTo(memory: seq<Byte>, d: Sealed, start: nat, regions: Regions, selected: Selection): (after: seq<Byte>)
    requires AllPlaced(d.slices, regions, selected, |memory|) && |d.published| == TotalBytes(d.slices) && start <= |d.published|
    ensures |after| == |memory|
  {
    PartsSized(d.slices, regions, selected, |memory|);
    AllWithin(d.slices, regions, selected, |memory|);
    Write(memory, FileAddresses(d.slices, regions, selected, |memory|)[..start], d.published[..start])
  }

  lemma Extends<T>(s: seq<T>, start: nat, end: nat)
    requires start <= end <= |s|
    ensures s[..start] + s[start..end] == s[..end]
  {
  }

  lemma PartsWithin(all: seq<nat>, size: nat, start: nat, end: nat)
    requires Within(all, size) && start <= end <= |all|
    ensures Within(all[..start], size) && Within(all[start..end], size) && Within(all[..end], size)
  {
  }

  lemma WriteOn(memory: seq<Byte>, all: seq<nat>, bytes: seq<Byte>, start: nat, end: nat)
    requires Within(all, |memory|) && |bytes| == |all| && start <= end <= |all|
    ensures Within(all[..start], |memory|) && Within(all[start..end], |memory|) && Within(all[..end], |memory|)
    ensures Write(Write(memory, all[..start], bytes[..start]), all[start..end], bytes[start..end]) ==
            Write(memory, all[..end], bytes[..end])
  {
    PartsWithin(all, |memory|, start, end);
    WriteAppend(memory, all[..start], all[start..end], bytes[..start], bytes[start..end]);
    Extends(all, start, end);
    Extends(bytes, start, end);
  }

  lemma PlacedMore(memory: seq<Byte>, d: Sealed, start: nat, end: nat, regions: Regions, selected: Selection)
    requires AllPlaced(d.slices, regions, selected, |memory|) && |d.published| == TotalBytes(d.slices)
    requires start <= end <= |d.published|
    ensures var x := Delivery(d, start, d.published[start..end]);
      && Fits(x, regions, selected, |memory|)
      && PutRange(PlacedUpTo(memory, d, start, regions, selected), x, regions, selected) == PlacedUpTo(memory, d, end, regions, selected)
  {
    PartsSized(d.slices, regions, selected, |memory|);
    AllWithin(d.slices, regions, selected, |memory|);
    WriteOn(memory, FileAddresses(d.slices, regions, selected, |memory|), d.published, start, end);
  }

  lemma {:induction false} BlocksPut(memory: seq<Byte>, d: Sealed, unit: nat, start: nat, regions: Regions, selected: Selection)
    requires unit > 0 && start <= |d.published| == TotalBytes(d.slices) && AllPlaced(d.slices, regions, selected, |memory|)
    ensures AllFit(Blocks(d, unit, start), regions, selected, |memory|)
    ensures PutRanges(PlacedUpTo(memory, d, start, regions, selected), Blocks(d, unit, start), regions, selected) ==
            PlacedUpTo(memory, d, |d.published|, regions, selected)
    decreases |d.published| - start
  {
    if start < |d.published| {
      var end := Min(start + unit, |d.published|);
      var x, before := Delivery(d, start, d.published[start..end]), PlacedUpTo(memory, d, start, regions, selected);
      PlacedMore(memory, d, start, end, regions, selected);
      BlocksPut(memory, d, unit, end, regions, selected);
      PutMore(before, [], x, regions, selected);
      assert [] + [x] == [x];
      PutAppend(before, [x], Blocks(d, unit, end), regions, selected);
    }
  }

  /** Placing all ranges of a file is placing the file. */
  lemma RangesPut(memory: seq<Byte>, d: Sealed, unit: nat, credit: nat, regions: Regions, selected: Selection)
    requires unit > 0 && |d.published| == TotalBytes(d.slices) && AllPlaced(d.slices, regions, selected, |memory|)
    ensures AllFit(Ranges(d, unit, credit), regions, selected, |memory|)
    ensures |d.published| == |FileAddresses(d.slices, regions, selected, |memory|)|
    ensures PutRanges(memory, Ranges(d, unit, credit), regions, selected) ==
            Restored(d.slices, regions, selected, memory, d.published)
  {
    PartsSized(d.slices, regions, selected, |memory|);
    var all, whole := FileAddresses(d.slices, regions, selected, |memory|), |d.published|;
    assert all[..whole] == all && d.published[..whole] == d.published == d.published[0..whole];
    assert PlacedUpTo(memory, d, 0, regions, selected) == memory;
    if whole > credit {
      BlocksPut(memory, d, unit, 0, regions, selected);
    } else {
      PlacedMore(memory, d, 0, whole, regions, selected);
      PutMore(memory, [], Delivery(d, 0, d.published), regions, selected);
      assert [] + [Delivery(d, 0, d.published)] == [Delivery(d, 0, d.published)];
    }
  }

  // ---- the chain ----

  ghost predicate Placeable(descs: seq<Sealed>, regions: Regions, selected: Selection, size: nat) {
    forall i :: 0 <= i < |descs| ==>
      AllPlaced(descs[i].slices, regions, selected, size) && |descs[i].published| == TotalBytes(descs[i].slices)
  }

  /** Placing everything that is streamed is placing file after file. */
  lemma {:induction false} ProgramPuts(memory: seq<Byte>, descs: seq<Sealed>, unit: nat, credit: nat, regions: Regions, selected: Selection)
    requires unit > 0 && Placeable(descs, regions, selected, |memory|)
    ensures AllFit(Program(descs, unit, credit), regions, selected, |memory|)
    ensures FilesPlaced(FilesOf(descs), regions, selected, |memory|) && PayloadsFit(FilesOf(descs), PayloadsOf(descs))
    ensures PutRanges(memory, Program(descs, unit, credit), regions, selected) ==
            RestoredFiles(FilesOf(descs), PayloadsOf(descs), regions, selected, memory)
  {
    if descs != [] {
      var n := |descs| - 1;
      var before := Program(descs[..n], unit, credit);
      ProgramPuts(memory, descs[..n], unit, credit, regions, selected);
      LastOf(descs);
      RangesPut(PutRanges(memory, before, regions, selected), descs[n], unit, credit, regions, selected);
      PutAppend(memory, before, Ranges(descs[n], unit, credit), regions, selected);
    }
  }

  lemma CutIsShorter(trace: seq<Delivery>, program: seq<Delivery>)
    requires CutShort([], trace, program)
    ensures |trace| < |program|
  {
  }

  /** Restores a pinned chain. On success the device holds the published payloads,
      file after file; after a failure, an authentic prefix of them. It fails
      only for a damaged file or a failing copy. */
  method Restore(descs: seq<Sealed>, disk: map<FileKey, OnDisk>, mover: Mover, selected: Selection, unit: nat, patience: nat)
    returns (outcome: Outcome, ghost trace: seq<Delivery>)
    requires mover.Valid() && AllReady(descs, mover, selected) && unit > 0
    modifies mover.device.memory, mover.slot
    ensures outcome.Refused? <==> !Creditable(descs, unit, mover.slot.Length)
    ensures AllFit(trace, mover.regions, selected, mover.device.memory.Length)
    ensures mover.device.memory[..] == PutRanges(old(mover.device.memory[..]), trace, mover.regions, selected)
    ensures outcome.Refused? ==> trace == []
    ensures (forall i :: 0 <= i < |descs| ==> Intact(descs[i], disk)) && patience >= |Program(descs, unit, mover.slot.Length)| ==>
      !outcome.Failed?
    ensures outcome.Failed? ==> CutShort([], trace, Program(descs, unit, mover.slot.Length))
    ensures Placeable(descs, mover.regions, selected, mover.device.memory.Length)
    ensures FilesPlaced(FilesOf(descs), mover.regions, selected, mover.device.memory.Length)
    ensures PayloadsFit(FilesOf(descs), PayloadsOf(descs))
    ensures outcome.Done? ==>
      mover.device.memory[..] == RestoredFiles(FilesOf(descs), PayloadsOf(descs), mover.regions, selected, old(mover.device.memory[..]))
  {
    ghost var memory := mover.device.memory[..];
    var receiver := new Receiver(mover, selected, patience);
    outcome := StreamObjects(descs, disk, receiver, unit);
    trace := receiver.trace;
    if outcome.Failed? { CutIsShorter(trace, Program(descs, unit, mover.slot.Length)); }
    ProgramPuts(memory, descs, unit, mover.slot.Length, mover.regions, selected);
    assert [] + Program(descs, unit, mover.slot.Length) == Program(descs, unit, mover.slot.Length);
  }

  // ---- save, then restore ----

  /** A file that is stored already has the content of its key. */
  ghost predicate SameContent(files: Files, plan: seq<Chunk>) {
    forall i :: 0 <= i < |plan| ==> Present(files, plan[i]) ==> files[plan[i].key].payload == plan[i].file.payload
  }

  /** The chain consists of the stored files of the plan. */
  ghost predicate StoredAs(descs: seq<Sealed>, wants: seq<Want>, plan: seq<Chunk>, files: Files) {
    && |descs| == |wants| == |plan|
    && forall i :: 0 <= i < |descs| ==>
         descs[i].slices == wants[i].slices && plan[i].key in files && descs[i].published == files[plan[i].key].payload
  }

  /** The disk holds the stored files under the chain's keys. */
  ghost predicate OnDiskAs(descs: seq<Sealed>, plan: seq<Chunk>, files: Files, disk: map<FileKey, OnDisk>) {
    && |descs| == |plan|
    && forall i :: 0 <= i < |descs| ==>
         && plan[i].key in files && descs[i].key in disk
         && disk[descs[i].key] == OnDisk(descs[i], files[plan[i].key].bytes)
  }

  /** What a save has left in the store can be read back in full. */
  lemma SavedIsIntact(files: Files, wants: seq<Want>, plan: seq<Chunk>, descs: seq<Sealed>, disk: map<FileKey, OnDisk>,
                      source: Regions, from: Selection, m: seq<Byte>, i: nat)
    requires Capturable(wants, source, from, |m|) && plan == PlanOf(wants, source, from, m) && DistinctKeys(plan)
    requires StoredAs(descs, wants, plan, After(files, plan, |plan|)) && OnDiskAs(descs, plan, After(files, plan, |plan|), disk)
    requires i < |descs|
    ensures Intact(descs[i], disk)
  {
    AfterHolds(files, plan, |plan|, i);
    assert plan[i] == ChunkOf(wants[i], source, from, m);
  }

  lemma SavedPayloads(files: Files, wants: seq<Want>, plan: seq<Chunk>, descs: seq<Sealed>, source: Regions, from: Selection, m: seq<Byte>)
    requires Capturable(wants, source, from, |m|) && plan == PlanOf(wants, source, from, m) && DistinctKeys(plan)
    requires SameContent(files, plan) && StoredAs(descs, wants, plan, After(files, plan, |plan|))
    ensures FilesPlaced(FilesOf(descs), source, from, |m|) && PayloadsAre(PayloadsOf(descs), FilesOf(descs), source, from, m)
  {
    forall i | 0 <= i < |descs|
      ensures AllPlaced(descs[i].slices, source, from, |m|) && descs[i].published == Captured(descs[i].slices, source, from, m)
    {
      AfterHolds(files, plan, |plan|, i);
      assert plan[i] == ChunkOf(wants[i], source, from, m);
    }
  }

  /** Save, then restore, each through its own block table: every byte of every
      required page is where it belongs. */
  lemma SavedThenRestored(files: Files, wants: seq<Want>, plan: seq<Chunk>, descs: seq<Sealed>, needs: map<LayerKey, Need>,
                          source: Regions, from: Selection, m: seq<Byte>, target: Regions, to: Selection, n: seq<Byte>,
                          blocks: nat, c: Cell)
    requires Capturable(wants, source, from, |m|) && plan == PlanOf(wants, source, from, m) && DistinctKeys(plan)
    requires SameContent(files, plan) && StoredAs(descs, wants, plan, After(files, plan, |plan|))
    requires Covers(Joined(FilesOf(descs)), needs)
    requires forall i :: 0 <= i < |Joined(FilesOf(descs))| ==> ValidSlice(Joined(FilesOf(descs))[i])
    requires Bound(source, from, needs, |m|) && Bound(target, to, needs, |n|)
    requires OwnMemory(target, blocks) && UsableSelection(to, blocks) && Required(c, needs)
    requires FilesPlaced(FilesOf(descs), target, to, |n|)
    ensures PayloadsFit(FilesOf(descs), PayloadsOf(descs))
    ensures AddressOf(c, target, to) < |n| && AddressOf(c, source, from) < |m|
    ensures RestoredFiles(FilesOf(descs), PayloadsOf(descs), target, to, n)[AddressOf(c, target, to)] ==
            m[AddressOf(c, source, from)]
  {
    SavedPayloads(files, wants, plan, descs, source, from, m);
    SavedPrefixRestores(FilesOf(descs), needs, PayloadsOf(descs), source, from, m, target, to, n, blocks, c);
  }
}
