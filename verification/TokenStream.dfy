/** Streaming a pinned chain: every range is authenticated before it is placed. */
module TokenStream {
  import opened Collections
  import opened Hma
  import opened PageBytes
  import opened PageMover
  import opened PageTransfer
  import opened TokenFiles

  /** What a descriptor commits to: the checksums in a file's header determine
      its payload, block by block; its page slices follow from its span. */
  datatype Sealed = Sealed(key: FileKey, slices: seq<PageSlice>, published: seq<Byte>)

  /** What the disk holds under a name now: its header, and its bytes, which
      may be damaged or cut short. */
  datatype OnDisk = OnDisk(header: Sealed, bytes: seq<Byte>)

  /** The file is there with its own header and all of its published bytes. */
  predicate Intact(d: Sealed, disk: map<FileKey, OnDisk>) {
    d.key in disk && disk[d.key].header == d && d.published <= disk[d.key].bytes
  }

  /** A range of a file, to be placed from byte `start` of the file on. */
  datatype Delivery = Delivery(file: Sealed, start: nat, bytes: seq<Byte>)

  /** `Failed` names the file to quarantine, unless the receiver raised. */
  datatype Outcome = Done | Refused | Failed(blamed: Option<FileKey>)

  // ---- what must be delivered ----

  /** The authenticated ranges of one payload from `start` on. */
  function Blocks(d: Sealed, unit: nat, start: nat): seq<Delivery>
    requires unit > 0
    decreases |d.published| - start
  {
    if start >= |d.published| then [] else
      var end := Min(start + unit, |d.published|);
      [Delivery(d, start, d.published[start..end])] + Blocks(d, unit, end)
  }

  function Ranges(d: Sealed, unit: nat, credit: nat): seq<Delivery>
    requires unit > 0
  {
    if |d.published| > credit then Blocks(d, unit, 0) else [Delivery(d, 0, d.published)]
  }

  function Program(descs: seq<Sealed>, unit: nat, credit: nat): seq<Delivery>
    requires unit > 0
  {
    if descs == [] then [] else
      Program(descs[..|descs| - 1], unit, credit) + Ranges(descs[|descs| - 1], unit, credit)
  }

  // ---- authenticity ----

  /** The deliveries of one file, put together. */
  function Bytes(ds: seq<Delivery>): seq<Byte> {
    if ds == [] then [] else ds[0].bytes + Bytes(ds[1..])
  }

  lemma {:induction false} BlocksAreWhole(d: Sealed, unit: nat, start: nat)
    requires unit > 0 && start <= |d.published|
    ensures Bytes(Blocks(d, unit, start)) == d.published[start..]
    ensures forall i :: 0 <= i < |Blocks(d, unit, start)| ==>
      var x := Blocks(d, unit, start)[i];
      x.file == d && 0 < |x.bytes| <= unit && x.start + |x.bytes| <= |d.published| &&
      x.bytes == d.published[x.start..x.start + |x.bytes|]
    decreases |d.published| - start
  {
    if start < |d.published| {
      BlocksAreWhole(d, unit, Min(start + unit, |d.published|));
      assert Blocks(d, unit, start)[1..] == Blocks(d, unit, Min(start + unit, |d.published|));
    }
  }

  /** The ranges of a file are its published bytes at their places, they make
      up the whole payload, and each fits one staging credit. */
  lemma RangesAreAuthentic(d: Sealed, unit: nat, credit: nat)
    requires unit > 0 && d.published != [] && Min(|d.published|, unit) <= credit
    ensures Bytes(Ranges(d, unit, credit)) == d.published
    ensures forall i :: 0 <= i < |Ranges(d, unit, credit)| ==>
      var x := Ranges(d, unit, credit)[i];
      x.file == d && 0 < |x.bytes| <= credit && x.start + |x.bytes| <= |d.published| &&
      x.bytes == d.published[x.start..x.start + |x.bytes|]
  {
    if |d.published| > credit {
      BlocksAreWhole(d, unit, 0);
    } else {
      var only := Delivery(d, 0, d.published);
      assert [only][1..] == [];
      assert d.published[0..|d.published|] == d.published;
    }
  }

  /** Checks a buffer block by block; with several blocks also as a whole. */
  method VerifyBuffer(view: seq<Byte>, d: Sealed, unit: nat) returns (ok: bool)
    requires unit > 0 && |view| == |d.published|
    ensures ok <==> view == d.published
  {
    var start := 0;
    while start < |view|
      invariant 0 <= start <= |view| && view[..start] == d.published[..start]
    {
      var end := Min(start + unit, |view|);
      if view[start..end] != d.published[start..end] {
        return false;
      }
      assert view[..end] == view[..start] + view[start..end];
      assert d.published[..end] == d.published[..start] + d.published[start..end];
      start := end;
    }
    assert view[..start] == view && d.published[..start] == d.published;
    ok := true;
  }

  // ---- placement ----

  /** The range lies inside its file, whose pages are known. */
  ghost predicate Fits(x: Delivery, regions: Regions, selected: Selection, size: nat) {
    && AllPlaced(x.file.slices, regions, selected, size)
    && x.start + |x.bytes| <= |FileAddresses(x.file.slices, regions, selected, size)|
  }

  ghost function TargetOf(x: Delivery, regions: Regions, selected: Selection, size: nat): (addresses: seq<nat>)
    requires Fits(x, regions, selected, size)
    ensures |addresses| == |x.bytes| && Within(addresses, size)
  {
    AllWithin(x.file.slices, regions, selected, size);
    FileAddresses(x.file.slices, regions, selected, size)[x.start..x.start + |x.bytes|]
  }

  ghost predicate AllFit(trace: seq<Delivery>, regions: Regions, selected: Selection, size: nat) {
    forall i :: 0 <= i < |trace| ==> Fits(trace[i], regions, selected, size)
  }

  ghost function PutRange(memory: seq<Byte>, x: Delivery, regions: Regions, selected: Selection): (after: seq<Byte>)
    requires Fits(x, regions, selected, |memory|)
    ensures |after| == |memory|
  {
    Write(memory, TargetOf(x, regions, selected, |memory|), x.bytes)
  }

  /** The memory after every range was placed, one after another. */
  ghost function PutRanges(memory: seq<Byte>, trace: seq<Delivery>, regions: Regions, selected: Selection): (after: seq<Byte>)
    requires AllFit(trace, regions, selected, |memory|)
    ensures |after| == |memory|
  {
    if trace == [] then memory else
      PutRange(PutRanges(memory, trace[..|trace| - 1], regions, selected), trace[|trace| - 1], regions, selected)
  }

  lemma PutMore(memory: seq<Byte>, trace: seq<Delivery>, x: Delivery, regions: Regions, selected: Selection)
    requires AllFit(trace, regions, selected, |memory|) && Fits(x, regions, selected, |memory|)
    ensures AllFit(trace + [x], regions, selected, |memory|)
    ensures PutRanges(memory, trace + [x], regions, selected) == PutRange(PutRanges(memory, trace, regions, selected), x, regions, selected)
  {
    assert (trace + [x])[..|trace|] == trace;
  }

  lemma UploadPuts(x: Buffers, d: Delivery, lo: nat, regions: Regions, selected: Selection)
    requires Fits(d, regions, selected, |x.memory|) && lo + |d.bytes| <= |x.host| && x.host[lo..lo + |d.bytes|] == d.bytes
    ensures Copyable(x, TargetOf(d, regions, selected, |x.memory|), lo)
    ensures Copied(true, x, TargetOf(d, regions, selected, |x.memory|), lo).memory == PutRange(x.memory, d, regions, selected)
  {
    UploadWrites(x, TargetOf(d, regions, selected, |x.memory|), lo);
  }

  /** A descriptor of whole files in known pages. */
  ghost predicate Ready(d: Sealed, mover: Mover, selected: Selection) {
    && AllPlaced(d.slices, mover.regions, selected, mover.device.memory.Length)
    && |d.published| == TotalBytes(d.slices) > 0
  }

  /** Places what is streamed to it, file by file and range by range. */
  class Receiver {
    const mover: Mover
    const selected: Selection
    /** The open file, and how much of it was received. */
    var file: Sealed
    var received: nat
    /** After how many copies the device fails. */
    var patience: nat
    /** Device memory at first, and what was placed since. */
    ghost const base: seq<Byte>
    ghost var trace: seq<Delivery>

    ghost predicate Valid()
      reads this, mover.device.memory
    {
      && mover.Valid() && |base| == mover.device.memory.Length
      && AllPlaced(file.slices, mover.regions, selected, |base|) && received <= TotalBytes(file.slices)
      && AllFit(trace, mover.regions, selected, |base|)
      && mover.device.memory[..] == PutRanges(base, trace, mover.regions, selected)
    }

    constructor (mover: Mover, selected: Selection, patience: nat)
      requires mover.Valid()
      ensures Valid() && this.mover == mover && this.selected == selected
      ensures base == mover.device.memory[..] && trace == [] && this.patience == patience
    {
      this.mover, this.selected, this.patience := mover, selected, patience;
      file, received := Sealed(Prefix(0), [], []), 0;
      base, trace := mover.device.memory[..], [];
    }

    method Open(d: Sealed)
      requires Valid() && Ready(d, mover, selected)
      modifies this`file, this`received
      ensures Valid() && file == d && received == 0
    {
      file, received := d, 0;
    }

    /** Reads a range from the disk into the staging buffer. */
    method Stage(bytes: seq<Byte>, lo: nat)
      requires Valid() && lo + |bytes| <= mover.slot.Length
      modifies mover.slot
      ensures Valid() && mover.slot[lo..lo + |bytes|] == bytes
    {
      forall i | 0 <= i < |bytes| {
        mover.slot[lo + i] := bytes[i];
      }
    }

    /** Copies a staged range to its pages. */
    method Place(lo: nat, n: nat)
      requires Valid() && lo + n <= mover.slot.Length && 0 < n <= TotalBytes(file.slices) - received && patience > 0
      modifies this`received, this`patience, this`trace, mover.device.memory
      ensures Valid() && received == old(received) + n && patience == old(patience) - 1
      ensures trace == old(trace) + [Delivery(file, old(received), old(mover.slot[lo..lo + n]))]
    {
      ghost var x := mover.device.State(mover.slot);
      ghost var d := Delivery(file, received, x.host[lo..lo + n]);
      PartsSized(file.slices, mover.regions, selected, |base|);
      UploadPuts(x, d, lo, mover.regions, selected);
      PutMore(base, trace, d, mover.regions, selected);
      var copied := mover.CopyRange(file.slices, selected, received, n, mover.slot, lo, true);
      received, patience, trace := received + n, patience - 1, trace + [d];
    }

    /** Takes the next range of the open file into the staging buffer, and from
        there to its pages. */
    method Receive(bytes: seq<Byte>, lo: nat) returns (ok: bool)
      requires Valid() && lo + |bytes| <= mover.slot.Length
      modifies this`received, this`patience, this`trace, mover.device.memory, mover.slot
      ensures Valid()
      ensures ok <==> old(patience) > 0 && 0 < |bytes| <= TotalBytes(file.slices) - old(received)
      ensures ok ==> trace == old(trace) + [Delivery(file, old(received), bytes)] && received == old(received) + |bytes|
      ensures !ok ==> trace == old(trace) && received == old(received)
      ensures patience == if ok then old(patience) - 1 else old(patience)
    {
      Stage(bytes, lo);
      ok := patience > 0 && 0 < |bytes| <= Min(mover.slot.Length, TotalBytes(file.slices) - received);
      if ok {
        Place(lo, |bytes|);
      }
    }

    /** A file is accepted only when all of it was received. */
    method Close() returns (ok: bool)
      requires Valid()
      ensures ok <==> received == TotalBytes(file.slices)
    {
      ok := received == TotalBytes(file.slices);
    }
  }

  // ---- streaming ----

  /** What was delivered is the program up to some point, and no further. */
  ghost predicate CutShort(before: seq<Delivery>, trace: seq<Delivery>, program: seq<Delivery>) {
    && |before| <= |trace| < |before| + |program|
    && trace == before + program[..|trace| - |before|]
  }

  lemma CutShortLater(before: seq<Delivery>, done: seq<Delivery>, trace: seq<Delivery>, program: seq<Delivery>, all: seq<Delivery>)
    requires CutShort(before + done, trace, program) && done + program <= all
    ensures CutShort(before, trace, all)
  {
    assert all[..|trace| - |before|] == done + program[..|trace| - |before + done|];
  }

  lemma CutWithin(before: seq<Delivery>, done: seq<Delivery>, next: seq<Delivery>, all: seq<Delivery>)
    requires done + next <= all && next != []
    ensures CutShort(before, before + done, all)
  {
    assert all[..|done|] == (done + next)[..|done|] == done;
  }

  /** The next range of a file that is streamed block by block. */
  lemma NextBlock(before: seq<Delivery>, d: Sealed, unit: nat, done: seq<Delivery>, start: nat)
    requires unit > 0 && start < |d.published| && Blocks(d, unit, 0) == done + Blocks(d, unit, start)
    ensures var end := Min(start + unit, |d.published|);
      && end > start
      && Blocks(d, unit, 0) == (done + [Delivery(d, start, d.published[start..end])]) + Blocks(d, unit, end)
    ensures CutShort(before, before + done, Blocks(d, unit, 0))
  {
    var end := Min(start + unit, |d.published|);
    var x := Delivery(d, start, d.published[start..end]);
    Associates(done, [x], Blocks(d, unit, end));
    CutWithin(before, done, Blocks(d, unit, start), Blocks(d, unit, 0));
  }

  lemma RangeDecides(published: seq<Byte>, bytes: seq<Byte>, start: nat, end: nat)
    requires start <= end <= |published| && published <= bytes
    ensures end <= |bytes| && bytes[start..end] == published[start..end]
  {
  }

  predicate RangeMatches(published: seq<Byte>, bytes: seq<Byte>, start: nat, end: nat)
    requires start <= end <= |published|
  {
    end <= |bytes| && bytes[start..end] == published[start..end]
  }

  /** One range: read, compared with what was published, and placed. */
  method StreamRange(d: Sealed, bytes: seq<Byte>, receiver: Receiver, start: nat, end: nat) returns (outcome: Outcome)
    requires receiver.Valid() && receiver.file == d && |d.published| == TotalBytes(d.slices)
    requires receiver.received == start < end <= |d.published| && end - start <= receiver.mover.slot.Length
    modifies receiver, receiver.mover.device.memory, receiver.mover.slot
    ensures receiver.Valid() && receiver.file == d
    ensures outcome.Done? ==> receiver.trace == old(receiver.trace) + [Delivery(d, start, d.published[start..end])]
    ensures outcome.Done? ==> receiver.received == end
    ensures receiver.patience + |receiver.trace| == old(receiver.patience + |receiver.trace|)
    ensures outcome.Failed? && outcome.blamed.None? ==> receiver.patience == 0
    ensures outcome.Failed? ==> receiver.trace == old(receiver.trace)
    ensures outcome.Failed? && outcome.blamed.Some? ==> outcome.blamed.value == d.key && !(d.published <= bytes)
    ensures !outcome.Refused?
  {
    if !RangeMatches(d.published, bytes, start, end) {
      if d.published <= bytes { RangeDecides(d.published, bytes, start, end); }
      return Failed(Some(d.key));
    }
    var piece := bytes[start..end];
    var ok := receiver.Receive(piece, 0);
    outcome := if ok then Done else Failed(None);
  }

  /** All ranges of an open file. */
  method StreamBlocks(d: Sealed, bytes: seq<Byte>, receiver: Receiver, unit: nat) returns (outcome: Outcome)
    requires receiver.Valid() && receiver.file == d && receiver.received == 0 && |d.published| == TotalBytes(d.slices)
    requires 0 < unit <= receiver.mover.slot.Length
    modifies receiver, receiver.mover.device.memory, receiver.mover.slot
    ensures receiver.Valid() && receiver.file == d
    ensures outcome.Done? ==> receiver.trace == old(receiver.trace) + Blocks(d, unit, 0) && receiver.received == |d.published|
    ensures outcome.Failed? ==> CutShort(old(receiver.trace), receiver.trace, Blocks(d, unit, 0))
    ensures receiver.patience + |receiver.trace| == old(receiver.patience + |receiver.trace|)
    ensures outcome.Failed? && outcome.blamed.None? ==> receiver.patience == 0
    ensures outcome.Failed? && outcome.blamed.Some? ==> outcome.blamed.value == d.key && !(d.published <= bytes)
    ensures !outcome.Refused?
  {
    var start := 0;
    ghost var before := receiver.trace;
    ghost var done: seq<Delivery> := [];
    while start < |d.published|
      invariant 0 <= start <= |d.published|
      invariant Blocks(d, unit, 0) == done + Blocks(d, unit, start)
      invariant receiver.Valid() && receiver.file == d && receiver.received == start
      invariant receiver.trace == before + done
      invariant receiver.patience + |receiver.trace| == old(receiver.patience + |receiver.trace|)
    {
      var end := Min(start + unit, |d.published|);
      ghost var x := Delivery(d, start, d.published[start..end]);
      NextBlock(before, d, unit, done, start);
      outcome := StreamRange(d, bytes, receiver, start, end);
      if !outcome.Done? {
        return;
      }
      Associates(before, done, [x]);
      done := done + [x];
      start := end;
    }
    outcome := Done;
  }

  /** A file that exceeds the credit: each range is authenticated, then placed. */
  method StreamLarge(d: Sealed, disk: map<FileKey, OnDisk>, receiver: Receiver, unit: nat) returns (outcome: Outcome)
    requires receiver.Valid() && Ready(d, receiver.mover, receiver.selected)
    requires 0 < unit <= receiver.mover.slot.Length < |d.published|
    modifies receiver, receiver.mover.device.memory, receiver.mover.slot
    ensures receiver.Valid()
    ensures outcome.Done? ==> receiver.trace == old(receiver.trace) + Ranges(d, unit, receiver.mover.slot.Length)
    ensures outcome.Failed? ==> CutShort(old(receiver.trace), receiver.trace, Ranges(d, unit, receiver.mover.slot.Length))
    ensures receiver.patience + |receiver.trace| == old(receiver.patience + |receiver.trace|)
    ensures outcome.Failed? && outcome.blamed.None? ==> receiver.patience == 0
    ensures outcome.Failed? && outcome.blamed.Some? ==> outcome.blamed.value == d.key && !Intact(d, disk)
    ensures !outcome.Refused?
  {
    if d.key !in disk || disk[d.key].header != d {
      return Failed(Some(d.key));
    }
    receiver.Open(d);
    outcome := StreamBlocks(d, disk[d.key].bytes, receiver, unit);
    if outcome.Done? {
      var complete := receiver.Close();
      outcome := if complete then Done else Failed(None);
    }
  }

  function Total(batch: seq<Sealed>): nat {
    if batch == [] then 0 else Total(batch[..|batch| - 1]) + |batch[|batch| - 1].published|
  }

  lemma {:induction false} TotalBound(batch: seq<Sealed>, i: nat)
    requires i < |batch|
    ensures Total(batch[..i]) + |batch[i].published| <= Total(batch)
  {
    if i < |batch| - 1 {
      TotalBound(batch[..|batch| - 1], i);
      assert batch[..|batch| - 1][..i] == batch[..i];
    }
  }

  lemma {:induction false} ProgramAppend(a: seq<Sealed>, b: seq<Sealed>, unit: nat, credit: nat)
    requires unit > 0
    ensures Program(a + b, unit, credit) == Program(a, unit, credit) + Program(b, unit, credit)
  {
    if b == [] {
      assert a + b == a;
    } else {
      var front, last := b[..|b| - 1], b[|b| - 1];
      ProgramAppend(a, front, unit, credit);
      ProgramLast(a + b, unit, credit);
      ProgramLast(b, unit, credit);
      assert (a + b)[..|a + b| - 1] == a + front && (a + b)[|a + b| - 1] == last;
      Associates(Program(a, unit, credit), Program(front, unit, credit), Ranges(last, unit, credit));
    }
  }

  lemma ProgramLast(descs: seq<Sealed>, unit: nat, credit: nat)
    requires unit > 0 && descs != []
    ensures Program(descs, unit, credit) ==
            Program(descs[..|descs| - 1], unit, credit) + Ranges(descs[|descs| - 1], unit, credit)
  {
  }

  lemma Associates<T>(x: seq<T>, y: seq<T>, z: seq<T>)
    ensures (x + y) + z == x + (y + z)
  {
  }

  /** The program up to file `i`, then that file's ranges, begin the program. */
  lemma ProgramAt(descs: seq<Sealed>, i: nat, j: nat, unit: nat, credit: nat)
    requires unit > 0 && i <= j <= |descs|
    ensures Program(descs[..j], unit, credit) == Program(descs[..i], unit, credit) + Program(descs[i..j], unit, credit)
    ensures Program(descs[..j], unit, credit) <= Program(descs, unit, credit)
  {
    assert descs[..j] == descs[..i] + descs[i..j];
    assert descs == descs[..j] + descs[j..];
    ProgramAppend(descs[..i], descs[i..j], unit, credit);
    ProgramAppend(descs[..j], descs[j..], unit, credit);
  }

  lemma BytesDecide(published: seq<Byte>, bytes: seq<Byte>)
    requires |published| <= |bytes|
    ensures bytes[..|published|] == published <==> published <= bytes
  {
  }

  /** Places an authenticated small file. */
  method PlaceWhole(d: Sealed, view: seq<Byte>, receiver: Receiver, unit: nat, offset: nat) returns (ok: bool)
    requires receiver.Valid() && Ready(d, receiver.mover, receiver.selected)
    requires 0 < unit && offset + |d.published| <= receiver.mover.slot.Length && view == d.published
    modifies receiver, receiver.mover.device.memory, receiver.mover.slot
    ensures receiver.Valid() && (!ok ==> receiver.patience == 0)
    ensures receiver.trace == if ok then old(receiver.trace) + Ranges(d, unit, receiver.mover.slot.Length) else old(receiver.trace)
    ensures receiver.patience == if ok then old(receiver.patience) - 1 else old(receiver.patience)
  {
    receiver.Open(d);
    ok := receiver.Receive(view, offset);
    if ok {
      ok := receiver.Close();
    }
  }

  /** One small file, read whole into its part of the credit. */
  method StreamSmall(d: Sealed, disk: map<FileKey, OnDisk>, receiver: Receiver, unit: nat, offset: nat) returns (outcome: Outcome)
    requires receiver.Valid() && Ready(d, receiver.mover, receiver.selected)
    requires 0 < unit && offset + |d.published| <= receiver.mover.slot.Length
    modifies receiver, receiver.mover.device.memory, receiver.mover.slot
    ensures receiver.Valid()
    ensures receiver.patience + |receiver.trace| == old(receiver.patience + |receiver.trace|)
    ensures outcome.Done? ==> receiver.trace == old(receiver.trace) + Ranges(d, unit, receiver.mover.slot.Length)
    ensures !outcome.Done? ==> receiver.trace == old(receiver.trace)
    ensures outcome.Failed? && outcome.blamed.None? ==> receiver.patience == 0
    ensures outcome.Failed? && outcome.blamed.Some? ==> outcome.blamed.value == d.key && !Intact(d, disk)
    ensures !outcome.Refused?
  {
    if d.key !in disk || disk[d.key].header != d || |disk[d.key].bytes| < |d.published| {
      return Failed(Some(d.key));
    }
    var view := disk[d.key].bytes[..|d.published|];
    BytesDecide(d.published, disk[d.key].bytes);
    var authentic := VerifyBuffer(view, d, unit);
    if !authentic {
      return Failed(Some(d.key));
    }
    var ok := PlaceWhole(d, view, receiver, unit, offset);
    outcome := if ok then Done else Failed(None);
  }

  lemma RangesNonEmpty(d: Sealed, unit: nat, credit: nat)
    requires unit > 0
    ensures Ranges(d, unit, credit) != []
  {
  }

  /** Stopped before file `i`: cut short. */
  lemma StoppedAt(before: seq<Delivery>, descs: seq<Sealed>, i: nat, unit: nat, credit: nat)
    requires unit > 0 && i < |descs|
    ensures CutShort(before, before + Program(descs[..i], unit, credit), Program(descs, unit, credit))
  {
    ProgramAt(descs, i, i + 1, unit, credit);
    assert descs[i..i + 1] == [descs[i]];
    SingleProgram(descs[i], unit, credit);
    RangesNonEmpty(descs[i], unit, credit);
    CutWithin(before, Program(descs[..i], unit, credit), Ranges(descs[i], unit, credit), Program(descs, unit, credit));
  }

  lemma BatchStep(before: seq<Delivery>, batch: seq<Sealed>, i: nat, unit: nat, credit: nat)
    requires unit > 0 && i < |batch|
    ensures before + Program(batch[..i], unit, credit) + Ranges(batch[i], unit, credit) == before + Program(batch[..i + 1], unit, credit)
    ensures Total(batch[..i + 1]) == Total(batch[..i]) + |batch[i].published|
  {
    ProgramLast(batch[..i + 1], unit, credit);
    assert batch[..i + 1][..i] == batch[..i];
    Associates(before, Program(batch[..i], unit, credit), Ranges(batch[i], unit, credit));
  }

  /** Small files share one credit, each at its own offset. */
  method StreamBatch(batch: seq<Sealed>, disk: map<FileKey, OnDisk>, receiver: Receiver, unit: nat) returns (outcome: Outcome)
    requires receiver.Valid() && AllReady(batch, receiver.mover, receiver.selected)
    requires 0 < unit && Total(batch) <= receiver.mover.slot.Length
    modifies receiver, receiver.mover.device.memory, receiver.mover.slot
    ensures receiver.Valid()
    ensures outcome.Done? ==> receiver.trace == old(receiver.trace) + Program(batch, unit, receiver.mover.slot.Length)
    ensures outcome.Failed? ==> CutShort(old(receiver.trace), receiver.trace, Program(batch, unit, receiver.mover.slot.Length))
    ensures receiver.patience + |receiver.trace| == old(receiver.patience + |receiver.trace|)
    ensures outcome.Failed? && outcome.blamed.None? ==> receiver.patience == 0
    ensures outcome.Failed? && outcome.blamed.Some? ==>
      exists i :: 0 <= i < |batch| && batch[i].key == outcome.blamed.value && !Intact(batch[i], disk)
    ensures !outcome.Refused?
  {
    ghost var credit := receiver.mover.slot.Length;
    var i, offset := 0, 0;
    ghost var sent: seq<Delivery> := [];
    while i < |batch|
      invariant 0 <= i <= |batch| && offset == Total(batch[..i])
      invariant receiver.Valid()
      invariant receiver.patience + |receiver.trace| == old(receiver.patience + |receiver.trace|)
      invariant sent == Program(batch[..i], unit, credit) && receiver.trace == old(receiver.trace) + sent
    {
      TotalBound(batch, i);
      outcome := StreamSmall(batch[i], disk, receiver, unit, offset);
      if !outcome.Done? {
        StoppedAt(old(receiver.trace), batch, i, unit, credit);
        return;
      }
      BatchStep(old(receiver.trace), batch, i, unit, credit);
      sent := Program(batch[..i + 1], unit, credit);
      offset := offset + |batch[i].published|;
      i := i + 1;
    }
    assert batch[..i] == batch;
    outcome := Done;
  }

  /** The next files that fit one credit together, at most sixteen. */
  method NextBatch(descs: seq<Sealed>, cursor: nat, credit: nat) returns (next: nat)
    requires cursor < |descs| && |descs[cursor].published| <= credit
    ensures cursor < next <= |descs| && next - cursor <= MAX_BATCH_CHUNKS
    ensures Total(descs[cursor..next]) <= credit
    ensures next < |descs| && next - cursor < MAX_BATCH_CHUNKS ==> Total(descs[cursor..next + 1]) > credit
  {
    next := cursor;
    var bytes := 0;
    while next < |descs| && next - cursor < MAX_BATCH_CHUNKS
      invariant cursor <= next <= |descs| && next - cursor <= MAX_BATCH_CHUNKS
      invariant bytes == Total(descs[cursor..next]) && bytes <= credit
      invariant next == cursor ==> bytes == 0
    {
      assert descs[cursor..next + 1][..next - cursor] == descs[cursor..next];
      if next > cursor && bytes + |descs[next].published| > credit {
        break;
      }
      bytes := bytes + |descs[next].published|;
      next := next + 1;
    }
  }

  predicate Creditable(descs: seq<Sealed>, unit: nat, credit: nat) {
    forall i :: 0 <= i < |descs| ==> Min(|descs[i].published|, unit) <= credit
  }

  ghost predicate AllReady(descs: seq<Sealed>, mover: Mover, selected: Selection) {
    forall i :: 0 <= i < |descs| ==> Ready(descs[i], mover, selected)
  }

  /** The next file, when it exceeds a credit, or the next batch. */
  method StreamSome(descs: seq<Sealed>, cursor: nat, disk: map<FileKey, OnDisk>, receiver: Receiver, unit: nat)
    returns (outcome: Outcome, next: nat)
    requires receiver.Valid() && AllReady(descs, receiver.mover, receiver.selected)
    requires 0 < unit && cursor < |descs| && Creditable(descs, unit, receiver.mover.slot.Length)
    modifies receiver, receiver.mover.device.memory, receiver.mover.slot
    ensures receiver.Valid() && cursor < next <= |descs|
    ensures var some := Program(descs[cursor..next], unit, receiver.mover.slot.Length);
      && (outcome.Done? ==> receiver.trace == old(receiver.trace) + some)
      && (outcome.Failed? ==> CutShort(old(receiver.trace), receiver.trace, some))
    ensures receiver.patience + |receiver.trace| == old(receiver.patience + |receiver.trace|)
    ensures outcome.Failed? && outcome.blamed.None? ==> receiver.patience == 0
    ensures outcome.Failed? && outcome.blamed.Some? ==>
      exists i :: 0 <= i < |descs| && descs[i].key == outcome.blamed.value && !Intact(descs[i], disk)
    ensures !outcome.Refused?
  {
    var credit := receiver.mover.slot.Length;
    if |descs[cursor].published| > credit {
      next := cursor + 1;
      outcome := StreamLarge(descs[cursor], disk, receiver, unit);
      SingleProgram(descs[cursor], unit, credit);
      assert descs[cursor..next] == [descs[cursor]];
    } else {
      next := NextBatch(descs, cursor, credit);
      outcome := StreamBatch(descs[cursor..next], disk, receiver, unit);
    }
  }

  /** Normal return places every range of every file once and in order; a
      failure leaves an authentic prefix of that. */
  method StreamObjects(descs: seq<Sealed>, disk: map<FileKey, OnDisk>, receiver: Receiver, unit: nat) returns (outcome: Outcome)
    requires receiver.Valid() && AllReady(descs, receiver.mover, receiver.selected) && 0 < unit
    modifies receiver, receiver.mover.device.memory, receiver.mover.slot
    ensures receiver.Valid()
    ensures outcome.Refused? <==> !Creditable(descs, unit, receiver.mover.slot.Length)
    ensures outcome.Refused? ==> receiver.trace == old(receiver.trace)
    ensures outcome.Done? ==> receiver.trace == old(receiver.trace) + Program(descs, unit, receiver.mover.slot.Length)
    ensures outcome.Failed? ==> CutShort(old(receiver.trace), receiver.trace, Program(descs, unit, receiver.mover.slot.Length))
    ensures receiver.patience + |receiver.trace| == old(receiver.patience + |receiver.trace|)
    ensures outcome.Failed? && outcome.blamed.None? ==> receiver.patience == 0
    ensures outcome.Failed? && outcome.blamed.Some? ==>
      exists i :: 0 <= i < |descs| && descs[i].key == outcome.blamed.value && !Intact(descs[i], disk)
  {
    ghost var credit := receiver.mover.slot.Length;
    if !Creditable(descs, unit, receiver.mover.slot.Length) {
      return Refused;
    }
    var cursor := 0;
    ghost var sent: seq<Delivery> := [];
    while cursor < |descs|
      invariant 0 <= cursor <= |descs| && receiver.Valid()
      invariant receiver.patience + |receiver.trace| == old(receiver.patience + |receiver.trace|)
      invariant sent == Program(descs[..cursor], unit, credit) && receiver.trace == old(receiver.trace) + sent
    {
      var next;
      outcome, next := StreamSome(descs, cursor, disk, receiver, unit);
      ghost var some := Program(descs[cursor..next], unit, credit);
      ProgramAt(descs, cursor, next, unit, credit);
      if !outcome.Done? {
        CutShortLater(old(receiver.trace), sent, receiver.trace, some, Program(descs, unit, credit));
        return;
      }
      Associates(old(receiver.trace), sent, some);
      sent := sent + some;
      cursor := next;
    }
    assert descs[..cursor] == descs;
    outcome := Done;
  }

  lemma SingleProgram(d: Sealed, unit: nat, credit: nat)
    requires unit > 0
    ensures Program([d], unit, credit) == Ranges(d, unit, credit)
  {
    assert [d][..0] == [];
  }
}
