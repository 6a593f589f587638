/** Saving a prefix: packed captures cut into files, and large files streamed
    range by range, store exactly the selected pages' bytes. */
module TokenCommit {
  import opened Collections
  import opened Hma
  import opened PageBytes
  import opened PageMover
  import opened PageTransfer
  import opened RoundTrip
  import opened TokenFiles

  // ---- addresses of several files ----

  lemma PlacedParts(a: seq<PageSlice>, b: seq<PageSlice>, regions: Regions, selected: Selection, size: nat)
    ensures AllPlaced(a + b, regions, selected, size) <==>
            AllPlaced(a, regions, selected, size) && AllPlaced(b, regions, selected, size)
  {
    var all := a + b;
    assert forall i :: 0 <= i < |a| ==> all[i] == a[i];
    assert forall i :: 0 <= i < |b| ==> all[|a| + i] == b[i];
  }

  lemma AddressesAppend(a: seq<PageSlice>, b: seq<PageSlice>, regions: Regions, selected: Selection, size: nat)
    requires AllPlaced(a, regions, selected, size) && AllPlaced(b, regions, selected, size)
    ensures AllPlaced(a + b, regions, selected, size)
    ensures FileAddresses(a + b, regions, selected, size) ==
            FileAddresses(a, regions, selected, size) + FileAddresses(b, regions, selected, size)
  {
    PlacedParts(a, b, regions, selected, size);
    assert FileParts(a + b, regions, selected, size) == FileParts(a, regions, selected, size) + FileParts(b, regions, selected, size);
    CatAppend(FileParts(a, regions, selected, size), FileParts(b, regions, selected, size));
  }

  ghost predicate FilesPlaced(files: seq<seq<PageSlice>>, regions: Regions, selected: Selection, size: nat) {
    forall j :: 0 <= j < |files| ==> AllPlaced(files[j], regions, selected, size)
  }

  lemma {:induction false} JoinedPlaced(files: seq<seq<PageSlice>>, regions: Regions, selected: Selection, size: nat)
    requires FilesPlaced(files, regions, selected, size)
    ensures AllPlaced(Joined(files), regions, selected, size)
  {
    if files != [] {
      JoinedPlaced(files[..|files| - 1], regions, selected, size);
      PlacedParts(Joined(files[..|files| - 1]), files[|files| - 1], regions, selected, size);
    }
  }

  /** A file's bytes in a packed capture start where the files before it end. */
  lemma FileInPack(files: seq<seq<PageSlice>>, j: nat, regions: Regions, selected: Selection, size: nat)
    requires FilesPlaced(files, regions, selected, size) && j < |files|
    ensures AllPlaced(Joined(files), regions, selected, size) && AllPlaced(Joined(files[..j]), regions, selected, size)
    ensures var all, from, own := FileAddresses(Joined(files), regions, selected, size),
                TotalBytes(Joined(files[..j])), FileAddresses(files[j], regions, selected, size);
      && |own| == TotalBytes(files[j]) && from + |own| <= |all| && all[from..from + |own|] == own
      && TotalBytes(Joined(files[..j + 1])) == from + |own|
  {
    JoinedPlaced(files, regions, selected, size);
    JoinedPlaced(files[..j], regions, selected, size);
    JoinedPlaced(files[j + 1..], regions, selected, size);
    JoinedAt(files, j);
    var a, b, c := Joined(files[..j]), files[j], Joined(files[j + 1..]);
    AddressesAppend(a, b, regions, selected, size);
    AddressesAppend(a + b, c, regions, selected, size);
    PartsSized(a, regions, selected, size);
    PartsSized(b, regions, selected, size);
    PartsSized(a + b, regions, selected, size);
  }

  lemma ReadSlice(memory: seq<Byte>, addresses: seq<nat>, from: nat, to: nat)
    requires Within(addresses, |memory|) && from <= to <= |addresses|
    ensures Within(addresses[from..to], |memory|)
    ensures Read(memory, addresses)[from..to] == Read(memory, addresses[from..to])
  {
  }

  lemma ReadJoin(memory: seq<Byte>, addresses: seq<nat>, mid: nat, to: nat)
    requires Within(addresses, |memory|) && mid <= to <= |addresses|
    ensures Within(addresses[..mid], |memory|) && Within(addresses[mid..to], |memory|) && Within(addresses[..to], |memory|)
    ensures Read(memory, addresses[..mid]) + Read(memory, addresses[mid..to]) == Read(memory, addresses[..to])
  {
  }

  lemma ReadPart(memory: seq<Byte>, all: seq<nat>, own: seq<nat>, from: nat, to: nat)
    requires Within(all, |memory|) && from <= to <= |all| && all[from..to] == own
    ensures Within(own, |memory|) && Read(memory, all)[from..to] == Read(memory, own)
  {
    ReadSlice(memory, all, from, to);
  }

  /** Cutting a packed capture at a file's offset yields that file's pages. */
  lemma CutPayload(files: seq<seq<PageSlice>>, j: nat, regions: Regions, selected: Selection, memory: seq<Byte>, data: seq<Byte>)
    requires FilesPlaced(files, regions, selected, |memory|) && j < |files|
    requires AllPlaced(Joined(files), regions, selected, |memory|) && data == Captured(Joined(files), regions, selected, memory)
    ensures var from := TotalBytes(Joined(files[..j]));
      && TotalBytes(Joined(files[..j + 1])) == from + TotalBytes(files[j]) <= |data|
      && data[from..from + TotalBytes(files[j])] == Captured(files[j], regions, selected, memory)
  {
    var all, own := FileAddresses(Joined(files), regions, selected, |memory|), FileAddresses(files[j], regions, selected, |memory|);
    var from := TotalBytes(Joined(files[..j]));
    FileInPack(files, j, regions, selected, |memory|);
    AllWithin(Joined(files), regions, selected, |memory|);
    ReadPart(memory, all, own, from, from + TotalBytes(files[j]));
  }

  ghost predicate PayloadsAre(payloads: seq<seq<Byte>>, files: seq<seq<PageSlice>>, regions: Regions, selected: Selection,
                              memory: seq<Byte>)
    requires FilesPlaced(files, regions, selected, |memory|)
  {
    |payloads| <= |files| && forall j :: 0 <= j < |payloads| ==> payloads[j] == Captured(files[j], regions, selected, memory)
  }

  /** Captures several files in one credit and cuts the view into payloads. */
  method CaptureFiles(mover: Mover, files: seq<seq<PageSlice>>, selected: Selection) returns (payloads: seq<seq<Byte>>)
    requires mover.Valid() && FilesPlaced(files, mover.regions, selected, mover.device.memory.Length)
    requires 0 < TotalBytes(Joined(files)) <= mover.slot.Length
    modifies mover.slot
    ensures |payloads| == |files| && PayloadsAre(payloads, files, mover.regions, selected, mover.device.memory[..])
  {
    var data := CapturePack(mover, Joined(files), files, selected);
    payloads := Cut(data, files, mover.regions, selected, mover.device.memory[..]);
  }

  method CapturePack(mover: Mover, slices: seq<PageSlice>, ghost files: seq<seq<PageSlice>>, selected: Selection) returns (data: seq<Byte>)
    requires mover.Valid() && FilesPlaced(files, mover.regions, selected, mover.device.memory.Length)
    requires slices == Joined(files) && 0 < TotalBytes(slices) <= mover.slot.Length
    modifies mover.slot
    ensures AllPlaced(slices, mover.regions, selected, mover.device.memory.Length)
    ensures data == Captured(slices, mover.regions, selected, mover.device.memory[..])
  {
    JoinedPlaced(files, mover.regions, selected, mover.device.memory.Length);
    PartsSized(slices, mover.regions, selected, mover.device.memory.Length);
    var ok;
    ok, data := mover.Capture(slices, selected, 0, TotalBytes(slices));
    ghost var all := mover.Addresses(slices, selected);
    assert all[0..|all|] == all;
  }

  method Cut(data: seq<Byte>, files: seq<seq<PageSlice>>, ghost regions: Regions, ghost selected: Selection, ghost memory: seq<Byte>)
    returns (payloads: seq<seq<Byte>>)
    requires FilesPlaced(files, regions, selected, |memory|)
    requires AllPlaced(Joined(files), regions, selected, |memory|) && data == Captured(Joined(files), regions, selected, memory)
    ensures |payloads| == |files| && PayloadsAre(payloads, files, regions, selected, memory)
  {
    payloads := [];
    var offset := 0;
    while |payloads| < |files|
      invariant |payloads| <= |files| && offset == TotalBytes(Joined(files[..|payloads|]))
      invariant PayloadsAre(payloads, files, regions, selected, memory)
    {
      var length := TotalBytes(files[|payloads|]);
      CutPayload(files, |payloads|, regions, selected, memory, data);
      payloads := payloads + [data[offset..offset + length]];
      offset := offset + length;
    }
  }

  /** Captures one file in ranges of at most `step` bytes. */
  method CaptureStreamed(mover: Mover, slices: seq<PageSlice>, selected: Selection, step: nat) returns (payload: seq<Byte>)
    requires mover.Valid() && AllPlaced(slices, mover.regions, selected, mover.device.memory.Length)
    requires 0 < step <= mover.slot.Length
    modifies mover.slot
    ensures payload == Captured(slices, mover.regions, selected, mover.device.memory[..])
  {
    ghost var all := mover.Addresses(slices, selected);
    PartsSized(slices, mover.regions, selected, mover.device.memory.Length);
    AllWithin(slices, mover.regions, selected, mover.device.memory.Length);
    var length, start := TotalBytes(slices), 0;
    payload := [];
    assert all[..0] == [];
    while start < length
      invariant 0 <= start <= length == |all|
      invariant Within(all[..start], mover.device.memory.Length)
      invariant payload == Read(mover.device.memory[..], all[..start])
    {
      var n := Min(step, length - start);
      var ok, piece := mover.Capture(slices, selected, start, n);
      ReadJoin(mover.device.memory[..], all, start, start + n);
      payload := payload + piece;
      start := start + n;
    }
    assert all[..start] == all;
  }

  // ---- file by file is the whole chain ----

  /** The payloads of a chain's files, put together, are one capture of all. */
  lemma {:induction false} PayloadsTogether(files: seq<seq<PageSlice>>, payloads: seq<seq<Byte>>, regions: Regions,
                                            selected: Selection, memory: seq<Byte>)
    requires FilesPlaced(files, regions, selected, |memory|) && |payloads| == |files|
    requires PayloadsAre(payloads, files, regions, selected, memory)
    ensures AllPlaced(Joined(files), regions, selected, |memory|)
    ensures Cat(payloads) == Captured(Joined(files), regions, selected, memory)
  {
    JoinedPlaced(files, regions, selected, |memory|);
    AllWithin(Joined(files), regions, selected, |memory|);
    if files != [] {
      var n := |files| - 1;
      PayloadsTogether(files[..n], payloads[..n], regions, selected, memory);
      AddressesAppend(Joined(files[..n]), files[n], regions, selected, |memory|);
      AllWithin(Joined(files[..n]), regions, selected, |memory|);
      AllWithin(files[n], regions, selected, |memory|);
      ReadBoth(memory, FileAddresses(Joined(files[..n]), regions, selected, |memory|),
               FileAddresses(files[n], regions, selected, |memory|));
    }
  }

  lemma ReadBoth(memory: seq<Byte>, a: seq<nat>, b: seq<nat>)
    requires Within(a, |memory|) && Within(b, |memory|)
    ensures Within(a + b, |memory|) && Read(memory, a + b) == Read(memory, a) + Read(memory, b)
  {
  }

  ghost predicate PayloadsFit(files: seq<seq<PageSlice>>, payloads: seq<seq<Byte>>) {
    |payloads| == |files| && forall j :: 0 <= j < |files| ==> |payloads[j]| == TotalBytes(files[j])
  }

  /** The memory after the files have been placed one after another. */
  ghost function RestoredFiles(files: seq<seq<PageSlice>>, payloads: seq<seq<Byte>>, regions: Regions, selected: Selection,
                               memory: seq<Byte>): (after: seq<Byte>)
    requires FilesPlaced(files, regions, selected, |memory|) && PayloadsFit(files, payloads)
    ensures |after| == |memory|
  {
    if files == [] then memory else
      var n := |files| - 1;
      PartsSized(files[n], regions, selected, |memory|);
      Restored(files[n], regions, selected,
               RestoredFiles(files[..n], payloads[..n], regions, selected, memory), payloads[n])
  }

  /** Placing file after file is one restore of the whole chain. */
  lemma {:induction false} RestoreInOrder(files: seq<seq<PageSlice>>, payloads: seq<seq<Byte>>, regions: Regions,
                                          selected: Selection, memory: seq<Byte>)
    requires FilesPlaced(files, regions, selected, |memory|) && PayloadsFit(files, payloads)
    ensures AllPlaced(Joined(files), regions, selected, |memory|)
    ensures |Cat(payloads)| == |FileAddresses(Joined(files), regions, selected, |memory|)|
    ensures RestoredFiles(files, payloads, regions, selected, memory) ==
            Restored(Joined(files), regions, selected, memory, Cat(payloads))
  {
    JoinedPlaced(files, regions, selected, |memory|);
    if files != [] {
      var n := |files| - 1;
      RestoreInOrder(files[..n], payloads[..n], regions, selected, memory);
      AddressesAppend(Joined(files[..n]), files[n], regions, selected, |memory|);
      PartsSized(files[n], regions, selected, |memory|);
      AllWithin(Joined(files[..n]), regions, selected, |memory|);
      AllWithin(files[n], regions, selected, |memory|);
      WriteAppend(memory, FileAddresses(Joined(files[..n]), regions, selected, |memory|),
                  FileAddresses(files[n], regions, selected, |memory|), Cat(payloads[..n]), payloads[n]);
    }
  }

  /** End to end: files captured through one block table and placed in order
      through another put every byte of every required page where it belongs. */
  lemma SavedPrefixRestores(files: seq<seq<PageSlice>>, needs: map<LayerKey, Need>, payloads: seq<seq<Byte>>,
                            source: Regions, from: Selection, m: seq<Byte>, target: Regions, to: Selection, n: seq<Byte>,
                            blocks: nat, c: Cell)
    requires Covers(Joined(files), needs) && forall i :: 0 <= i < |Joined(files)| ==> ValidSlice(Joined(files)[i])
    requires Bound(source, from, needs, |m|) && Bound(target, to, needs, |n|)
    requires OwnMemory(target, blocks) && UsableSelection(to, blocks) && Required(c, needs)
    requires FilesPlaced(files, source, from, |m|) && FilesPlaced(files, target, to, |n|)
    requires |payloads| == |files| && PayloadsAre(payloads, files, source, from, m)
    ensures PayloadsFit(files, payloads)
    ensures AddressOf(c, target, to) < |n| && AddressOf(c, source, from) < |m|
    ensures RestoredFiles(files, payloads, target, to, n)[AddressOf(c, target, to)] == m[AddressOf(c, source, from)]
  {
    PayloadsTogether(files, payloads, source, from, m);
    forall j | 0 <= j < |files| ensures |payloads[j]| == TotalBytes(files[j]) {
      PartsSized(files[j], source, from, |m|);
    }
    RestoreInOrder(files, payloads, target, to, n);
    RestoreAfterCapture(Joined(files), needs, source, from, m, target, to, n, blocks, c);
  }
}
