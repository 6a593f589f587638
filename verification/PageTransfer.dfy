/** Byte ranges of packed files against the page slices they are made of. */
module PageTransfer {
  import opened Collections
  import opened Hma
  import opened PageBytes
  import opened PageMover

  // ---- byte ranges of an ordered list of parts ----

  /** `size` bytes of part `index` from `offset` on. */
  datatype Piece = Piece(index: nat, offset: nat, size: nat)

  function Cat<T>(parts: seq<seq<T>>): seq<T> {
    if parts == [] then [] else Cat(parts[..|parts| - 1]) + parts[|parts| - 1]
  }

  lemma {:induction false} CatAppend<T>(a: seq<seq<T>>, b: seq<seq<T>>)
    ensures Cat(a + b) == Cat(a) + Cat(b)
  {
    if b == [] {
      assert a + b == a;
    } else {
      assert (a + b)[..|a + b| - 1] == a + b[..|b| - 1];
      CatAppend(a, b[..|b| - 1]);
    }
  }

  lemma CatStep<T>(parts: seq<seq<T>>, i: nat)
    requires i < |parts|
    ensures Cat(parts[..i + 1]) == Cat(parts[..i]) + parts[i]
    ensures |Cat(parts[..i])| + |parts[i]| <= |Cat(parts)|
    ensures Cat(parts)[|Cat(parts[..i])|..|Cat(parts[..i])| + |parts[i]|] == parts[i]
  {
    assert parts[..i + 1][..i] == parts[..i];
    CatAppend(parts[..i + 1], parts[i + 1..]);
    assert parts[..i + 1] + parts[i + 1..] == parts;
  }

  predicate PieceOf<T>(p: Piece, parts: seq<seq<T>>) {
    p.index < |parts| && p.offset + p.size <= |parts[p.index]|
  }

  function PieceBytesOf<T>(p: Piece, parts: seq<seq<T>>): (s: seq<T>)
    requires PieceOf(p, parts)
    ensures |s| == p.size
  {
    parts[p.index][p.offset..p.offset + p.size]
  }

  predicate PiecesOf<T>(pieces: seq<Piece>, parts: seq<seq<T>>) {
    forall k :: 0 <= k < |pieces| ==> PieceOf(pieces[k], parts)
  }

  function Taken<T>(pieces: seq<Piece>, parts: seq<seq<T>>): seq<T>
    requires PiecesOf(pieces, parts)
  {
    if pieces == [] then [] else
      Taken(pieces[..|pieces| - 1], parts) + PieceBytesOf(pieces[|pieces| - 1], parts)
  }

  function TotalBytes(slices: seq<PageSlice>): nat {
    if slices == [] then 0 else TotalBytes(slices[..|slices| - 1]) + slices[|slices| - 1].byteLength
  }

  ghost predicate Sized<T>(parts: seq<seq<T>>, slices: seq<PageSlice>) {
    |parts| == |slices| && forall i :: 0 <= i < |parts| ==> |parts[i]| == slices[i].byteLength
  }

  lemma {:induction false} TotalIsCat<T>(parts: seq<seq<T>>, slices: seq<PageSlice>)
    requires Sized(parts, slices)
    ensures TotalBytes(slices) == |Cat(parts)|
  {
    if parts != [] {
      TotalIsCat(parts[..|parts| - 1], slices[..|slices| - 1]);
    }
  }

  lemma PieceBytes<T>(parts: seq<seq<T>>, p: Piece, done: nat, next: nat)
    requires PieceOf(p, parts) && done == |Cat(parts[..p.index])| + p.offset && next == done + p.size
    ensures next <= |Cat(parts)| && parts[p.index][p.offset..p.offset + p.size] == Cat(parts)[done..next]
  {
    var at, part := |Cat(parts[..p.index])|, parts[p.index];
    CatStep(parts, p.index);
    SliceOfSlice(Cat(parts), at, at + |part|, p.offset, p.offset + p.size);
  }

  /** One more piece: bytes `done..next` of the whole. */
  lemma TakeStep<T>(parts: seq<seq<T>>, pieces: seq<Piece>, from: nat, done: nat, next: nat, p: Piece)
    requires PiecesOf(pieces, parts) && PieceOf(p, parts) && from <= done <= |Cat(parts)|
    requires Taken(pieces, parts) == Cat(parts)[from..done]
    requires done == |Cat(parts[..p.index])| + p.offset && next == done + p.size
    ensures PiecesOf(pieces + [p], parts) && next <= |Cat(parts)|
    ensures Taken(pieces + [p], parts) == Cat(parts)[from..next]
  {
    PieceBytes(parts, p, done, next);
    JoinSlices(Cat(parts), from, done, next);
    assert (pieces + [p])[..|pieces|] == pieces;
  }

  /** Intersects a file byte range with its ordered page slices: the pieces
      are exactly the requested bytes, whatever the parts contain. */
  method SegmentByteRanges(slices: seq<PageSlice>, start: int, length: int, ghost parts: seq<seq<nat>>)
    returns (ok: bool, pieces: seq<Piece>)
    requires Sized(parts, slices)
    ensures ok <==> 0 <= start && 0 < length && start + length <= |Cat(parts)|
    ensures ok ==> PiecesOf(pieces, parts) && Taken(pieces, parts) == Cat(parts)[start..start + length]
    ensures ok ==> forall k :: 0 <= k < |pieces| ==> pieces[k].size > 0
  {
    TotalIsCat(parts, slices);
    pieces := [];
    if start < 0 || length <= 0 || start + length > TotalBytes(slices) {
      return false, [];
    }
    var at, left, i := start, length, 0;
    ghost var done := start;
    assert Cat(parts)[start..start] == [];
    while left > 0 && i < |slices|
      invariant 0 <= i <= |slices| && 0 <= left && 0 <= at && done + left == start + length && start <= done
      invariant left > 0 ==> done == |Cat(parts[..i])| + at
      invariant PiecesOf(pieces, parts) && Taken(pieces, parts) == Cat(parts)[start..done]
      invariant forall k :: 0 <= k < |pieces| ==> pieces[k].size > 0
    {
      CatStep(parts, i);
      if at >= slices[i].byteLength {
        at := at - slices[i].byteLength;
      } else {
        var p := Piece(i, at, Min(left, slices[i].byteLength - at));
        TakeStep(parts, pieces, start, done, done + p.size, p);
        pieces := pieces + [p];
        left := left - p.size;
        done := done + p.size;
        at := 0;
      }
      i := i + 1;
    }
    assert parts[..|parts|] == parts;
    ok := true;
  }

  // ---- files of page slices ----

  type Regions = map<LayerKey, Region>

  /** The pages chosen for each group. */
  type Selection = seq<seq<nat>>

  /** The slice lies in a known layer and inside the selected pages. */
  ghost predicate Placed(s: PageSlice, regions: Regions, selected: Selection, size: nat) {
    && s.key in regions && regions[s.key].Wf() && s.key.group < |selected|
    && s.start + s.count <= |selected[s.key.group]|
    && s.byteLength == s.count * regions[s.key].pageBytes
    && InBounds(regions[s.key], selected[s.key.group], size)
  }

  ghost predicate AllPlaced(slices: seq<PageSlice>, regions: Regions, selected: Selection, size: nat) {
    forall i :: 0 <= i < |slices| ==> Placed(slices[i], regions, selected, size)
  }

  function SlicePages(s: PageSlice, selected: Selection): seq<nat>
    requires s.key.group < |selected| && s.start + s.count <= |selected[s.key.group]|
  {
    selected[s.key.group][s.start..s.start + s.count]
  }

  ghost function SliceAddresses(s: PageSlice, regions: Regions, selected: Selection, size: nat): seq<nat>
    requires Placed(s, regions, selected, size)
  {
    PageAddresses(regions[s.key], SlicePages(s, selected))
  }

  ghost function FileParts(slices: seq<PageSlice>, regions: Regions, selected: Selection, size: nat): seq<seq<nat>>
    requires AllPlaced(slices, regions, selected, size)
  {
    seq(|slices|, i requires 0 <= i < |slices| => SliceAddresses(slices[i], regions, selected, size))
  }

  /** The addresses of a file's bytes: its slices' pages, one after another. */
  ghost function FileAddresses(slices: seq<PageSlice>, regions: Regions, selected: Selection, size: nat): seq<nat>
    requires AllPlaced(slices, regions, selected, size)
  {
    Cat(FileParts(slices, regions, selected, size))
  }

  lemma PartsSized(slices: seq<PageSlice>, regions: Regions, selected: Selection, size: nat)
    requires AllPlaced(slices, regions, selected, size)
    ensures Sized(FileParts(slices, regions, selected, size), slices)
    ensures |FileAddresses(slices, regions, selected, size)| == TotalBytes(slices)
  {
    var parts := FileParts(slices, regions, selected, size);
    forall i | 0 <= i < |slices| ensures |parts[i]| == slices[i].byteLength {
      PageAddressesSize(regions[slices[i].key], SlicePages(slices[i], selected));
    }
    TotalIsCat(parts, slices);
  }

  lemma PieceCopyable(x: Buffers, pieces: seq<Piece>, parts: seq<seq<nat>>, k: nat, all: seq<nat>, lo: nat)
    requires PiecesOf(pieces, parts) && k < |pieces| && all == Taken(pieces, parts) && Copyable(x, all, lo)
    ensures PiecesOf(pieces[..k], parts) && PiecesOf(pieces[..k + 1], parts)
    ensures Taken(pieces[..k + 1], parts) ==
            Taken(pieces[..k], parts) + PieceBytesOf(pieces[k], parts)
    ensures Taken(pieces[..k + 1], parts) <= all
    ensures Copyable(x, Taken(pieces[..k], parts), lo) && Copyable(x, Taken(pieces[..k + 1], parts), lo)
  {
    assert pieces[..k + 1][..k] == pieces[..k];
    TakenPrefix(pieces, parts, k);
    TakenPrefix(pieces, parts, k + 1);
  }

  lemma {:induction false} TakenPrefix<T>(pieces: seq<Piece>, parts: seq<seq<T>>, k: nat)
    requires PiecesOf(pieces, parts) && k <= |pieces|
    ensures PiecesOf(pieces[..k], parts) && Taken(pieces[..k], parts) <= Taken(pieces, parts)
  {
    if k == |pieces| {
      assert pieces[..k] == pieces;
    } else {
      TakenPrefix(pieces[..|pieces| - 1], parts, k);
      assert pieces[..|pieces| - 1][..k] == pieces[..k];
    }
  }

  class Mover {
    const device: Device
    const regions: Regions
    /** The pinned staging credit. */
    const slot: array<Byte>

    ghost predicate Valid()
    {
      slot != device.memory
    }

    constructor (device: Device, regions: Regions, slot: array<Byte>)
      requires slot != device.memory
      ensures Valid() && this.device == device && this.regions == regions && this.slot == slot
    {
      this.device, this.regions, this.slot := device, regions, slot;
    }

    ghost function Addresses(slices: seq<PageSlice>, selected: Selection): seq<nat>
      requires AllPlaced(slices, regions, selected, device.memory.Length)
    {
      FileAddresses(slices, regions, selected, device.memory.Length)
    }

    /** Copies the bytes `start..start + length` of a file, piece by piece. */
    method CopyRange(slices: seq<PageSlice>, selected: Selection, start: int, length: int,
                     host: array<Byte>, lo: nat, toDevice: bool)
      returns (ok: bool)
      requires AllPlaced(slices, regions, selected, device.memory.Length) && host != device.memory
      requires 0 <= length && lo + length <= host.Length
      modifies if toDevice then device.memory else host
      ensures ok <==> 0 <= start && 0 < length && start + length <= |Addresses(slices, selected)|
      ensures ok ==> Copyable(old(device.State(host)), Addresses(slices, selected)[start..start + length], lo)
      ensures ok ==>
        device.State(host) == Copied(toDevice, old(device.State(host)), Addresses(slices, selected)[start..start + length], lo)
      ensures !ok ==> device.State(host) == old(device.State(host))
    {
      ghost var parts := FileParts(slices, regions, selected, device.memory.Length);
      PartsSized(slices, regions, selected, device.memory.Length);
      var pieces;
      ok, pieces := SegmentByteRanges(slices, start, length, parts);
      if ok {
        CopyPieces(slices, selected, pieces, parts, host, lo, toDevice);
      }
    }

    method CopyPiece(s: PageSlice, selected: Selection, offset: nat, size: nat, host: array<Byte>, lo: nat, toDevice: bool)
      requires Placed(s, regions, selected, device.memory.Length) && host != device.memory
      requires 0 < size && lo + size <= host.Length
      requires offset + size <= |SliceAddresses(s, regions, selected, device.memory.Length)|
      modifies if toDevice then device.memory else host
      ensures var bytes := SliceAddresses(s, regions, selected, device.memory.Length)[offset..offset + size];
        && Copyable(old(device.State(host)), bytes, lo)
        && device.State(host) == Copied(toDevice, old(device.State(host)), bytes, lo)
    {
      var copied := device.CopyPageBytes(regions[s.key], SlicePages(s, selected), offset, host, lo, size, toDevice);
    }

    /** One more piece after `done`. */
    method CopyNext(slices: seq<PageSlice>, selected: Selection, p: Piece, ghost parts: seq<seq<nat>>, host: array<Byte>,
                    cursor: nat, toDevice: bool, ghost x: Buffers, ghost done: seq<nat>, ghost lo: nat)
      requires AllPlaced(slices, regions, selected, device.memory.Length) && host != device.memory
      requires parts == FileParts(slices, regions, selected, device.memory.Length) && PieceOf(p, parts) && p.size > 0
      requires cursor == lo + |done| && cursor + p.size <= host.Length
      requires Copyable(x, done, lo) && Copyable(x, done + PieceBytesOf(p, parts), lo)
      requires device.State(host) == Copied(toDevice, x, done, lo)
      modifies if toDevice then device.memory else host
      ensures device.State(host) == Copied(toDevice, x, done + PieceBytesOf(p, parts), lo)
    {
      CopyableParts(x, done, PieceBytesOf(p, parts), lo);
      CopyPiece(slices[p.index], selected, p.offset, p.size, host, cursor, toDevice);
      CopiedTwice(toDevice, x, done, PieceBytesOf(p, parts), lo);
    }

    method CopyPieces(slices: seq<PageSlice>, selected: Selection, pieces: seq<Piece>, ghost parts: seq<seq<nat>>,
                      host: array<Byte>, lo: nat, toDevice: bool)
      requires AllPlaced(slices, regions, selected, device.memory.Length) && host != device.memory
      requires parts == FileParts(slices, regions, selected, device.memory.Length) && PiecesOf(pieces, parts)
      requires forall k :: 0 <= k < |pieces| ==> pieces[k].size > 0
      requires lo + |Taken(pieces, parts)| <= host.Length
      modifies if toDevice then device.memory else host
      ensures Copyable(old(device.State(host)), Taken(pieces, parts), lo)
      ensures device.State(host) == Copied(toDevice, old(device.State(host)), Taken(pieces, parts), lo)
    {
      var k, cursor := 0, lo;
      ghost var x, all := device.State(host), Taken(pieces, parts);
      FileWithin(slices, regions, selected, device.memory.Length, pieces);
      ghost var done: seq<nat> := [];
      while k < |pieces|
        invariant 0 <= k <= |pieces| && PiecesOf(pieces[..k], parts) && done == Taken(pieces[..k], parts)
        invariant cursor == lo + |done| && Copyable(x, done, lo)
        invariant device.State(host) == Copied(toDevice, x, done, lo)
      {
        PieceCopyable(x, pieces, parts, k, all, lo);
        CopyNext(slices, selected, pieces[k], parts, host, cursor, toDevice, x, done, lo);
        done := done + PieceBytesOf(pieces[k], parts);
        k, cursor := k + 1, cursor + pieces[k].size;
      }
      assert pieces[..k] == pieces;
    }

    /** Reads the bytes `start..start + length` of the files through the staging buffer. */
    method Capture(slices: seq<PageSlice>, selected: Selection, start: int, length: int)
      returns (ok: bool, data: seq<Byte>)
      requires Valid() && AllPlaced(slices, regions, selected, device.memory.Length)
      modifies slot
      ensures ok <==> 0 < length <= slot.Length && 0 <= start && start + length <= |Addresses(slices, selected)|
      ensures ok ==> Within(Addresses(slices, selected)[start..start + length], device.memory.Length)
      ensures ok ==> data == Read(device.memory[..], Addresses(slices, selected)[start..start + length])
    {
      if !(0 < length <= slot.Length) {
        return false, [];
      }
      ghost var x := device.State(slot);
      ok := CopyRange(slices, selected, start, length, slot, 0, false);
      data := slot[..length];
      if ok {
        CaptureReads(x, Addresses(slices, selected)[start..start + length]);
      }
    }
  }

  lemma CaptureReads(x: Buffers, addresses: seq<nat>)
    requires Copyable(x, addresses, 0)
    ensures Copied(false, x, addresses, 0).host[..|addresses|] == Read(x.memory, addresses)
  {
    DownloadReads(x, addresses, 0);
  }

  lemma {:induction false} FileWithin(slices: seq<PageSlice>, regions: Regions, selected: Selection, size: nat, pieces: seq<Piece>)
    requires AllPlaced(slices, regions, selected, size) && PiecesOf(pieces, FileParts(slices, regions, selected, size))
    ensures Within(Taken(pieces, FileParts(slices, regions, selected, size)), size)
  {
    if pieces != [] {
      var parts, p := FileParts(slices, regions, selected, size), pieces[|pieces| - 1];
      FileWithin(slices, regions, selected, size, pieces[..|pieces| - 1]);
      PagesWithin(regions[slices[p.index].key], SlicePages(slices[p.index], selected), size);
    }
  }

  lemma {:induction false} CatWithin(parts: seq<seq<nat>>, size: nat)
    requires forall i :: 0 <= i < |parts| ==> Within(parts[i], size)
    ensures Within(Cat(parts), size)
  {
    if parts != [] { CatWithin(parts[..|parts| - 1], size); }
  }

  lemma AllWithin(slices: seq<PageSlice>, regions: Regions, selected: Selection, size: nat)
    requires AllPlaced(slices, regions, selected, size)
    ensures Within(FileAddresses(slices, regions, selected, size), size)
  {
    var parts := FileParts(slices, regions, selected, size);
    forall i | 0 <= i < |parts| ensures Within(parts[i], size) {
      PagesWithin(regions[slices[i].key], SlicePages(slices[i], selected), size);
    }
    CatWithin(parts, size);
  }
}
