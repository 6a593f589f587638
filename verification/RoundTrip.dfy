/** Capture through one block table and restore through another: every selected
    page equals its source and nothing else changes. */
module RoundTrip {
  import opened Collections
  import opened Hma
  import opened PageBytes
  import opened PageTransfer

  /** One byte of one required page of one layer. */
  datatype Cell = Cell(key: LayerKey, page: nat, offset: nat)

  function PageCells(key: LayerKey, page: nat, bytes: nat): seq<Cell> {
    seq(bytes, k requires 0 <= k < bytes => Cell(key, page, k))
  }

  function RunCells(key: LayerKey, start: nat, count: nat, bytes: nat): seq<Cell> {
    if count == 0 then [] else RunCells(key, start, count - 1, bytes) + PageCells(key, start + count - 1, bytes)
  }

  /** The cells of a file, in the order of its bytes. */
  function Cells(slices: seq<PageSlice>, needs: map<LayerKey, Need>): seq<Cell>
    requires Fitting(slices, needs)
  {
    if slices == [] then [] else
      var s := slices[|slices| - 1];
      Cells(slices[..|slices| - 1], needs) + RunCells(s.key, s.start, s.count, needs[s.key].pageBytes)
  }

  predicate Required(c: Cell, needs: map<LayerKey, Need>) {
    c.key in needs && c.page < needs[c.key].pages && c.offset < needs[c.key].pageBytes
  }

  // ---- coverage and cells ----

  lemma {:induction false} RunCellsAre(key: LayerKey, start: nat, count: nat, bytes: nat, c: Cell)
    ensures c in RunCells(key, start, count, bytes) <==>
            c.key == key && start <= c.page < start + count && c.offset < bytes
  {
    if count > 0 {
      RunCellsAre(key, start, count - 1, bytes, c);
      var last := PageCells(key, start + count - 1, bytes);
      assert c in last <==> c.key == key && c.page == start + count - 1 && c.offset < bytes by {
        if c.key == key && c.page == start + count - 1 && c.offset < bytes { assert last[c.offset] == c; }
      }
    }
  }

  predicate CellIn(slices: seq<PageSlice>, needs: map<LayerKey, Need>, c: Cell) {
    c.key in needs && c.offset < needs[c.key].pageBytes && c.page in PagesOf(slices, c.key)
  }

  lemma SliceCells(s: PageSlice, before: seq<PageSlice>, needs: map<LayerKey, Need>, c: Cell)
    requires Fitting(before + [s], needs)
    ensures s.key in needs
    ensures c in RunCells(s.key, s.start, s.count, needs[s.key].pageBytes) || CellIn(before, needs, c) <==>
            CellIn(before + [s], needs, c)
  {
    assert (before + [s])[|before|] == s && (before + [s])[..|before|] == before;
    RunCellsAre(s.key, s.start, s.count, needs[s.key].pageBytes, c);
    RangeMembers(s.start, s.start + s.count, c.page);
  }

  /** A cell is in the file exactly when its page is among its layer's pages. */
  lemma {:induction false} CellsAre(slices: seq<PageSlice>, needs: map<LayerKey, Need>, c: Cell)
    requires Fitting(slices, needs)
    ensures c in Cells(slices, needs) <==> CellIn(slices, needs, c)
  {
    if slices != [] {
      var front, s := slices[..|slices| - 1], slices[|slices| - 1];
      CellsAre(front, needs, c);
      assert slices == front + [s];
      SliceCells(s, front, needs, c);
    }
  }

  lemma RangeMembers(lo: nat, hi: nat, x: nat)
    requires lo <= hi
    ensures x in Range(lo, hi) <==> lo <= x < hi
  {
    if lo <= x < hi { assert Range(lo, hi)[x - lo] == x; }
  }

  lemma NoRepeatsAppend<T>(a: seq<T>, b: seq<T>)
    requires NoRepeats(a) && NoRepeats(b) && forall x :: x in b ==> x !in a
    ensures NoRepeats(a + b)
  {
    var s := a + b;
    forall i, j | 0 <= i < j < |s| ensures s[i] != s[j] {
      if i < |a| && j >= |a| { assert s[j] in b && s[i] in a; }
    }
  }

  lemma {:induction false} RunCellsOnce(key: LayerKey, start: nat, count: nat, bytes: nat)
    ensures NoRepeats(RunCells(key, start, count, bytes))
  {
    if count > 0 {
      RunCellsOnce(key, start, count - 1, bytes);
      var before, last := RunCells(key, start, count - 1, bytes), PageCells(key, start + count - 1, bytes);
      forall c | c in last ensures c !in before {
        RunCellsAre(key, start, count - 1, bytes, c);
      }
      NoRepeatsAppend(before, last);
    }
  }

  /** Pages that come once and in order up to `total`, a prefix at a time. */
  ghost predicate InOrder(slices: seq<PageSlice>, needs: map<LayerKey, Need>) {
    forall key :: key in needs ==> PagesOf(slices, key) <= Range(0, needs[key].pages)
  }

  lemma InOrderPrefix(slices: seq<PageSlice>, needs: map<LayerKey, Need>)
    requires slices != [] && InOrder(slices, needs)
    ensures InOrder(slices[..|slices| - 1], needs)
  {
    var n := |slices| - 1;
    assert slices == slices[..n] + [slices[n]];
    forall key | key in needs ensures PagesOf(slices[..n], key) <= Range(0, needs[key].pages) {
      PrefixPages(slices[..n], [slices[n]], key);
    }
  }

  lemma NewPages(slices: seq<PageSlice>, needs: map<LayerKey, Need>, page: nat)
    requires slices != [] && InOrder(slices, needs) && Fitting(slices, needs)
    requires var s := slices[|slices| - 1]; s.start <= page < s.start + s.count
    ensures page !in PagesOf(slices[..|slices| - 1], slices[|slices| - 1].key)
  {
    var s, before := slices[|slices| - 1], PagesOf(slices[..|slices| - 1], slices[|slices| - 1].key);
    var all := PagesOf(slices, s.key);
    var at := |before| + (page - s.start);
    assert all[at] == page && Range(0, needs[s.key].pages)[at] == at;
    forall i | 0 <= i < |before| ensures before[i] != page {
      assert before[i] == all[i] && Range(0, needs[s.key].pages)[i] == i;
    }
  }

  lemma {:induction false} CellsOnce(slices: seq<PageSlice>, needs: map<LayerKey, Need>)
    requires Fitting(slices, needs) && InOrder(slices, needs)
    ensures NoRepeats(Cells(slices, needs))
  {
    if slices != [] {
      var front, s := slices[..|slices| - 1], slices[|slices| - 1];
      InOrderPrefix(slices, needs);
      CellsOnce(front, needs);
      var before, last := Cells(front, needs), RunCells(s.key, s.start, s.count, needs[s.key].pageBytes);
      RunCellsOnce(s.key, s.start, s.count, needs[s.key].pageBytes);
      forall c | c in last ensures c !in before {
        RunCellsAre(s.key, s.start, s.count, needs[s.key].pageBytes, c);
        NewPages(slices, needs, c.page);
        CellsAre(front, needs, c);
      }
      NoRepeatsAppend(before, last);
    }
  }

  /** An accepted chain holds every required byte exactly once and no other. */
  lemma CoverageIsExact(slices: seq<PageSlice>, needs: map<LayerKey, Need>)
    requires Covers(slices, needs)
    ensures NoRepeats(Cells(slices, needs))
    ensures forall c :: c in Cells(slices, needs) <==> Required(c, needs)
  {
    CellsOnce(slices, needs);
    forall c ensures c in Cells(slices, needs) <==> Required(c, needs) {
      CellsAre(slices, needs, c);
      if c.key in needs { RangeMembers(0, needs[c.key].pages, c.page); }
    }
  }

  // ---- cells and addresses ----

  /** The device can hold the selected pages of every layer. */
  ghost predicate Bound(regions: Regions, selected: Selection, needs: map<LayerKey, Need>, size: nat) {
    forall key :: key in needs ==>
      && key in regions && regions[key].Wf() && regions[key].pageBytes == needs[key].pageBytes
      && key.group < |selected| && |selected[key.group]| == needs[key].pages
      && InBounds(regions[key], selected[key.group], size)
  }

  function AddressOf(c: Cell, regions: Regions, selected: Selection): nat
    requires c.key in regions && c.key.group < |selected| && c.page < |selected[c.key.group]|
  {
    regions[c.key].Start(selected[c.key.group][c.page]) + c.offset
  }

  lemma SliceWithin(slices: seq<PageSlice>, needs: map<LayerKey, Need>, i: nat)
    requires Covers(slices, needs) && i < |slices| && ValidSlice(slices[i])
    ensures slices[i].key in needs && slices[i].start + slices[i].count <= needs[slices[i].key].pages
  {
    var s, upto := slices[i], slices[..i + 1];
    var page := s.start + s.count - 1;
    assert upto[..i] == slices[..i] && upto[i] == s;
    assert slices == upto + slices[i + 1..];
    PrefixPages(upto, slices[i + 1..], s.key);
    RangeMembers(s.start, s.start + s.count, page);
    assert page in PagesOf(upto, s.key);
    assert page in PagesOf(slices, s.key);
    RangeMembers(0, needs[s.key].pages, page);
  }

  lemma PlacedByCoverage(slices: seq<PageSlice>, needs: map<LayerKey, Need>, regions: Regions, selected: Selection, size: nat)
    requires Covers(slices, needs) && Bound(regions, selected, needs, size)
    requires forall i :: 0 <= i < |slices| ==> ValidSlice(slices[i])
    ensures AllPlaced(slices, regions, selected, size)
  {
    forall i | 0 <= i < |slices| ensures Placed(slices[i], regions, selected, size) {
      SliceWithin(slices, needs, i);
    }
  }

  lemma {:induction false} RunAddresses(key: LayerKey, start: nat, count: nat, regions: Regions, selected: Selection, i: nat)
    requires key in regions && key.group < |selected| && start + count <= |selected[key.group]|
    ensures |PageAddresses(regions[key], selected[key.group][start..start + count])| ==
            |RunCells(key, start, count, regions[key].pageBytes)|
    ensures i < |RunCells(key, start, count, regions[key].pageBytes)| ==>
      var c := RunCells(key, start, count, regions[key].pageBytes)[i];
      && c.key == key && c.page < |selected[key.group]|
      && PageAddresses(regions[key], selected[key.group][start..start + count])[i] == AddressOf(c, regions, selected)
  {
    if count > 0 {
      var ids := selected[key.group][start..start + count];
      RunAddresses(key, start, count - 1, regions, selected, i);
      assert ids[..count - 1] == selected[key.group][start..start + count - 1];
    }
  }

  /** Byte `i` of a file is the byte at cell `i`. */
  lemma {:induction false} FileCells(slices: seq<PageSlice>, needs: map<LayerKey, Need>, regions: Regions, selected: Selection,
                                     size: nat, i: nat)
    requires Fitting(slices, needs) && AllPlaced(slices, regions, selected, size) && Bound(regions, selected, needs, size)
    ensures |FileAddresses(slices, regions, selected, size)| == |Cells(slices, needs)|
    ensures i < |Cells(slices, needs)| ==>
      var c := Cells(slices, needs)[i];
      && c.key in regions && c.key.group < |selected| && c.page < |selected[c.key.group]|
      && FileAddresses(slices, regions, selected, size)[i] == AddressOf(c, regions, selected)
  {
    if slices != [] {
      var n := |slices| - 1;
      var s := slices[n];
      FileCells(slices[..n], needs, regions, selected, size, i);
      assert FileParts(slices, regions, selected, size)[..n] == FileParts(slices[..n], regions, selected, size);
      var before := |Cells(slices[..n], needs)|;
      RunAddresses(s.key, s.start, s.count, regions, selected, if i < before then 0 else i - before);
    }
  }

  // ---- distinct cells have distinct addresses ----

  /** Each layer has its own memory: the pages of two layers never overlap. */
  ghost predicate OwnMemory(regions: Regions, blocks: nat) {
    forall a, b :: a in regions && b in regions && a != b ==>
      regions[a].Start(blocks) <= regions[b].base || regions[b].Start(blocks) <= regions[a].base
  }

  ghost predicate UsableSelection(selected: Selection, blocks: nat) {
    forall g :: 0 <= g < |selected| ==>
      NoRepeats(selected[g]) && forall i :: 0 <= i < |selected[g]| ==> selected[g][i] < blocks
  }

  lemma WithinRegion(r: Region, blocks: nat, id: nat, offset: nat)
    requires r.Wf() && id < blocks && offset < r.pageBytes
    ensures r.base <= r.Start(id) + offset < r.Start(blocks)
  {
    Distributes(id, 1, r.stride);
    Distributes(id + 1, blocks - id - 1, r.stride);
  }

  lemma PagesApart(r: Region, a: nat, x: nat, b: nat, y: nat)
    requires r.Wf() && x < r.pageBytes && y < r.pageBytes && a < b
    ensures r.Start(a) + x < r.Start(b) + y
  {
    WithinRegion(Region(r.base, r.stride, r.pageBytes), b, a, x);
  }

  lemma CellsApart(c: Cell, d: Cell, regions: Regions, selected: Selection, needs: map<LayerKey, Need>, blocks: nat, size: nat)
    requires Bound(regions, selected, needs, size) && OwnMemory(regions, blocks) && UsableSelection(selected, blocks)
    requires Required(c, needs) && Required(d, needs) && c != d
    ensures AddressOf(c, regions, selected) != AddressOf(d, regions, selected)
  {
    var p, q := selected[c.key.group][c.page], selected[d.key.group][d.page];
    WithinRegion(regions[c.key], blocks, p, c.offset);
    WithinRegion(regions[d.key], blocks, q, d.offset);
    if c.key == d.key && c.page != d.page {
      if p < q {
        PagesApart(regions[c.key], p, c.offset, q, d.offset);
      } else {
        PagesApart(regions[c.key], q, d.offset, p, c.offset);
      }
    }
  }

  lemma FileApart(slices: seq<PageSlice>, needs: map<LayerKey, Need>, regions: Regions, selected: Selection, blocks: nat, size: nat)
    requires Covers(slices, needs) && AllPlaced(slices, regions, selected, size) && Bound(regions, selected, needs, size)
    requires OwnMemory(regions, blocks) && UsableSelection(selected, blocks)
    ensures NoRepeats(FileAddresses(slices, regions, selected, size))
  {
    var cells, all := Cells(slices, needs), FileAddresses(slices, regions, selected, size);
    CoverageIsExact(slices, needs);
    FileCells(slices, needs, regions, selected, size, 0);
    forall i, j | 0 <= i < j < |all| ensures all[i] != all[j] {
      FileCells(slices, needs, regions, selected, size, i);
      FileCells(slices, needs, regions, selected, size, j);
      assert cells[i] in cells && cells[j] in cells;
      CellsApart(cells[i], cells[j], regions, selected, needs, blocks, size);
    }
  }

  // ---- the round trip ----

  /** The bytes that a capture of the whole chain yields. */
  ghost function Captured(slices: seq<PageSlice>, regions: Regions, selected: Selection, memory: seq<Byte>): seq<Byte>
    requires AllPlaced(slices, regions, selected, |memory|)
  {
    AllWithin(slices, regions, selected, |memory|);
    Read(memory, FileAddresses(slices, regions, selected, |memory|))
  }

  /** The memory after the whole chain has been placed. */
  ghost function Restored(slices: seq<PageSlice>, regions: Regions, selected: Selection, memory: seq<Byte>, bytes: seq<Byte>): seq<Byte>
    requires AllPlaced(slices, regions, selected, |memory|)
    requires |bytes| == |FileAddresses(slices, regions, selected, |memory|)|
  {
    AllWithin(slices, regions, selected, |memory|);
    Write(memory, FileAddresses(slices, regions, selected, |memory|), bytes)
  }

  /** Capturing with one table and restoring with another copies every byte of
      every required page of every layer to its place. */
  lemma RestoreAfterCapture(slices: seq<PageSlice>, needs: map<LayerKey, Need>, source: Regions, from: Selection, m: seq<Byte>,
                            target: Regions, to: Selection, n: seq<Byte>, blocks: nat, c: Cell)
    requires Covers(slices, needs) && forall i :: 0 <= i < |slices| ==> ValidSlice(slices[i])
    requires Bound(source, from, needs, |m|) && Bound(target, to, needs, |n|)
    requires OwnMemory(target, blocks) && UsableSelection(to, blocks) && Required(c, needs)
    ensures AllPlaced(slices, source, from, |m|) && AllPlaced(slices, target, to, |n|)
    ensures |Captured(slices, source, from, m)| == |FileAddresses(slices, target, to, |n|)|
    ensures AddressOf(c, target, to) < |n| && AddressOf(c, source, from) < |m|
    ensures Restored(slices, target, to, n, Captured(slices, source, from, m))[AddressOf(c, target, to)] ==
            m[AddressOf(c, source, from)]
  {
    PlacedByCoverage(slices, needs, source, from, |m|);
    PlacedByCoverage(slices, needs, target, to, |n|);
    CoverageIsExact(slices, needs);
    var cells := Cells(slices, needs);
    assert c in cells;
    var i :| 0 <= i < |cells| && cells[i] == c;
    FileCells(slices, needs, source, from, |m|, i);
    FileCells(slices, needs, target, to, |n|, i);
    AllWithin(slices, source, from, |m|);
    AllWithin(slices, target, to, |n|);
    FileApart(slices, needs, target, to, blocks, |n|);
    WriteAt(n, FileAddresses(slices, target, to, |n|), Captured(slices, source, from, m), i);
  }

  /** Every other byte of the device keeps its value. */
  lemma RestoreFrame(slices: seq<PageSlice>, needs: map<LayerKey, Need>, target: Regions, to: Selection, n: seq<Byte>,
                     bytes: seq<Byte>, a: nat)
    requires Covers(slices, needs) && Bound(target, to, needs, |n|) && AllPlaced(slices, target, to, |n|)
    requires |bytes| == |FileAddresses(slices, target, to, |n|)| && a < |n|
    requires forall c :: Required(c, needs) ==> AddressOf(c, target, to) != a
    ensures Restored(slices, target, to, n, bytes)[a] == n[a]
  {
    var cells, all := Cells(slices, needs), FileAddresses(slices, target, to, |n|);
    CoverageIsExact(slices, needs);
    AllWithin(slices, target, to, |n|);
    forall i | 0 <= i < |all| ensures all[i] != a {
      FileCells(slices, needs, target, to, |n|, i);
      assert cells[i] in cells;
    }
    WriteElsewhere(n, all, bytes, a);
  }
}
