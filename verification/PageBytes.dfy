/** Byte addresses of pages, and what reading or writing a list of addresses
    does to a memory. */
module PageBytes {
  import opened Collections

  type Byte = bv8

  /** Where one layer's pages lie: page `id` starts at `base + id * stride`. */
  datatype Region = Region(base: nat, stride: nat, pageBytes: nat) {
    predicate Wf() { 0 < pageBytes <= stride }

    /** The pages follow one another without padding. */
    predicate Dense() { stride == pageBytes }

    function Start(id: nat): nat { base + id * stride }
  }

  function Consecutive(start: nat, n: nat): seq<nat> {
    seq(n, i requires 0 <= i < n => start + i)
  }

  /** The addresses of the given pages' bytes, page after page. */
  function PageAddresses(r: Region, ids: seq<nat>): seq<nat> {
    if ids == [] then [] else PageAddresses(r, ids[..|ids| - 1]) + Consecutive(r.Start(ids[|ids| - 1]), r.pageBytes)
  }

  predicate Within(addresses: seq<nat>, size: nat) {
    forall i :: 0 <= i < |addresses| ==> addresses[i] < size
  }

  function Read(memory: seq<Byte>, addresses: seq<nat>): seq<Byte>
    requires Within(addresses, |memory|)
  {
    seq(|addresses|, i requires 0 <= i < |addresses| => memory[addresses[i]])
  }

  function Write(memory: seq<Byte>, addresses: seq<nat>, bytes: seq<Byte>): (after: seq<Byte>)
    requires Within(addresses, |memory|) && |bytes| == |addresses|
    ensures |after| == |memory|
  {
    if addresses == [] then memory else
      var n := |addresses| - 1;
      Write(memory, addresses[..n], bytes[..n])[addresses[n] := bytes[n]]
  }

  lemma {:induction false} WriteAppend(memory: seq<Byte>, a: seq<nat>, b: seq<nat>, x: seq<Byte>, y: seq<Byte>)
    requires Within(a, |memory|) && Within(b, |memory|) && |x| == |a| && |y| == |b|
    ensures Within(a + b, |memory|)
    ensures Write(memory, a + b, x + y) == Write(Write(memory, a, x), b, y)
  {
    if b == [] {
      assert a + b == a && x + y == x;
    } else {
      var n := |b| - 1;
      WriteAppend(memory, a, b[..n], x, y[..n]);
      assert (a + b)[..|a + b| - 1] == a + b[..n] && (x + y)[..|x + y| - 1] == x + y[..n];
    }
  }

  lemma {:induction false} WriteElsewhere(memory: seq<Byte>, addresses: seq<nat>, bytes: seq<Byte>, a: nat)
    requires Within(addresses, |memory|) && |bytes| == |addresses| && a < |memory| && a !in addresses
    ensures Write(memory, addresses, bytes)[a] == memory[a]
  {
    if addresses != [] {
      WriteElsewhere(memory, addresses[..|addresses| - 1], bytes[..|bytes| - 1], a);
    }
  }

  lemma {:induction false} WriteAt(memory: seq<Byte>, addresses: seq<nat>, bytes: seq<Byte>, i: nat)
    requires Within(addresses, |memory|) && |bytes| == |addresses| && NoRepeats(addresses) && i < |addresses|
    ensures Write(memory, addresses, bytes)[addresses[i]] == bytes[i]
  {
    var n := |addresses| - 1;
    if i < n {
      WriteAt(memory, addresses[..n], bytes[..n], i);
    }
  }

  // ---- page arithmetic ----

  lemma {:induction false} PageAddressesSize(r: Region, ids: seq<nat>)
    ensures |PageAddresses(r, ids)| == |ids| * r.pageBytes
  {
    if ids != [] {
      PageAddressesSize(r, ids[..|ids| - 1]);
      assert (|ids| - 1) * r.pageBytes + r.pageBytes == |ids| * r.pageBytes;
    }
  }

  lemma {:induction false} PageAddressesAppend(r: Region, a: seq<nat>, b: seq<nat>)
    ensures PageAddresses(r, a + b) == PageAddresses(r, a) + PageAddresses(r, b)
  {
    if b == [] {
      assert a + b == a;
    } else {
      assert (a + b)[..|a + b| - 1] == a + b[..|b| - 1];
      PageAddressesAppend(r, a, b[..|b| - 1]);
    }
  }

  lemma MiddleOf<T>(x: seq<T>, y: seq<T>, z: seq<T>)
    ensures (x + y + z)[|x|..|x| + |y|] == y
  {
  }

  lemma Distributes(a: nat, b: nat, c: nat)
    ensures (a + b) * c == a * c + b * c
  {
  }

  /** Whole pages of a list are a slice of its bytes. */
  lemma PagesOfList(r: Region, ids: seq<nat>, q: nat, w: nat)
    requires q + w <= |ids|
    ensures (q + w) * r.pageBytes == q * r.pageBytes + w * r.pageBytes <= |PageAddresses(r, ids)|
    ensures PageAddresses(r, ids[q..q + w]) == PageAddresses(r, ids)[q * r.pageBytes..q * r.pageBytes + w * r.pageBytes]
  {
    var before, mid, after := ids[..q], ids[q..q + w], ids[q + w..];
    assert ids == before + mid + after;
    PageAddressesAppend(r, before + mid, after);
    PageAddressesAppend(r, before, mid);
    PageAddressesSize(r, before);
    PageAddressesSize(r, mid);
    Distributes(q, w, r.pageBytes);
    MiddleOf(PageAddresses(r, before), PageAddresses(r, mid), PageAddresses(r, after));
  }

  lemma OnePage(r: Region, id: nat)
    ensures PageAddresses(r, [id]) == Consecutive(r.Start(id), r.pageBytes)
  {
    assert [id][..0] == [];
  }

  lemma SliceOfSlice<T>(s: seq<T>, a: nat, b: nat, c: nat, d: nat)
    requires a <= b <= |s| && c <= d <= b - a
    ensures s[a..b][c..d] == s[a + c..a + d]
  {
    var t, u := s[a..b], s[a + c..a + d];
    forall i | 0 <= i < d - c ensures t[c..d][i] == u[i] {
      assert t[c..d][i] == t[c + i] && t[c + i] == s[a + (c + i)];
    }
  }

  lemma RunWithin(all: seq<nat>, start: nat, size: nat, x: nat, offset: nat, n: nat)
    requires start + size <= |all| && offset + n <= size && all[start..start + size] == Consecutive(x, size)
    ensures all[start + offset..start + (offset + n)] == Consecutive(x + offset, n)
  {
    SliceOfSlice(all, start, start + size, offset, offset + n);
  }

  lemma AtStart<T>(all: seq<T>, a: nat, start: nat, n: nat)
    requires a == start && a + n <= |all|
    ensures all[a..a + n] == all[start..start + n]
  {
  }

  lemma OneAt<T>(s: seq<T>, q: nat)
    requires q < |s|
    ensures s[q..q + 1] == [s[q]]
  {
  }

  lemma PageAt(r: Region, ids: seq<nat>, q: nat, start: nat)
    requires q < |ids| && start == q * r.pageBytes
    ensures start + r.pageBytes <= |PageAddresses(r, ids)|
    ensures PageAddresses(r, ids)[start..start + r.pageBytes] == Consecutive(r.Start(ids[q]), r.pageBytes)
  {
    PagesOfList(r, ids, q, 1);
    OneAt(ids, q);
    assert 1 * r.pageBytes == r.pageBytes;
    OnePage(r, ids[q]);
    AtStart(PageAddresses(r, ids), q * r.pageBytes, start, r.pageBytes);
  }

  /** Bytes within one page are consecutive. */
  lemma WithinPage(r: Region, ids: seq<nat>, q: nat, start: nat, offset: nat, n: nat)
    requires q < |ids| && start == q * r.pageBytes && offset + n <= r.pageBytes
    ensures start + (offset + n) <= |PageAddresses(r, ids)|
    ensures PageAddresses(r, ids)[start + offset..start + (offset + n)] == Consecutive(r.Start(ids[q]) + offset, n)
  {
    PageAt(r, ids, q, start);
    RunWithin(PageAddresses(r, ids), start, r.pageBytes, r.Start(ids[q]), offset, n);
  }

  predicate InARow(ids: seq<nat>) {
    forall i :: 0 <= i < |ids| ==> ids[i] == ids[0] + i
  }

  lemma JoinRuns(start: nat, a: nat, b: nat)
    ensures Consecutive(start, a) + Consecutive(start + a, b) == Consecutive(start, a + b)
  {
  }

  /** Dense pages with consecutive ids are one run of bytes. */
  lemma {:induction false} DenseRun(r: Region, ids: seq<nat>)
    requires r.Dense() && ids != [] && InARow(ids)
    ensures PageAddresses(r, ids) == Consecutive(r.Start(ids[0]), |ids| * r.pageBytes)
  {
    var n := |ids| - 1;
    if n == 0 {
      assert ids == [ids[0]];
      OnePage(r, ids[0]);
    } else {
      DenseRun(r, ids[..n]);
      Distributes(ids[0], n, r.stride);
      Distributes(n, 1, r.pageBytes);
      JoinRuns(r.Start(ids[0]), n * r.pageBytes, r.pageBytes);
    }
  }

  lemma {:induction false} WriteRun(memory: seq<Byte>, a: nat, bytes: seq<Byte>)
    requires a + |bytes| <= |memory|
    ensures Write(memory, Consecutive(a, |bytes|), bytes) == memory[..a] + bytes + memory[a + |bytes|..]
  {
    if bytes != [] {
      var n := |bytes| - 1;
      WriteRun(memory, a, bytes[..n]);
      assert Consecutive(a, |bytes|)[..n] == Consecutive(a, n);
    } else {
      assert memory == memory[..a] + memory[a..];
    }
  }

  // ---- one transfer ----

  datatype Buffers = Buffers(memory: seq<Byte>, host: seq<Byte>)

  predicate Copyable(x: Buffers, addresses: seq<nat>, lo: nat) {
    Within(addresses, |x.memory|) && lo + |addresses| <= |x.host|
  }

  function CopiedByte(toDevice: bool, x: Buffers, a: nat, at: nat): Buffers
    requires a < |x.memory| && at < |x.host|
  {
    if toDevice then x.(memory := x.memory[a := x.host[at]]) else x.(host := x.host[at := x.memory[a]])
  }

  /** The bytes at `addresses` and those at `host[lo..]` made equal, in one
      direction, one byte after another. */
  function Copied(toDevice: bool, x: Buffers, addresses: seq<nat>, lo: nat): (y: Buffers)
    requires Copyable(x, addresses, lo)
    ensures |y.memory| == |x.memory| && |y.host| == |x.host|
  {
    if addresses == [] then x else
      var n := |addresses| - 1;
      CopiedByte(toDevice, Copied(toDevice, x, addresses[..n], lo), addresses[n], lo + n)
  }

  /** An upload writes the addresses and leaves the host alone. */
  lemma {:induction false} UploadWrites(x: Buffers, addresses: seq<nat>, lo: nat)
    requires Copyable(x, addresses, lo)
    ensures Copied(true, x, addresses, lo) == x.(memory := Write(x.memory, addresses, x.host[lo..lo + |addresses|]))
  {
    if addresses != [] {
      var n := |addresses| - 1;
      UploadWrites(x, addresses[..n], lo);
      assert x.host[lo..lo + |addresses|][..n] == x.host[lo..lo + n];
    }
  }

  /** A download fills the host range and leaves the memory alone. */
  lemma {:induction false} DownloadReads(x: Buffers, addresses: seq<nat>, lo: nat)
    requires Copyable(x, addresses, lo)
    ensures Copied(false, x, addresses, lo) ==
            x.(host := x.host[..lo] + Read(x.memory, addresses) + x.host[lo + |addresses|..])
  {
    if addresses == [] {
      assert x.host == x.host[..lo] + x.host[lo..];
    } else {
      var n := |addresses| - 1;
      DownloadReads(x, addresses[..n], lo);
      var y := Copied(false, x, addresses[..n], lo).host;
      assert Read(x.memory, addresses) == Read(x.memory, addresses[..n]) + [x.memory[addresses[n]]];
      assert y[lo + n := x.memory[addresses[n]]] == x.host[..lo] + Read(x.memory, addresses) + x.host[lo + n + 1..];
    }
  }

  lemma {:induction false} CopiedTwice(toDevice: bool, x: Buffers, a: seq<nat>, b: seq<nat>, lo: nat)
    requires Copyable(x, a, lo) && Copyable(x, b, lo + |a|)
    ensures Copyable(x, a + b, lo)
    ensures Copied(toDevice, Copied(toDevice, x, a, lo), b, lo + |a|) == Copied(toDevice, x, a + b, lo)
  {
    if b == [] {
      assert a + b == a;
    } else {
      CopiedTwice(toDevice, x, a, b[..|b| - 1], lo);
      assert (a + b)[..|a + b| - 1] == a + b[..|b| - 1];
    }
  }

  lemma JoinSlices<T>(all: seq<T>, from: nat, mid: nat, to: nat)
    requires from <= mid <= to <= |all|
    ensures all[from..mid] + all[mid..to] == all[from..to]
  {
  }

  lemma CopyableParts(x: Buffers, a: seq<nat>, b: seq<nat>, lo: nat)
    requires Copyable(x, a + b, lo)
    ensures Copyable(x, a, lo) && Copyable(x, b, lo + |a|)
  {
    var all := a + b;
    assert forall i :: 0 <= i < |a| ==> a[i] == all[i];
    assert forall i :: 0 <= i < |b| ==> b[i] == all[|a| + i];
  }

  /** A further slice of the same address list. */
  lemma CopiedFurther(toDevice: bool, x: Buffers, all: seq<nat>, from: nat, mid: nat, to: nat, lo: nat)
    requires from <= mid <= to <= |all| && Copyable(x, all[from..to], lo)
    ensures Copyable(x, all[from..mid], lo) && Copyable(x, all[mid..to], lo + (mid - from))
    ensures Copied(toDevice, Copied(toDevice, x, all[from..mid], lo), all[mid..to], lo + (mid - from)) ==
            Copied(toDevice, x, all[from..to], lo)
  {
    JoinSlices(all, from, mid, to);
    CopyableParts(x, all[from..mid], all[mid..to], lo);
    CopiedTwice(toDevice, x, all[from..mid], all[mid..to], lo);
  }

  /** A plain copy of `n` bytes, as one transfer. */
  lemma CopiedRun(toDevice: bool, x: Buffers, a: nat, lo: nat, n: nat)
    requires a + n <= |x.memory| && lo + n <= |x.host|
    ensures Copyable(x, Consecutive(a, n), lo)
    ensures Copied(toDevice, x, Consecutive(a, n), lo) ==
      if toDevice then x.(memory := x.memory[..a] + x.host[lo..lo + n] + x.memory[a + n..])
      else x.(host := x.host[..lo] + x.memory[a..a + n] + x.host[lo + n..])
  {
    if toDevice {
      UploadWrites(x, Consecutive(a, n), lo);
      WriteRun(x.memory, a, x.host[lo..lo + n]);
    } else {
      DownloadReads(x, Consecutive(a, n), lo);
      assert Read(x.memory, Consecutive(a, n)) == x.memory[a..a + n];
    }
  }

  // ---- slices of a page list ----

  /** Every byte of the pages lies inside a memory of this size. */
  ghost predicate InBounds(r: Region, ids: seq<nat>, size: nat) {
    forall i :: 0 <= i < |ids| ==> r.Start(ids[i]) + r.pageBytes <= size
  }

  lemma {:induction false} PagesWithin(r: Region, ids: seq<nat>, size: nat)
    requires InBounds(r, ids, size)
    ensures Within(PageAddresses(r, ids), size)
  {
    if ids != [] { PagesWithin(r, ids[..|ids| - 1], size); }
  }

  /** A window of a list is a window of the pages it touches. */
  lemma PageWindow(r: Region, ids: seq<nat>, first: nat, count: nat, base: nat, offset: nat, n: nat)
    requires first + count <= |ids| && base == first * r.pageBytes && offset + n <= count * r.pageBytes
    ensures base + (offset + n) <= |PageAddresses(r, ids)| && offset + n <= |PageAddresses(r, ids[first..first + count])|
    ensures PageAddresses(r, ids)[base + offset..base + (offset + n)] ==
            PageAddresses(r, ids[first..first + count])[offset..offset + n]
  {
    PagesOfList(r, ids, first, count);
    PageAddressesSize(r, ids[first..first + count]);
    SliceOfSlice(PageAddresses(r, ids), base, base + count * r.pageBytes, offset, offset + n);
  }
}
