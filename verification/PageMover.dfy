/** Bounded byte copies between host buffers and device pages. */
module PageMover {
  import opened Collections
  import opened PageBytes

  class Device {
    const memory: array<Byte>

    constructor (memory: array<Byte>)
      ensures this.memory == memory
    {
      this.memory := memory;
    }

    ghost function State(host: array<Byte>): Buffers
      reads memory, host
    {
      Buffers(memory[..], host[..])
    }

    method UploadRun(address: nat, host: array<Byte>, lo: nat, n: nat)
      requires host != memory && address + n <= memory.Length && lo + n <= host.Length
      modifies memory
      ensures Copyable(old(State(host)), Consecutive(address, n), lo)
      ensures State(host) == Copied(true, old(State(host)), Consecutive(address, n), lo)
    {
      ghost var x := State(host);
      forall i | 0 <= i < n { memory[address + i] := host[lo + i]; }
      assert memory[..] == x.memory[..address] + x.host[lo..lo + n] + x.memory[address + n..];
      CopiedRun(true, x, address, lo, n);
    }

    method DownloadRun(address: nat, host: array<Byte>, lo: nat, n: nat)
      requires host != memory && address + n <= memory.Length && lo + n <= host.Length
      modifies host
      ensures Copyable(old(State(host)), Consecutive(address, n), lo)
      ensures State(host) == Copied(false, old(State(host)), Consecutive(address, n), lo)
    {
      ghost var x := State(host);
      forall i | 0 <= i < n { host[lo + i] := memory[address + i]; }
      assert host[..] == x.host[..lo] + x.memory[address..address + n] + x.host[lo + n..];
      CopiedRun(false, x, address, lo, n);
    }

    /** `copy_` between a run of device bytes and a run of host bytes. */
    method CopyRun(address: nat, host: array<Byte>, lo: nat, n: nat, toDevice: bool)
      requires host != memory && address + n <= memory.Length && lo + n <= host.Length
      modifies if toDevice then memory else host
      ensures Copyable(old(State(host)), Consecutive(address, n), lo)
      ensures State(host) == Copied(toDevice, old(State(host)), Consecutive(address, n), lo)
    {
      if toDevice {
        UploadRun(address, host, lo, n);
      } else {
        DownloadRun(address, host, lo, n);
      }
    }

    /** Indexed gather or scatter of whole pages. */
    method CopyPages(r: Region, ids: seq<nat>, host: array<Byte>, lo: nat, toDevice: bool)
      requires host != memory && InBounds(r, ids, memory.Length) && lo + |PageAddresses(r, ids)| <= host.Length
      modifies if toDevice then memory else host
      ensures Copyable(old(State(host)), PageAddresses(r, ids), lo)
      ensures State(host) == Copied(toDevice, old(State(host)), PageAddresses(r, ids), lo)
    {
      var i, at := 0, lo;
      ghost var x := State(host);
      PagesWithin(r, ids, memory.Length);
      while i < |ids|
        invariant 0 <= i <= |ids| && at == lo + |PageAddresses(r, ids[..i])|
        invariant Copyable(x, PageAddresses(r, ids[..i]), lo)
        invariant State(host) == Copied(toDevice, x, PageAddresses(r, ids[..i]), lo)
      {
        PageStep(r, ids, i);
        CopyRun(r.Start(ids[i]), host, at, r.pageBytes, toDevice);
        CopiedTwice(toDevice, x, PageAddresses(r, ids[..i]), Consecutive(r.Start(ids[i]), r.pageBytes), lo);
        i, at := i + 1, at + r.pageBytes;
      }
      assert ids[..i] == ids;
    }

    /** A direct view of bytes `from..to` of the page list, inside page `q`. */
    method CopyPart(r: Region, pages: seq<nat>, q: nat, offset: nat, ghost from: nat, ghost to: nat,
                    host: array<Byte>, lo: nat, n: nat, toDevice: bool)
      requires host != memory && InBounds(r, pages, memory.Length) && lo + n <= host.Length
      requires q < |pages| && offset + n <= r.pageBytes && from == q * r.pageBytes + offset && to == from + n
      modifies if toDevice then memory else host
      ensures to <= |PageAddresses(r, pages)| && Copyable(old(State(host)), PageAddresses(r, pages)[from..to], lo)
      ensures State(host) == Copied(toDevice, old(State(host)), PageAddresses(r, pages)[from..to], lo)
    {
      PartOfPage(r, pages, q, offset, from, to);
      CopyRun(r.Start(pages[q]) + offset, host, lo, n, toDevice);
    }

    method CopyWhole(r: Region, pages: seq<nat>, q: nat, w: nat, ghost from: nat, ghost to: nat,
                     host: array<Byte>, lo: nat, toDevice: bool)
      requires host != memory && InBounds(r, pages, memory.Length) && q + w <= |pages|
      requires from == q * r.pageBytes && to == from + w * r.pageBytes && lo + (to - from) <= host.Length
      modifies if toDevice then memory else host
      ensures to <= |PageAddresses(r, pages)| && Copyable(old(State(host)), PageAddresses(r, pages)[from..to], lo)
      ensures State(host) == Copied(toDevice, old(State(host)), PageAddresses(r, pages)[from..to], lo)
    {
      PagesOfList(r, pages, q, w);
      CopyPages(r, pages[q..q + w], host, lo, toDevice);
    }

    /** Indexed whole pages and a direct tail, from page `q` on. */
    method CopyAligned(r: Region, pages: seq<nat>, q: nat, ghost from: nat, ghost to: nat,
                       host: array<Byte>, lo: nat, n: nat, toDevice: bool)
      requires r.Wf() && host != memory && InBounds(r, pages, memory.Length) && lo + n <= host.Length
      requires from == q * r.pageBytes && to == from + n && to <= |PageAddresses(r, pages)|
      modifies if toDevice then memory else host
      ensures Copyable(old(State(host)), PageAddresses(r, pages)[from..to], lo)
      ensures State(host) == Copied(toDevice, old(State(host)), PageAddresses(r, pages)[from..to], lo)
    {
      ghost var x, all := State(host), PageAddresses(r, pages);
      PagesWithin(r, pages, memory.Length);
      var whole, bytes := WholePages(r, pages, q, from, n);
      ghost var mid := from + bytes;
      CopyWhole(r, pages, q, whole, from, mid, host, lo, toDevice);
      if bytes < n {
        CopiedFurther(toDevice, x, all, from, mid, to, lo);
        CopyPart(r, pages, q + whole, 0, mid, to, host, lo + bytes, n - bytes, toDevice);
      }
    }

    /** Direct head and tail fragments around indexed whole pages. */
    method CopyFragments(r: Region, pages: seq<nat>, from: nat, ghost to: nat, host: array<Byte>, lo: nat, n: nat, toDevice: bool)
      requires r.Wf() && host != memory && InBounds(r, pages, memory.Length) && lo + n <= host.Length
      requires from < r.pageBytes && pages != [] && to == from + n && to <= |PageAddresses(r, pages)|
      modifies if toDevice then memory else host
      ensures Copyable(old(State(host)), PageAddresses(r, pages)[from..to], lo)
      ensures State(host) == Copied(toDevice, old(State(host)), PageAddresses(r, pages)[from..to], lo)
    {
      ghost var x, all := State(host), PageAddresses(r, pages);
      PagesWithin(r, pages, memory.Length);
      if from == 0 {
        CopyAligned(r, pages, 0, from, to, host, lo, n, toDevice);
      } else {
        var length := Min(r.pageBytes - from, n);
        ghost var mid := from + length;
        CopyPart(r, pages, 0, from, from, mid, host, lo, length, toDevice);
        if length < n {
          CopiedFurther(toDevice, x, all, from, mid, to, lo);
          CopyAligned(r, pages, 1, mid, to, host, lo + length, n - length, toDevice);
        }
      }
    }

    /** One run of bytes when the pages are dense and consecutive. */
    method CopyDense(r: Region, pages: seq<nat>, from: nat, ghost to: nat, host: array<Byte>, lo: nat, n: nat, toDevice: bool)
      requires r.Wf() && host != memory && InBounds(r, pages, memory.Length) && lo + n <= host.Length
      requires pages != [] && r.Dense() && InARow(pages) && to == from + n && to <= |PageAddresses(r, pages)|
      modifies if toDevice then memory else host
      ensures Copyable(old(State(host)), PageAddresses(r, pages)[from..to], lo)
      ensures State(host) == Copied(toDevice, old(State(host)), PageAddresses(r, pages)[from..to], lo)
    {
      DenseWindow(r, pages, memory.Length, from, n);
      CopyRun(r.Start(pages[0]) + from, host, lo, n, toDevice);
    }

    /** Copies a bounded byte range of a page list: a slice of the concatenated
        pages in either direction, whichever path is taken. */
    method CopyPageBytes(r: Region, physical: seq<nat>, start: nat, host: array<Byte>, lo: nat, n: nat, toDevice: bool)
      returns (ok: bool)
      requires r.Wf() && host != memory && InBounds(r, physical, memory.Length) && lo + n <= host.Length && 0 < n
      modifies if toDevice then memory else host
      ensures ok <==> start + n <= |PageAddresses(r, physical)|
      ensures ok ==> Copyable(old(State(host)), PageAddresses(r, physical)[start..start + n], lo)
      ensures ok ==> State(host) == Copied(toDevice, old(State(host)), PageAddresses(r, physical)[start..start + n], lo)
      ensures !ok ==> State(host) == old(State(host))
    {
      var first, offset := start / r.pageBytes, start % r.pageBytes;
      var count := (offset + n + r.pageBytes - 1) / r.pageBytes;
      TouchedPages(r, start, n, physical, first, offset, count);
      ok := first + count <= |physical|;
      if ok {
        var pages := physical[first..first + count];
        if r.Dense() && InARow(pages) {
          CopyDense(r, pages, offset, offset + n, host, lo, n, toDevice);
        } else {
          CopyFragments(r, pages, offset, offset + n, host, lo, n, toDevice);
        }
      }
    }
  }

  lemma PageStep(r: Region, ids: seq<nat>, i: nat)
    requires i < |ids|
    ensures PageAddresses(r, ids[..i + 1]) == PageAddresses(r, ids[..i]) + Consecutive(r.Start(ids[i]), r.pageBytes)
    ensures |PageAddresses(r, ids[..i])| + r.pageBytes <= |PageAddresses(r, ids)|
  {
    assert ids[..i + 1][..i] == ids[..i];
    PageAddressesAppend(r, ids[..i + 1], ids[i + 1..]);
    assert ids[..i + 1] + ids[i + 1..] == ids;
  }

  lemma PartOfPage(r: Region, pages: seq<nat>, q: nat, offset: nat, from: nat, to: nat)
    requires q < |pages| && from == q * r.pageBytes + offset && from <= to && offset + (to - from) <= r.pageBytes
    ensures to <= |PageAddresses(r, pages)|
    ensures PageAddresses(r, pages)[from..to] == Consecutive(r.Start(pages[q]) + offset, to - from)
  {
    WithinPage(r, pages, q, q * r.pageBytes, offset, to - from);
  }

  lemma DenseWindow(r: Region, pages: seq<nat>, size: nat, offset: nat, n: nat)
    requires pages != [] && r.Dense() && InARow(pages) && InBounds(r, pages, size)
    requires offset + n <= |PageAddresses(r, pages)|
    ensures r.Start(pages[0]) + offset + n <= size
    ensures PageAddresses(r, pages)[offset..offset + n] == Consecutive(r.Start(pages[0]) + offset, n)
  {
    var all := PageAddresses(r, pages);
    DenseRun(r, pages);
    PageAddressesSize(r, pages);
    DenseBounds(r, pages, size, |all|);
    RunWithin(all, 0, |all|, r.Start(pages[0]), offset, n);
  }

  lemma DenseBounds(r: Region, pages: seq<nat>, size: nat, bytes: nat)
    requires pages != [] && r.Dense() && InARow(pages) && InBounds(r, pages, size) && bytes == |pages| * r.pageBytes
    ensures r.Start(pages[0]) + bytes <= size
  {
    var n := |pages| - 1;
    assert pages[n] == pages[0] + n;
    Distributes(pages[0], n, r.stride);
    Distributes(n, 1, r.pageBytes);
  }

  /** From a page boundary, `n` bytes are whole pages and a part of one more. */
  method WholePages(r: Region, pages: seq<nat>, q: nat, ghost from: nat, n: nat) returns (whole: nat, bytes: nat)
    requires r.Wf() && from == q * r.pageBytes && from + n <= |PageAddresses(r, pages)|
    ensures bytes == whole * r.pageBytes && bytes <= n < bytes + r.pageBytes && q + whole <= |pages|
    ensures bytes < n ==> from + bytes == (q + whole) * r.pageBytes && q + whole < |pages|
  {
    whole := n / r.pageBytes;
    bytes := whole * r.pageBytes;
    PageAddressesSize(r, pages);
    Distributes(q, whole, r.pageBytes);
    assert n == whole * r.pageBytes + n % r.pageBytes;
    BelowCount(q + whole, |pages|, r.pageBytes);
  }

  lemma BelowCount(k: nat, count: nat, pb: nat)
    requires pb > 0
    ensures k * pb <= count * pb ==> k <= count
    ensures k * pb < count * pb ==> k < count
  {
  }

  lemma TouchedPages(r: Region, start: nat, n: nat, physical: seq<nat>, first: nat, offset: nat, count: int)
    requires r.Wf() && n > 0 && first == start / r.pageBytes && offset == start % r.pageBytes
    requires count == (offset + n + r.pageBytes - 1) / r.pageBytes
    ensures count >= 1 && offset < r.pageBytes
    ensures first + count <= |physical| <==> start + n <= |PageAddresses(r, physical)|
    ensures first + count <= |physical| ==>
      && offset + n <= |PageAddresses(r, physical[first..first + count])|
      && PageAddresses(r, physical)[start..start + n] ==
         PageAddresses(r, physical[first..first + count])[offset..offset + n]
  {
    PageAddressesSize(r, physical);
    PageCounts(r.pageBytes, start, n, |physical|);
    if first + count <= |physical| {
      PageWindow(r, physical, first, count, first * r.pageBytes, offset, n);
    }
  }

  lemma PageCounts(pb: nat, start: nat, n: nat, available: nat)
    requires pb > 0 && n > 0
    ensures var first, offset := start / pb, start % pb;
      var count := (offset + n + pb - 1) / pb;
      && start == first * pb + offset && offset < pb
      && offset + n <= count * pb && count >= 1
      && (first + count <= available <==> start + n <= available * pb)
  {
    var first, offset := start / pb, start % pb;
    var total := offset + n + pb - 1;
    var count := total / pb;
    assert total == count * pb + total % pb;
    assert (count - 1) * pb == count * pb - pb;
    Distributes(first, count, pb);
    if first + count <= available {
      assert (first + count) * pb <= available * pb;
    } else {
      assert available * pb <= (first + count - 1) * pb;
      assert (first + count - 1) * pb == (first + count) * pb - pb;
    }
  }
}
