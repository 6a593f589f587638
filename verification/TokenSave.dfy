/** Saving a prefix: only absent files are captured, in batches that share one
    staging credit, and every file ends up with exactly its own pages. */
module TokenSave {
  import opened Collections
  import opened Hma
  import opened PageBytes
  import opened PageMover
  import opened PageTransfer
  import opened RoundTrip
  import opened TokenFiles
  import opened TokenCommit

  /** A file: what its header says, down to the payload that its checksums
      determine, and the bytes that the disk holds now. */
  datatype Saved = Saved(parent: Option<FileKey>, span: nat, kind: Kind, payload: seq<Byte>, bytes: seq<Byte>)

  /** A file as it was published. */
  function Written(parent: Option<FileKey>, span: nat, kind: Kind, payload: seq<Byte>): Saved {
    Saved(parent, span, kind, payload, payload)
  }

  type Files = map<FileKey, Saved>

  /** A saved file that passes full authentication as this very chunk. */
  predicate Sound(files: Files, key: FileKey, parent: Option<FileKey>, span: nat, kind: Kind) {
    && key in files && files[key].bytes == files[key].payload
    && files[key].parent == parent && files[key].span == span && files[key].kind == kind
  }

  /** One chunk of the prefix and the file it should have. */
  datatype Chunk = Chunk(key: FileKey, file: Saved)

  /** A stored file that makes capturing the chunk unnecessary. */
  predicate Present(files: Files, c: Chunk) {
    Sound(files, c.key, c.file.parent, c.file.span, c.file.kind)
  }

  ghost predicate DistinctKeys(plan: seq<Chunk>) {
    forall i, j :: 0 <= i < j < |plan| ==> plan[i].key != plan[j].key
  }

  /** One chunk at a time: keep a sound file, otherwise write the chunk's own. */
  function After(files: Files, plan: seq<Chunk>, k: nat): Files
    requires k <= |plan|
  {
    if k == 0 then files
    else if Present(files, plan[k - 1]) then After(files, plan, k - 1)
    else After(files, plan, k - 1)[plan[k - 1].key := plan[k - 1].file]
  }

  lemma {:induction false} AfterElsewhere(files: Files, plan: seq<Chunk>, k: nat, key: FileKey)
    requires k <= |plan| && forall i :: 0 <= i < k ==> plan[i].key != key
    ensures key in After(files, plan, k) <==> key in files
    ensures key in files ==> After(files, plan, k)[key] == files[key]
  {
    if k > 0 { AfterElsewhere(files, plan, k - 1, key); }
  }

  /** Afterwards every chunk has the sound file that was stored, or its own. */
  lemma {:induction false} AfterHolds(files: Files, plan: seq<Chunk>, k: nat, i: nat)
    requires DistinctKeys(plan) && i < k <= |plan|
    ensures plan[i].key in After(files, plan, k)
    ensures After(files, plan, k)[plan[i].key] == if Present(files, plan[i]) then files[plan[i].key] else plan[i].file
  {
    if i < k - 1 {
      AfterHolds(files, plan, k - 1, i);
    } else {
      AfterElsewhere(files, plan, i, plan[i].key);
    }
  }

  lemma {:induction false} AfterPrefix(files: Files, plan: seq<Chunk>, more: seq<Chunk>, k: nat)
    requires k <= |plan|
    ensures After(files, plan + more, k) == After(files, plan, k)
  {
    if k > 0 { AfterPrefix(files, plan, more, k - 1); }
  }

  /** Saving more chunks afterwards is saving them along with the others. */
  lemma {:induction false} AfterConcat(files: Files, a: seq<Chunk>, b: seq<Chunk>, k: nat)
    requires DistinctKeys(a + b) && k <= |b|
    ensures After(After(files, a, |a|), b, k) == After(files, a + b, |a| + k)
  {
    if k == 0 {
      AfterPrefix(files, a, b, |a|);
    } else {
      var c := b[k - 1];
      AfterConcat(files, a, b, k - 1);
      assert (a + b)[|a| + k - 1] == c;
      forall i | 0 <= i < |a| ensures a[i].key != c.key {
        assert (a + b)[i] == a[i];
      }
      AfterElsewhere(files, a, |a|, c.key);
    }
  }

  // ---- absent chunks ----

  /** The first `k` chunks that have no sound file. */
  function Missing(files: Files, plan: seq<Chunk>, k: nat): seq<Chunk>
    requires k <= |plan|
  {
    if k == 0 then [] else Missing(files, plan, k - 1) + if Present(files, plan[k - 1]) then [] else [plan[k - 1]]
  }

  function KeysOf(chunks: seq<Chunk>): set<FileKey> {
    if chunks == [] then {} else KeysOf(chunks[..|chunks| - 1]) + {chunks[|chunks| - 1].key}
  }

  /** `files` with the chunks' own files written. */
  function Filled(files: Files, chunks: seq<Chunk>): Files {
    if chunks == [] then files else
      Filled(files, chunks[..|chunks| - 1])[chunks[|chunks| - 1].key := chunks[|chunks| - 1].file]
  }

  lemma OneMore(files: Files, chunks: seq<Chunk>, c: Chunk)
    ensures KeysOf(chunks + [c]) == KeysOf(chunks) + {c.key}
    ensures Filled(files, chunks + [c]) == Filled(files, chunks)[c.key := c.file]
  {
    assert (chunks + [c])[..|chunks|] == chunks;
  }

  lemma RemoveThenWrite(files: Files, gone: set<FileKey>, k: FileKey, s: Saved)
    ensures (files - gone)[k := s] == files[k := s] - (gone - {k})
  {
  }

  /** Removing unsound files and then writing the missing chunks is the same as
      going chunk by chunk. */
  lemma {:induction false} BatchIsChunks(files: Files, plan: seq<Chunk>, k: nat, gone: set<FileKey>)
    requires k <= |plan|
    ensures Filled(files - gone, Missing(files, plan, k)) == After(files, plan, k) - (gone - KeysOf(Missing(files, plan, k)))
  {
    if k > 0 {
      var before, c := Missing(files, plan, k - 1), plan[k - 1];
      BatchIsChunks(files, plan, k - 1, gone);
      if Present(files, c) {
        assert Missing(files, plan, k) == before;
      } else {
        OneMore(files - gone, before, c);
        RemoveThenWrite(After(files, plan, k - 1), gone - KeysOf(before), c.key, c.file);
        assert gone - KeysOf(before + [c]) == gone - KeysOf(before) - {c.key};
      }
    }
  }

  lemma MissingStep(files: Files, plan: seq<Chunk>, i: nat)
    requires i < |plan|
    ensures Missing(files, plan, i + 1) ==
      if Present(files, plan[i]) then Missing(files, plan, i) else Missing(files, plan, i) + [plan[i]]
    ensures KeysOf(Missing(files, plan, i + 1)) ==
      KeysOf(Missing(files, plan, i)) + if Present(files, plan[i]) then {} else {plan[i].key}
  {
    OneMore(files, Missing(files, plan, i), plan[i]);
  }

  lemma {:induction false} MissingKey(files: Files, plan: seq<Chunk>, k: nat, i: nat)
    requires DistinctKeys(plan) && k <= i < |plan|
    ensures plan[i].key !in KeysOf(Missing(files, plan, k))
  {
    if k > 0 {
      MissingStep(files, plan, k - 1);
      MissingKey(files, plan, k - 1, i);
    }
  }

  lemma {:induction false} KeyIn(chunks: seq<Chunk>, i: nat)
    requires i < |chunks|
    ensures chunks[i].key in KeysOf(chunks)
  {
    if i < |chunks| - 1 { KeyIn(chunks[..|chunks| - 1], i); }
  }

  lemma {:induction false} MissingApart(files: Files, plan: seq<Chunk>, k: nat, i: nat, j: nat)
    requires DistinctKeys(plan) && k <= |plan| && i < j < |Missing(files, plan, k)|
    ensures Missing(files, plan, k)[i].key != Missing(files, plan, k)[j].key
  {
    var before := Missing(files, plan, k - 1);
    MissingStep(files, plan, k - 1);
    if j < |before| {
      MissingApart(files, plan, k - 1, i, j);
    } else {
      MissingKey(files, plan, k - 1, k - 1);
      KeyIn(before, i);
    }
  }

  lemma {:induction false} MissingSize(files: Files, plan: seq<Chunk>, k: nat)
    requires k <= |plan|
    ensures |Missing(files, plan, k)| <= k
  {
    if k > 0 { MissingSize(files, plan, k - 1); }
  }

  lemma MissingDistinct(files: Files, plan: seq<Chunk>, k: nat)
    requires DistinctKeys(plan) && k <= |plan|
    ensures DistinctKeys(Missing(files, plan, k)) && |Missing(files, plan, k)| <= k
  {
    MissingSize(files, plan, k);
    forall i, j | 0 <= i < j < |Missing(files, plan, k)|
      ensures Missing(files, plan, k)[i].key != Missing(files, plan, k)[j].key
    {
      MissingApart(files, plan, k, i, j);
    }
  }

  lemma KeyAfter(chunks: seq<Chunk>, j: nat)
    requires DistinctKeys(chunks) && j < |chunks|
    ensures chunks[j].key !in KeysOf(chunks[..j])
  {
    KeyBeyond(chunks, j, j);
  }

  lemma {:induction false} KeyBeyond(chunks: seq<Chunk>, k: nat, j: nat)
    requires DistinctKeys(chunks) && k <= j < |chunks|
    ensures chunks[j].key !in KeysOf(chunks[..k])
  {
    if k > 0 {
      KeyBeyond(chunks, k - 1, j);
      assert chunks[..k] == chunks[..k - 1] + [chunks[k - 1]];
      OneMore(map[], chunks[..k - 1], chunks[k - 1]);
    }
  }

  lemma {:induction false} FilledKeys(files: Files, chunks: seq<Chunk>)
    ensures Filled(files, chunks).Keys == files.Keys + KeysOf(chunks)
  {
    if chunks != [] { FilledKeys(files, chunks[..|chunks| - 1]); }
  }

  lemma WriteStep(files: Files, chunks: seq<Chunk>, j: nat)
    requires DistinctKeys(chunks) && j < |chunks|
    ensures Filled(files, chunks[..j + 1]) == Filled(files, chunks[..j])[chunks[j].key := chunks[j].file]
    ensures KeysOf(chunks[..j + 1]) == KeysOf(chunks[..j]) + {chunks[j].key}
    ensures chunks[j].key in KeysOf(chunks) && (chunks[j].key in Filled(files, chunks[..j]) <==> chunks[j].key in files)
  {
    assert chunks[..j + 1] == chunks[..j] + [chunks[j]];
    OneMore(files, chunks[..j], chunks[j]);
    FilledKeys(files, chunks[..j]);
    KeyAfter(chunks, j);
    KeyIn(chunks, j);
  }

  // ---- saves that stop half-way ----

  function EntryOf(files: Files, key: FileKey): Option<Saved> {
    if key in files then Some(files[key]) else None
  }

  /** Only the files of `chunks` were touched: each is as it was, gone, or the
      chunk's own. */
  ghost predicate Spares(before: Files, now: Files, chunks: seq<Chunk>) {
    && (forall key :: key !in KeysOf(chunks) ==> EntryOf(now, key) == EntryOf(before, key))
    && forall i :: 0 <= i < |chunks| ==> var c := chunks[i];
         EntryOf(now, c.key) == EntryOf(before, c.key) || EntryOf(now, c.key) in {None, Some(c.file)}
  }

  lemma {:induction false} FilledSpares(before: Files, gone: set<FileKey>, chunks: seq<Chunk>, done: nat)
    requires DistinctKeys(chunks) && done <= |chunks| && gone <= KeysOf(chunks)
    ensures Spares(before, Filled(before - gone, chunks[..done]), chunks)
  {
    if done > 0 {
      var front, c := chunks[..done - 1], chunks[done - 1];
      FilledSpares(before, gone, chunks, done - 1);
      assert chunks[..done] == front + [c];
      OneMore(before - gone, front, c);
      KeyIn(chunks, done - 1);
    }
  }

  // ---- all data files have one size ----

  lemma {:induction false} TotalAppend(a: seq<PageSlice>, b: seq<PageSlice>)
    ensures TotalBytes(a + b) == TotalBytes(a) + TotalBytes(b)
  {
    if b == [] {
      assert a + b == a;
    } else {
      assert (a + b)[..|a + b| - 1] == a + b[..|b| - 1];
      TotalAppend(a, b[..|b| - 1]);
    }
  }

  lemma {:induction false} GroupSize(g: Group, a: nat, b: nat, count: nat, n: nat)
    requires n <= |g.layers|
    ensures TotalBytes(GroupSlices(g, a, count, n)) == TotalBytes(GroupSlices(g, b, count, n))
  {
    if n > 0 {
      GroupSize(g, a, b, count, n - 1);
      var x := PageSlice(LayerKey(g.index, g.layers[n - 1].name), a, count, count * g.layers[n - 1].pageBytes);
      var y := PageSlice(LayerKey(g.index, g.layers[n - 1].name), b, count, count * g.layers[n - 1].pageBytes);
      TotalAppend(GroupSlices(g, a, count, n - 1), [x]);
      TotalAppend(GroupSlices(g, b, count, n - 1), [y]);
      assert [x][..0] == [] && [y][..0] == [];
    }
  }

  lemma ByGroup(g: Group, chunk: nat, a: nat, b: nat)
    requires g.Wf() && chunk <= a && chunk <= b
    ensures TotalBytes(SlicesBy(g, a, chunk, Data)) == TotalBytes(SlicesBy(g, b, chunk, Data))
  {
    GroupSize(g, FirstPage(g, a, chunk, Data), FirstPage(g, b, chunk, Data), PagesIn(g, a, chunk, Data), |g.layers|);
  }

  lemma {:induction false} SameSize(layout: Layout, chunk: nat, a: nat, b: nat, n: nat)
    requires layout.Wf() && chunk <= a && chunk <= b && n <= |layout.groups|
    ensures TotalBytes(SlicesUpTo(layout, a, chunk, Data, n)) == TotalBytes(SlicesUpTo(layout, b, chunk, Data, n))
  {
    if n > 0 {
      var g := layout.groups[n - 1];
      SameSize(layout, chunk, a, b, n - 1);
      ByGroup(g, chunk, a, b);
      TotalAppend(SlicesUpTo(layout, a, chunk, Data, n - 1), SlicesBy(g, a, chunk, Data));
      TotalAppend(SlicesUpTo(layout, b, chunk, Data, n - 1), SlicesBy(g, b, chunk, Data));
    }
  }

  lemma FileSize(layout: Layout, chunk: nat, i: nat)
    requires layout.Wf()
    ensures TotalBytes(DataFile(layout, chunk, i)) == TotalBytes(DataFile(layout, chunk, 0))
  {
    ChunkBelow(i, chunk);
    ChunkBelow(0, chunk);
    SameSize(layout, chunk, (i + 1) * chunk, chunk, |layout.groups|);
  }

  // ---- the saver ----

  /** A chunk to save: where its bytes are is known, the bytes are not yet. */
  datatype Want = Want(key: FileKey, parent: Option<FileKey>, span: nat, kind: Kind, slices: seq<PageSlice>)

  ghost predicate Capturable(wants: seq<Want>, regions: Regions, selected: Selection, size: nat) {
    forall i :: 0 <= i < |wants| ==> AllPlaced(wants[i].slices, regions, selected, size)
  }

  /** The chunk with its pages' bytes. */
  ghost function ChunkOf(w: Want, regions: Regions, selected: Selection, memory: seq<Byte>): Chunk
    requires AllPlaced(w.slices, regions, selected, |memory|)
  {
    Chunk(w.key, Written(w.parent, w.span, w.kind, Captured(w.slices, regions, selected, memory)))
  }

  predicate Describes(w: Want, c: Chunk) {
    c.key == w.key && c.file.parent == w.parent && c.file.span == w.span && c.file.kind == w.kind
  }

  ghost function PlanOf(wants: seq<Want>, regions: Regions, selected: Selection, memory: seq<Byte>): seq<Chunk>
    requires Capturable(wants, regions, selected, |memory|)
  {
    seq(|wants|, i requires 0 <= i < |wants| => ChunkOf(wants[i], regions, selected, memory))
  }

  function SlicesOf(wants: seq<Want>): seq<seq<PageSlice>> {
    seq(|wants|, i requires 0 <= i < |wants| => wants[i].slices)
  }

  ghost predicate Uniform(files: seq<seq<PageSlice>>, size: nat) {
    forall i :: 0 <= i < |files| ==> TotalBytes(files[i]) == size
  }

  lemma OneMoreTimes(n: nat, size: nat)
    ensures n * size + size == (n + 1) * size
  {
  }

  lemma {:induction false} UniformTotal(files: seq<seq<PageSlice>>, size: nat)
    requires Uniform(files, size)
    ensures TotalBytes(Joined(files)) == |files| * size
  {
    if files != [] {
      UniformTotal(files[..|files| - 1], size);
      TotalAppend(Joined(files[..|files| - 1]), files[|files| - 1]);
      assert |files[..|files| - 1]| == |files| - 1;
      OneMoreTimes(|files| - 1, size);
    }
  }

  /** `chunks` are the wanted chunks with their bytes, all of one size. */
  ghost predicate Plans(wants: seq<Want>, size: nat, regions: Regions, selected: Selection, memory: seq<Byte>, chunks: seq<Chunk>) {
    |chunks| == |wants| &&
    (wants != [] ==>
       var n := |wants| - 1;
       && Plans(wants[..n], size, regions, selected, memory, chunks[..n]) && TotalBytes(wants[n].slices) == size
       && AllPlaced(wants[n].slices, regions, selected, |memory|)
       && chunks[n] == ChunkOf(wants[n], regions, selected, memory))
  }

  lemma {:induction false} PlansAt(wants: seq<Want>, size: nat, regions: Regions, selected: Selection,
                                   memory: seq<Byte>, chunks: seq<Chunk>, i: nat)
    requires Plans(wants, size, regions, selected, memory, chunks) && i < |wants|
    ensures Describes(wants[i], chunks[i]) && TotalBytes(wants[i].slices) == size
    ensures AllPlaced(wants[i].slices, regions, selected, |memory|)
    ensures chunks[i] == ChunkOf(wants[i], regions, selected, memory)
  {
    var n := |wants| - 1;
    if i < n { PlansAt(wants[..n], size, regions, selected, memory, chunks[..n], i); }
  }

  lemma PlansDescribe(wants: seq<Want>, size: nat, regions: Regions, selected: Selection, memory: seq<Byte>, chunks: seq<Chunk>)
    requires Plans(wants, size, regions, selected, memory, chunks)
    ensures |chunks| == |wants| && forall i :: 0 <= i < |wants| ==> Describes(wants[i], chunks[i])
  {
    forall i | 0 <= i < |wants| ensures Describes(wants[i], chunks[i]) {
      PlansAt(wants, size, regions, selected, memory, chunks, i);
    }
  }

  lemma PlansMore(wants: seq<Want>, w: Want, size: nat, regions: Regions, selected: Selection, memory: seq<Byte>, chunks: seq<Chunk>)
    requires Plans(wants, size, regions, selected, memory, chunks) && TotalBytes(w.slices) == size
    requires AllPlaced(w.slices, regions, selected, |memory|)
    ensures Plans(wants + [w], size, regions, selected, memory, chunks + [ChunkOf(w, regions, selected, memory)])
  {
    assert (wants + [w])[..|wants|] == wants;
    assert (chunks + [ChunkOf(w, regions, selected, memory)])[..|chunks|] == chunks;
  }

  lemma PlansAre(wants: seq<Want>, size: nat, regions: Regions, selected: Selection, memory: seq<Byte>, chunks: seq<Chunk>)
    requires Plans(wants, size, regions, selected, memory, chunks)
    ensures Capturable(wants, regions, selected, |memory|) && PlanOf(wants, regions, selected, memory) == chunks
    ensures Uniform(SlicesOf(wants), size)
  {
    forall i | 0 <= i < |wants|
      ensures AllPlaced(wants[i].slices, regions, selected, |memory|) && TotalBytes(wants[i].slices) == size
      ensures chunks[i] == ChunkOf(wants[i], regions, selected, memory)
    {
      PlansAt(wants, size, regions, selected, memory, chunks, i);
    }
  }

  lemma {:induction false} PlansUpTo(wants: seq<Want>, size: nat, regions: Regions, selected: Selection,
                                     memory: seq<Byte>, chunks: seq<Chunk>, n: nat)
    requires Capturable(wants, regions, selected, |memory|) && Uniform(SlicesOf(wants), size) && n <= |wants|
    requires chunks == PlanOf(wants, regions, selected, memory)
    ensures Plans(wants[..n], size, regions, selected, memory, chunks[..n])
  {
    if n > 0 {
      PlansUpTo(wants, size, regions, selected, memory, chunks, n - 1);
      assert SlicesOf(wants)[n - 1] == wants[n - 1].slices;
      PlansMore(wants[..n - 1], wants[n - 1], size, regions, selected, memory, chunks[..n - 1]);
      assert wants[..n] == wants[..n - 1] + [wants[n - 1]] && chunks[..n] == chunks[..n - 1] + [chunks[n - 1]];
    }
  }

  lemma PlansAll(wants: seq<Want>, size: nat, regions: Regions, selected: Selection, memory: seq<Byte>, chunks: seq<Chunk>)
    requires Capturable(wants, regions, selected, |memory|) && Uniform(SlicesOf(wants), size)
    requires chunks == PlanOf(wants, regions, selected, memory)
    ensures Plans(wants, size, regions, selected, memory, chunks)
  {
    PlansUpTo(wants, size, regions, selected, memory, chunks, |wants|);
    assert wants[..|wants|] == wants && chunks[..|wants|] == chunks;
  }

  lemma PlansSlice(wants: seq<Want>, size: nat, regions: Regions, selected: Selection, memory: seq<Byte>, chunks: seq<Chunk>,
                   start: nat, end: nat)
    requires Plans(wants, size, regions, selected, memory, chunks) && start <= end <= |wants|
    ensures |chunks| == |wants| && Plans(wants[start..end], size, regions, selected, memory, chunks[start..end])
  {
    PlansAre(wants, size, regions, selected, memory, chunks);
    forall i | 0 <= i < end - start ensures TotalBytes(SlicesOf(wants[start..end])[i]) == size {
      assert SlicesOf(wants)[start + i] == wants[start + i].slices;
    }
    PlansAll(wants[start..end], size, regions, selected, memory, chunks[start..end]);
  }

  /** The first `k` wanted chunks that have no sound file. */
  function Absent(files: Files, wants: seq<Want>, k: nat): seq<Want>
    requires k <= |wants|
  {
    if k == 0 then [] else
      var w := wants[k - 1];
      Absent(files, wants, k - 1) + if Sound(files, w.key, w.parent, w.span, w.kind) then [] else [w]
  }

  lemma AbsentStep(files: Files, wants: seq<Want>, plan: seq<Chunk>, k: nat)
    requires 0 < k <= |wants| == |plan| && Describes(wants[k - 1], plan[k - 1])
    ensures Present(files, plan[k - 1]) ==>
      Absent(files, wants, k) == Absent(files, wants, k - 1) && Missing(files, plan, k) == Missing(files, plan, k - 1)
    ensures !Present(files, plan[k - 1]) ==>
      Absent(files, wants, k) == Absent(files, wants, k - 1) + [wants[k - 1]] &&
      Missing(files, plan, k) == Missing(files, plan, k - 1) + [plan[k - 1]]
  {
  }

  lemma {:induction false} AbsentIsMissing(files: Files, wants: seq<Want>, k: nat, size: nat, regions: Regions, selected: Selection,
                                           memory: seq<Byte>, plan: seq<Chunk>, missing: seq<Want>, chunks: seq<Chunk>)
    requires k <= |wants| && Plans(wants, size, regions, selected, memory, plan)
    requires missing == Absent(files, wants, k) && chunks == Missing(files, plan, k)
    ensures Plans(missing, size, regions, selected, memory, chunks)
  {
    if k > 0 {
      var a, c := Absent(files, wants, k - 1), Missing(files, plan, k - 1);
      AbsentIsMissing(files, wants, k - 1, size, regions, selected, memory, plan, a, c);
      PlansAt(wants, size, regions, selected, memory, plan, k - 1);
      AbsentStep(files, wants, plan, k);
      if !Present(files, plan[k - 1]) {
        PlansMore(a, wants[k - 1], size, regions, selected, memory, c);
      }
    }
  }

  /** Before its turn a chunk's own name is as it was. */
  lemma Untouched(files: Files, plan: seq<Chunk>, i: nat, pinned: set<FileKey>)
    requires DistinctKeys(plan) && i < |plan|
    ensures Present(files - (KeysOf(Missing(files, plan, i)) - pinned), plan[i]) == Present(files, plan[i])
  {
    MissingKey(files, plan, i, i);
  }

  // ---- the namespace lock is dropped between batches ----

  /** One batch, under the lock: the files when it was taken and when released. */
  datatype Turn = Turn(start: nat, end: nat, before: Files, after: Files)

  /** Completed turns, one after another, for the first `n` chunks. */
  ghost predicate Logged(log: seq<Turn>, plan: seq<Chunk>, n: nat) {
    if log == [] then n == 0 else
      var t := log[|log| - 1];
      && t.start <= t.end == n <= |plan| && t.after == After(t.before, plan[t.start..n], n - t.start)
      && Logged(log[..|log| - 1], plan, t.start)
  }

  /** The last turn failed; the others were completed. */
  ghost predicate Interrupted(log: seq<Turn>, plan: seq<Chunk>) {
    && log != []
    && var t := log[|log| - 1];
       && t.start < t.end <= |plan| && Logged(log[..|log| - 1], plan, t.start)
       && Spares(t.before, t.after, Missing(t.before, plan[t.start..t.end], t.end - t.start))
  }

  lemma LoggedMore(log: seq<Turn>, plan: seq<Chunk>, t: Turn)
    requires Logged(log, plan, t.start) && t.start <= t.end <= |plan|
    requires t.after == After(t.before, plan[t.start..t.end], t.end - t.start)
    ensures Logged(log + [t], plan, t.end)
  {
    assert (log + [t])[..|log|] == log;
  }

  lemma InterruptedAt(log: seq<Turn>, plan: seq<Chunk>, t: Turn)
    requires Logged(log, plan, t.start) && t.start < t.end <= |plan|
    requires Spares(t.before, t.after, Missing(t.before, plan[t.start..t.end], t.end - t.start))
    ensures Interrupted(log + [t], plan)
  {
    assert (log + [t])[..|log|] == log;
  }

  lemma {:induction false} LoggedPrefix(log: seq<Turn>, plan: seq<Chunk>, m: nat, n: nat)
    requires m <= |plan| && Logged(log, plan[..m], n)
    ensures Logged(log, plan, n)
  {
    if log != [] {
      var t := log[|log| - 1];
      LoggedPrefix(log[..|log| - 1], plan, m, t.start);
      assert plan[..m][t.start..n] == plan[t.start..n];
    }
  }

  lemma InterruptedPrefix(log: seq<Turn>, plan: seq<Chunk>, m: nat)
    requires m <= |plan| && Interrupted(log, plan[..m])
    ensures Interrupted(log, plan)
  {
    var t := log[|log| - 1];
    LoggedPrefix(log[..|log| - 1], plan, m, t.start);
    assert plan[..m][t.start..t.end] == plan[t.start..t.end];
  }

  /** Whatever other processes do between the turns, every chunk has the sound
      file that was stored, or its own, when its turn ends. */
  lemma {:induction false} TurnStores(log: seq<Turn>, plan: seq<Chunk>, n: nat, i: nat) returns (j: nat)
    requires Logged(log, plan, n) && DistinctKeys(plan) && i < n
    ensures j < |log| && i < |plan| && log[j].start <= i < log[j].end
    ensures plan[i].key in log[j].after
    ensures log[j].after[plan[i].key] ==
            if Present(log[j].before, plan[i]) then log[j].before[plan[i].key] else plan[i].file
  {
    var t := log[|log| - 1];
    if i < t.start {
      j := TurnStores(log[..|log| - 1], plan, t.start, i);
    } else {
      j := |log| - 1;
      assert plan[t.start..n][i - t.start] == plan[i];
      AfterHolds(t.before, plan[t.start..n], n - t.start, i - t.start);
    }
  }

  /** No other process changed the files between two turns. */
  ghost predicate Unbroken(log: seq<Turn>) {
    forall i :: 0 <= i < |log| - 1 ==> log[i].after == log[i + 1].before
  }

  /** Alone, all turns together go chunk by chunk through the whole plan. */
  lemma {:induction false} AloneIsWhole(log: seq<Turn>, plan: seq<Chunk>, n: nat)
    requires Logged(log, plan, n) && Unbroken(log) && log != [] && DistinctKeys(plan)
    ensures n <= |plan| && log[|log| - 1].after == After(log[0].before, plan, n)
  {
    var m, t := |log| - 1, log[|log| - 1];
    var front := plan[..t.start];
    assert plan[..n] == front + plan[t.start..n];
    if m > 0 {
      AloneIsWhole(log[..m], plan, t.start);
      assert log[m - 1].after == log[m].before;
      AfterWithin(log[0].before, plan, t.start, t.start);
    } else {
      assert log[..m] == [];
    }
    AfterConcat(log[0].before, front, plan[t.start..n], n - t.start);
    AfterWithin(log[0].before, plan, n, n);
  }

  lemma AfterWithin(files: Files, plan: seq<Chunk>, n: nat, k: nat)
    requires k <= n <= |plan|
    ensures After(files, plan[..n], k) == After(files, plan, k)
  {
    assert plan == plan[..n] + plan[n..];
    AfterPrefix(files, plan[..n], plan[n..], k);
  }

  class PrefixSaver {
    const mover: Mover
    /** The store's authentication unit. */
    const unit: nat
    var files: Files
    /** Files that some reader holds pinned. */
    var pinned: set<FileKey>
    /** How many system calls have failed. */
    ghost var faults: nat

    ghost predicate Valid() {
      mover.Valid() && 0 < unit <= mover.slot.Length
    }

    constructor (mover: Mover, unit: nat, files: Files, pinned: set<FileKey>)
      requires mover.Valid() && 0 < unit <= mover.slot.Length
      ensures Valid() && this.mover == mover && this.files == files && this.pinned == pinned
    {
      this.mover, this.unit, this.files, this.pinned := mover, unit, files, pinned;
      faults := 0;
    }

    /** A system call, which may fail. */
    method Attempt() returns (ok: bool)
      modifies this`faults
      ensures faults == old(faults) + if ok then 0 else 1
    {
      ok := *;
      faults := if ok then faults else faults + 1;
    }

    /** While the namespace lock is free, other processes publish, evict,
        quarantine, pin and unpin. */
    method OthersAct()
      modifies this`files, this`pinned
    {
      files, pinned := *, *;
    }

    /** Authenticates a stored chunk in full; a bad one is quarantined, or only
        marked when it is pinned. */
    method ValidChunk(w: Want) returns (found: bool)
      modifies this`files
      ensures found == Sound(old(files), w.key, w.parent, w.span, w.kind)
      ensures files == if found || w.key in pinned then old(files) else old(files) - {w.key}
    {
      found := Sound(files, w.key, w.parent, w.span, w.kind);
      if !found && w.key !in pinned {
        files := files - {w.key};
      }
    }

    /** Publishes one file. The disk may refuse, even after the file was linked. */
    method CommitChunk(w: Want, payload: seq<Byte>) returns (ok: bool, ghost linked: bool)
      modifies this`files, this`faults
      ensures faults >= old(faults) && (ok <==> faults == old(faults) && w.key !in old(files))
      ensures files == if linked then old(files)[w.key := Written(w.parent, w.span, w.kind, payload)] else old(files)
      ensures (ok ==> linked) && (linked ==> w.key !in old(files))
    {
      if w.key in files {
        return false, false;
      }
      linked := false;
      ok := Attempt();
      if !ok {
        return;
      }
      linked := true;
      files := files[w.key := Written(w.parent, w.span, w.kind, payload)];
      ok := Attempt();
    }

    /** Whether chunk `i` is missing; an unsound file of it is gone afterwards,
        unless it is pinned. */
    method CheckChunk(w: Want, i: nat, ghost before: Files, ghost plan: seq<Chunk>) returns (found: bool)
      requires DistinctKeys(plan) && i < |plan| && Describes(w, plan[i])
      requires files == before - (KeysOf(Missing(before, plan, i)) - pinned)
      modifies this`files
      ensures found == Present(before, plan[i])
      ensures files == before - (KeysOf(Missing(before, plan, i + 1)) - pinned)
    {
      ghost var missing := Missing(before, plan, i);
      Untouched(before, plan, i, pinned);
      MissingStep(before, plan, i);
      found := ValidChunk(w);
      assert before - (KeysOf(missing) - pinned) - ({w.key} - pinned) == before - (KeysOf(missing) + {w.key} - pinned);
    }

    /** The chunks of a batch to capture; their unsound files are gone afterwards,
        unless they are pinned. */
    method FindMissing(wants: seq<Want>, ghost plan: seq<Chunk>) returns (missing: seq<Want>)
      requires |plan| == |wants| && DistinctKeys(plan) && forall i :: 0 <= i < |wants| ==> Describes(wants[i], plan[i])
      modifies this`files
      ensures missing == Absent(old(files), wants, |wants|)
      ensures files == old(files) - (KeysOf(Missing(old(files), plan, |plan|)) - pinned)
    {
      missing := [];
      var i := 0;
      assert files - ({} - pinned) == files;
      while i < |wants|
        invariant 0 <= i <= |wants| && missing == Absent(old(files), wants, i)
        invariant files == old(files) - (KeysOf(Missing(old(files), plan, i)) - pinned)
      {
        var found := CheckChunk(wants[i], i, old(files), plan);
        missing := if found then missing else missing + [wants[i]];
        i := i + 1;
      }
    }

    /** Publishes captured payloads in order, up to the first that fails. */
    method WriteAll(missing: seq<Want>, payloads: seq<seq<Byte>>, ghost chunks: seq<Chunk>) returns (ok: bool, ghost done: nat)
      requires |payloads| == |missing| == |chunks| && DistinctKeys(chunks)
      requires forall j :: 0 <= j < |missing| ==>
        chunks[j] == Chunk(missing[j].key, Written(missing[j].parent, missing[j].span, missing[j].kind, payloads[j]))
      modifies this`files, this`faults
      ensures done <= |chunks| && files == Filled(old(files), chunks[..done])
      ensures ok ==> done == |chunks| && KeysOf(chunks) !! old(files).Keys
      ensures faults >= old(faults) && (faults == old(faults) && KeysOf(chunks) !! old(files).Keys ==> ok)
    {
      var j := 0;
      ok, done := true, 0;
      while j < |missing|
        invariant 0 <= j == done <= |missing| && ok && files == Filled(old(files), chunks[..j])
        invariant KeysOf(chunks[..j]) !! old(files).Keys
        invariant faults == old(faults)
      {
        WriteStep(old(files), chunks, j);
        ghost var linked;
        ok, linked := CommitChunk(missing[j], payloads[j]);
        done := if linked then j + 1 else j;
        if !ok {
          return;
        }
        j := j + 1;
      }
      assert chunks[..j] == chunks;
    }

    /** Captures the missing chunks: one that exceeds the credit range by range,
        otherwise all of them in one packed view. */
    method CaptureMissing(missing: seq<Want>, selected: Selection, size: nat) returns (payloads: seq<seq<Byte>>)
      requires Valid() && missing != [] && size > 0 && Uniform(SlicesOf(missing), size)
      requires Capturable(missing, mover.regions, selected, mover.device.memory.Length)
      requires size > mover.slot.Length ==> |missing| == 1
      requires size <= mover.slot.Length ==> |missing| * size <= mover.slot.Length
      modifies mover.slot
      ensures |payloads| == |missing|
      ensures forall j :: 0 <= j < |missing| ==>
        payloads[j] == Captured(missing[j].slices, mover.regions, selected, mover.device.memory[..])
    {
      var slices := SlicesOf(missing);
      if size > mover.slot.Length {
        var payload := CaptureStreamed(mover, missing[0].slices, selected, unit);
        payloads := [payload];
      } else {
        UniformTotal(slices, size);
        Positive(|missing|, size);
        payloads := CaptureFiles(mover, slices, selected);
      }
    }

    /** Captures what is missing and publishes it. */
    method SaveMissing(missing: seq<Want>, selected: Selection, size: nat, ghost chunks: seq<Chunk>) returns (ok: bool, ghost done: nat)
      requires Valid() && missing != [] && size > 0
      requires Plans(missing, size, mover.regions, selected, mover.device.memory[..], chunks)
      requires size > mover.slot.Length ==> |missing| == 1
      requires size <= mover.slot.Length ==> |missing| * size <= mover.slot.Length
      requires DistinctKeys(chunks)
      modifies this`files, this`faults, mover.slot
      ensures done <= |chunks| && files == Filled(old(files), chunks[..done])
      ensures ok ==> done == |chunks| && KeysOf(chunks) !! old(files).Keys
      ensures faults >= old(faults) && (faults == old(faults) && KeysOf(chunks) !! old(files).Keys ==> ok)
    {
      PlansAre(missing, size, mover.regions, selected, mover.device.memory[..], chunks);
      var payloads := CaptureMissing(missing, selected, size);
      PayloadsMatch(missing, payloads, mover.regions, selected, mover.device.memory[..], chunks);
      ok, done := WriteAll(missing, payloads, chunks);
    }

    /** One batch under the lock: only absent chunks are captured. A failure spares
        every sound file. A pinned bad file always leads to one, and otherwise
        only a failing system call does. */
    method SaveBatch(wants: seq<Want>, selected: Selection, size: nat, ghost plan: seq<Chunk>) returns (ok: bool)
      requires Valid() && Plans(wants, size, mover.regions, selected, mover.device.memory[..], plan) && DistinctKeys(plan)
      requires wants != [] && size > 0
      requires if size > mover.slot.Length then |wants| == 1 else |wants| * size <= mover.slot.Length
      modifies this`files, this`faults, mover.slot
      ensures ok ==> files == After(old(files), plan, |plan|)
      ensures ok ==> KeysOf(Missing(old(files), plan, |plan|)) * old(files).Keys !! pinned
      ensures faults >= old(faults)
      ensures faults == old(faults) && KeysOf(Missing(old(files), plan, |plan|)) * old(files).Keys !! pinned ==> ok
      ensures Spares(old(files), files, Missing(old(files), plan, |plan|))
    {
      PlansDescribe(wants, size, mover.regions, selected, mover.device.memory[..], plan);
      ghost var chunks := Missing(files, plan, |plan|);
      MissingDistinct(files, plan, |plan|);
      ghost var gone := KeysOf(chunks) - pinned;
      var missing := FindMissing(wants, plan);
      AbsentIsMissing(old(files), wants, |wants|, size, mover.regions, selected, mover.device.memory[..], plan, missing, chunks);
      MulMonotone(|missing|, |wants|, size);
      ghost var done := 0;
      ok := true;
      if missing != [] {
        ok, done := SaveMissing(missing, selected, size, chunks);
      }
      BatchDone(old(files), plan, gone, done);
    }

    /** Takes the lock for one batch, the chunks `start..end` of the plan. */
    method TakeTurn(batch: seq<Want>, selected: Selection, size: nat, ghost plan: seq<Chunk>, ghost start: nat, ghost end: nat,
                    ghost before: seq<Turn>)
      returns (ok: bool, ghost log: seq<Turn>)
      requires Valid() && start < end <= |plan| && DistinctKeys(plan) && Logged(before, plan, start)
      requires Plans(batch, size, mover.regions, selected, mover.device.memory[..], plan[start..end]) && size > 0
      requires if size > mover.slot.Length then |batch| == 1 else |batch| * size <= mover.slot.Length
      modifies this`files, this`pinned, this`faults, mover.slot
      ensures if ok then Logged(log, plan, end) else Interrupted(log, plan)
      ensures log != [] && files == log[|log| - 1].after
    {
      OthersAct();
      ghost var found := files;
      ok := SaveBatch(batch, selected, size, plan[start..end]);
      ghost var turn := Turn(start, end, found, files);
      log := before + [turn];
      if ok {
        LoggedMore(before, plan, turn);
      } else {
        InterruptedAt(before, plan, turn);
      }
    }

    /** Saves the absent chunks batch by batch, taking the lock for each. */
    method SaveBatches(wants: seq<Want>, selected: Selection, size: nat, ghost plan: seq<Chunk>)
      returns (ok: bool, ghost log: seq<Turn>)
      requires Valid() && Plans(wants, size, mover.regions, selected, mover.device.memory[..], plan) && DistinctKeys(plan)
      requires size > 0
      modifies this`files, this`pinned, this`faults, mover.slot
      ensures if ok then Logged(log, plan, |plan|) else Interrupted(log, plan)
      ensures if log == [] then files == old(files) else files == log[|log| - 1].after
    {
      ghost var memory := mover.device.memory[..];
      var count, start := BatchCount(mover.slot.Length, size), 0;
      ok, log := true, [];
      while start < |wants|
        invariant 0 <= start <= |wants| == |plan| && Logged(log, plan, start)
        invariant if log == [] then files == old(files) else files == log[|log| - 1].after
        invariant mover.device.memory[..] == memory
      {
        var end := Min(start + count, |wants|);
        MulMonotone(end - start, count, size);
        PlansSlice(wants, size, mover.regions, selected, memory, plan, start, end);
        ok, log := TakeTurn(wants[start..end], selected, size, plan, start, end, log);
        if !ok {
          return;
        }
        start := end;
      }
    }

    /** Saves every absent chunk of the prefix, batch by batch. */
    method SavePrefix(wants: seq<Want>, selected: Selection, size: nat, ghost plan: seq<Chunk>) returns (ok: bool, ghost log: seq<Turn>)
      requires Valid() && Capturable(wants, mover.regions, selected, mover.device.memory.Length)
      requires plan == PlanOf(wants, mover.regions, selected, mover.device.memory[..]) && DistinctKeys(plan)
      requires size > 0 && Uniform(SlicesOf(wants), size)
      modifies this`files, this`pinned, this`faults, mover.slot
      ensures if ok then Logged(log, plan, |plan|) else Interrupted(log, plan)
      ensures if log == [] then files == old(files) else files == log[|log| - 1].after
    {
      PlansAll(wants, size, mover.regions, selected, mover.device.memory[..], plan);
      ok, log := SaveBatches(wants, selected, size, plan);
    }

    /** Saves the data files, then the boundary state at the prefix's end. */
    method SaveKeys(wants: seq<Want>, state: Option<Want>, selected: Selection, size: nat, stateSize: nat, ghost plan: seq<Chunk>)
      returns (ok: bool, ghost log: seq<Turn>)
      requires Valid() && 0 < size && 0 < stateSize && DistinctKeys(plan)
      requires |plan| == |wants| + if state.Some? then 1 else 0
      requires Plans(wants, size, mover.regions, selected, mover.device.memory[..], plan[..|wants|])
      requires state.Some? ==>
        Plans([state.value], stateSize, mover.regions, selected, mover.device.memory[..], [plan[|wants|]])
      modifies this`files, this`pinned, this`faults, mover.slot
      ensures if ok then Logged(log, plan, |plan|) else Interrupted(log, plan)
      ensures if log == [] then files == old(files) else files == log[|log| - 1].after
    {
      ghost var m := |wants|;
      ok, log := SaveBatches(wants, selected, size, plan[..m]);
      if !ok {
        InterruptedPrefix(log, plan, m);
        return;
      }
      LoggedPrefix(log, plan, m, m);
      if state.Some? {
        assert plan[m..m + 1] == [plan[m]];
        ok, log := TakeTurn([state.value], selected, stateSize, plan, m, m + 1, log);
      }
    }
  }

  /** At most sixteen chunks, as many as fit the credit, and at least one. */
  function BatchCount(slot: nat, size: nat): (count: nat)
    requires size > 0
    ensures 1 <= count <= MAX_BATCH_CHUNKS
    ensures size > slot ==> count == 1
    ensures size <= slot ==> count * size <= slot
    ensures size <= slot && count < MAX_BATCH_CHUNKS ==> (count + 1) * size > slot
  {
    var fit := slot / size;
    assert fit * size <= slot;
    MulMonotone(Min(MAX_BATCH_CHUNKS, fit), fit, size);
    Max(1, Min(MAX_BATCH_CHUNKS, fit))
  }

  lemma BatchDone(files: Files, plan: seq<Chunk>, gone: set<FileKey>, done: nat)
    requires DistinctKeys(plan)
    requires gone <= KeysOf(Missing(files, plan, |plan|)) && done <= |Missing(files, plan, |plan|)|
    ensures var chunks := Missing(files, plan, |plan|);
      && Spares(files, Filled(files - gone, chunks[..done]), chunks)
      && (done == |chunks| ==> Filled(files - gone, chunks[..done]) == After(files, plan, |plan|))
  {
    var chunks := Missing(files, plan, |plan|);
    MissingDistinct(files, plan, |plan|);
    FilledSpares(files, gone, chunks, done);
    BatchIsChunks(files, plan, |plan|, gone);
    assert chunks[..|chunks|] == chunks && gone - KeysOf(chunks) == {};
    assert After(files, plan, |plan|) - {} == After(files, plan, |plan|);
  }

  lemma PayloadsMatch(missing: seq<Want>, payloads: seq<seq<Byte>>, regions: Regions, selected: Selection,
                      memory: seq<Byte>, chunks: seq<Chunk>)
    requires Capturable(missing, regions, selected, |memory|) && |payloads| == |missing|
    requires chunks == PlanOf(missing, regions, selected, memory)
    requires forall j :: 0 <= j < |missing| ==> payloads[j] == Captured(missing[j].slices, regions, selected, memory)
    ensures |chunks| == |missing|
    ensures forall j :: 0 <= j < |missing| ==>
      chunks[j] == Chunk(missing[j].key, Written(missing[j].parent, missing[j].span, missing[j].kind, payloads[j]))
  {
  }
}
