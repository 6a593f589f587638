/** Names that a crash may lose: every name has a value now and the values that
    a crash could leave, one directory fsync ago or later. */
module CrashDisk {
  import opened Collections

  /** A digest of 64 hex digits as a number. */
  type Key = nat
  type Inode = nat

  const SHARD_WIDTH: nat := 0x100000000000000000000000000000000000000000000000000000000000000
  const OFFSET_SHIFT: nat := 0x1000000000000000000000000000000000000000000000000
  const OFFSET_MASK: nat := 0x4000_0000_0000_0000

  /** The directory named by the first two digits. */
  function ShardOf(k: Key): nat { k / SHARD_WIDTH }

  /** The lock offset: the first sixteen digits, below 2^62, doubled. */
  function LockOffset(k: Key): nat { (k / OFFSET_SHIFT) % OFFSET_MASK * 2 }

  datatype Cell<V(==)> = Cell(now: V, may: set<V>) {
    function Set(v: V): Cell<V> { Cell(v, may + {v}) }

    function Sync(): Cell<V> { Cell(now, {now}) }
  }

  /** A data file: the key it was written for, whether it is completely
      written, whether that content has been fsynced, and whether its bytes
      still pass full authentication. */
  datatype File = File(key: Key, whole: bool, synced: bool, sound: bool)

  /** A file that may be linked under `k`. */
  predicate Complete(f: File, k: Key) { f.key == k && f.whole && f.synced }

  datatype Disk = Disk(markers: map<Key, Cell<bool>>, live: map<Key, Cell<Option<Inode>>>,
                       shards: map<nat, Cell<bool>>, files: map<Inode, File>) {
    function MarkerAt(k: Key): Cell<bool> { if k in markers then markers[k] else Cell(false, {false}) }

    function LiveAt(k: Key): Cell<Option<Inode>> { if k in live then live[k] else Cell(None, {None}) }

    function ShardAt(s: nat): Cell<bool> { if s in shards then shards[s] else Cell(false, {false}) }

    // ---- what the system calls change ----

    function SetMarker(k: Key, present: bool): Disk { this.(markers := markers[k := MarkerAt(k).Set(present)]) }

    function SyncMarkers(): Disk { this.(markers := map k | k in markers :: markers[k].Sync()) }

    function SetLive(k: Key, file: Option<Inode>): Disk { this.(live := live[k := LiveAt(k).Set(file)]) }

    function SyncShard(s: nat): Disk {
      this.(live := map k | k in live :: if ShardOf(k) == s then live[k].Sync() else live[k])
    }

    function MakeShard(s: nat): Disk { this.(shards := shards[s := ShardAt(s).Set(true)]) }

    function SyncManifests(): Disk { this.(shards := map s | s in shards :: shards[s].Sync()) }

    function SetFile(i: Inode, f: File): Disk { this.(files := files[i := f]) }
  }

  /** Every name has a current value among those a crash may leave. */
  ghost predicate CellsOk(d: Disk) {
    && (forall k :: d.MarkerAt(k).now in d.MarkerAt(k).may)
    && (forall k :: d.LiveAt(k).now in d.LiveAt(k).may)
    && (forall s :: d.ShardAt(s).now in d.ShardAt(s).may)
  }

  /** A completed withdrawal mark survives any crash. */
  ghost predicate Fenced(d: Disk, fenced: set<Key>) {
    forall k :: k in fenced ==> d.MarkerAt(k).may == {true}
  }

  /** A live name can only ever be left pointing at a completely written and
      synced file of its own key. */
  ghost predicate NamesWhole(d: Disk) {
    forall k, i :: Some(i) in d.LiveAt(k).may ==> i in d.files && Complete(d.files[i], k)
  }

  /** A name is only created below a durable shard link. */
  ghost predicate ShardsHeld(d: Disk) {
    forall k :: d.LiveAt(k).may != {None} ==> d.ShardAt(ShardOf(k)).may == {true}
  }

  ghost predicate Safe(d: Disk, fenced: set<Key>) {
    CellsOk(d) && Fenced(d, fenced) && NamesWhole(d) && ShardsHeld(d)
  }

  // ---- crashes ----

  /** `c` is what a crash can leave of `d`: each name takes one of its possible
      values, names below a lost shard are gone, and unsynced files may hold
      anything. */
  ghost predicate CrashOf(d: Disk, c: Disk) {
    && (forall k :: c.MarkerAt(k).may == {c.MarkerAt(k).now} && c.MarkerAt(k).now in d.MarkerAt(k).may)
    && (forall s :: c.ShardAt(s).may == {c.ShardAt(s).now} && c.ShardAt(s).now in d.ShardAt(s).may)
    && (forall k :: c.LiveAt(k).may == {c.LiveAt(k).now} &&
          if c.ShardAt(ShardOf(k)).now then c.LiveAt(k).now in d.LiveAt(k).may else c.LiveAt(k).now == None)
    && (forall i :: i in d.files && d.files[i].synced ==> i in c.files && c.files[i] == d.files[i])
    && c.files.Keys <= d.files.Keys
  }

  /** In every crash state a fenced key has its marker, and every live name
      points at completely written content of its key. */
  lemma CrashIsSafe(d: Disk, fenced: set<Key>, c: Disk)
    requires Safe(d, fenced) && CrashOf(d, c)
    ensures forall k :: k in fenced ==> c.MarkerAt(k).now
    ensures forall k :: c.LiveAt(k).now.Some? ==>
      c.LiveAt(k).now.value in c.files && Complete(c.files[c.LiveAt(k).now.value], k)
    ensures Safe(c, fenced)
  {
    forall k | k in fenced ensures c.MarkerAt(k).now && c.MarkerAt(k).may == {true} {
      assert d.MarkerAt(k).may == {true};
    }
    forall k | c.LiveAt(k).may != {None} ensures c.ShardAt(ShardOf(k)).may == {true} {
      assert d.LiveAt(k).may != {None};
    }
  }

  // ---- each system call keeps the disk safe ----

  lemma MarkerSafe(d: Disk, fenced: set<Key>, k: Key, present: bool)
    requires Safe(d, fenced) && (present || k !in fenced)
    ensures Safe(d.SetMarker(k, present), fenced)
  {
    var e := d.SetMarker(k, present);
    assert forall j :: e.MarkerAt(j) == if j == k then d.MarkerAt(k).Set(present) else d.MarkerAt(j);
    assert forall j :: e.LiveAt(j) == d.LiveAt(j);
    assert forall s :: e.ShardAt(s) == d.ShardAt(s);
    assert k in fenced ==> d.MarkerAt(k).may == {true};
  }

  lemma SyncMarkersSafe(d: Disk, fenced: set<Key>)
    requires Safe(d, fenced)
    ensures Safe(d.SyncMarkers(), fenced)
    ensures forall k :: d.SyncMarkers().MarkerAt(k) == d.MarkerAt(k).Sync()
  {
    var e := d.SyncMarkers();
    assert forall j :: e.MarkerAt(j) == d.MarkerAt(j).Sync();
    assert forall j :: e.LiveAt(j) == d.LiveAt(j);
    assert forall s :: e.ShardAt(s) == d.ShardAt(s);
    forall j | j in fenced ensures e.MarkerAt(j).may == {true} {
      assert d.MarkerAt(j).may == {true} && d.MarkerAt(j).now in d.MarkerAt(j).may;
    }
  }

  /** Completing a mark starts a fence. */
  lemma FenceBegins(d: Disk, fenced: set<Key>, k: Key)
    requires Safe(d, fenced) && d.MarkerAt(k).may == {true}
    ensures Safe(d, fenced + {k})
  {
  }

  lemma FenceEnds(d: Disk, fenced: set<Key>, k: Key)
    requires Safe(d, fenced)
    ensures Safe(d, fenced - {k})
  {
  }

  lemma LiveSafe(d: Disk, fenced: set<Key>, k: Key, file: Option<Inode>)
    requires Safe(d, fenced)
    requires file.Some? ==> file.value in d.files && Complete(d.files[file.value], k) && d.ShardAt(ShardOf(k)).may == {true}
    ensures Safe(d.SetLive(k, file), fenced)
  {
    var e := d.SetLive(k, file);
    assert forall j :: e.LiveAt(j) == if j == k then d.LiveAt(k).Set(file) else d.LiveAt(j);
    assert forall j :: e.MarkerAt(j) == d.MarkerAt(j);
    assert forall s :: e.ShardAt(s) == d.ShardAt(s);
    if file.None? && d.LiveAt(k).may == {None} {
      assert e.LiveAt(k).may == {None};
    }
  }

  lemma SyncShardSafe(d: Disk, fenced: set<Key>, s: nat)
    requires Safe(d, fenced)
    ensures Safe(d.SyncShard(s), fenced)
    ensures forall k :: d.SyncShard(s).LiveAt(k) == if ShardOf(k) == s then d.LiveAt(k).Sync() else d.LiveAt(k)
  {
    var e := d.SyncShard(s);
    assert forall j :: e.LiveAt(j) == if ShardOf(j) == s then d.LiveAt(j).Sync() else d.LiveAt(j);
    assert forall j :: e.MarkerAt(j) == d.MarkerAt(j);
    assert forall t :: e.ShardAt(t) == d.ShardAt(t);
    forall j | e.LiveAt(j).may != {None} ensures e.ShardAt(ShardOf(j)).may == {true} {
      assert d.LiveAt(j).now in d.LiveAt(j).may;
    }
  }

  lemma MakeShardSafe(d: Disk, fenced: set<Key>, s: nat)
    requires Safe(d, fenced)
    ensures Safe(d.MakeShard(s), fenced)
  {
    var e := d.MakeShard(s);
    assert forall j :: e.LiveAt(j) == d.LiveAt(j);
    assert forall j :: e.MarkerAt(j) == d.MarkerAt(j);
    assert forall t :: e.ShardAt(t) == if t == s then d.ShardAt(s).Set(true) else d.ShardAt(t);
  }

  lemma SyncManifestsSafe(d: Disk, fenced: set<Key>)
    requires Safe(d, fenced)
    ensures Safe(d.SyncManifests(), fenced)
    ensures forall s :: d.SyncManifests().ShardAt(s) == d.ShardAt(s).Sync()
  {
    var e := d.SyncManifests();
    assert forall t :: e.ShardAt(t) == d.ShardAt(t).Sync();
    assert forall j :: e.LiveAt(j) == d.LiveAt(j);
    assert forall j :: e.MarkerAt(j) == d.MarkerAt(j);
    forall j | e.LiveAt(j).may != {None} ensures e.ShardAt(ShardOf(j)).may == {true} {
      assert d.ShardAt(ShardOf(j)).may == {true} && d.ShardAt(ShardOf(j)).now in d.ShardAt(ShardOf(j)).may;
    }
  }

  /** A file that no live name can point at may change freely; one that may be
      live stays complete. */
  lemma FileSafe(d: Disk, fenced: set<Key>, i: Inode, f: File)
    requires Safe(d, fenced) && forall k :: Some(i) in d.LiveAt(k).may ==> Complete(f, k)
    ensures Safe(d.SetFile(i, f), fenced)
  {
    var e := d.SetFile(i, f);
    assert forall j :: e.LiveAt(j) == d.LiveAt(j);
    assert forall j :: e.MarkerAt(j) == d.MarkerAt(j);
    assert forall s :: e.ShardAt(s) == d.ShardAt(s);
  }
}
