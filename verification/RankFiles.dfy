/** Withdrawal marks, publication, quarantine, eviction and restore pins over a
    disk where every system call may fail and a crash may come at any moment. */
module RankFiles {
  import opened Collections
  import opened CrashDisk
  import opened Condemned
  import opened DiskMoments

  /** All live names and markers but those of `k` are as they were. */
  ghost predicate OnlyKey(a: Disk, b: Disk, k: Key) {
    forall j :: j != k ==> b.LiveAt(j).now == a.LiveAt(j).now && b.MarkerAt(j).now == a.MarkerAt(j).now
  }

  /** The file that is live under `k`, if there is one. */
  function LiveFiles(d: Disk, k: Key): set<Inode> {
    if d.LiveAt(k).now.Some? then {d.LiveAt(k).now.value} else {}
  }

  class RankFiles {
    var disk: Disk
    var views: Views
    var nextInode: Inode
    var nextView: nat
    /** This process owns the rank inventory and listens for withdrawals. */
    const owner: bool
    /** Keys whose withdrawal mark is complete. */
    ghost var fenced: set<Key>
    /** Files found bad while their key's mark was complete. */
    ghost var condemned: set<Inode>
    /** Every state the disk has passed through. */
    ghost var past: seq<Moment>
    /** How many reads and system calls have failed. */
    ghost var faults: nat

    ghost predicate Valid()
      reads this
    {
      && past != [] && PastOk(past)
      && past[|past| - 1].disk == disk && past[|past| - 1].fenced == fenced && past[|past| - 1].condemned == condemned
      && Holds(disk, fenced, condemned, nextInode, views) && forall v :: v in views ==> v < nextView
    }

    constructor (owner: bool)
      ensures Valid() && fenced == {} && condemned == {} && views == map[]
    {
      this.owner := owner;
      disk, views, nextInode, nextView := Disk(map[], map[], map[], map[]), map[], 0, 0;
      fenced, condemned, past, faults := {}, {}, [Moment(Disk(map[], map[], map[], map[]), {}, {}, 0, Step)], 0;
    }

    /** A read or a system call, which may fail. */
    method Attempt() returns (ok: bool)
      modifies this`faults
      ensures faults == old(faults) + if ok then 0 else 1
    {
      ok := *;
      faults := if ok then faults else faults + 1;
    }

    /** One system call took effect. */
    method Become(d: Disk)
      requires Valid() && Holds(d, fenced, condemned, nextInode, views) && FilesKept(disk, d)
      modifies this`disk, this`past
      ensures Valid() && disk == d && old(past) <= past
    {
      NotFollowing(disk, d, fenced, condemned, past[|past| - 1]);
      PastMore(past, Moment(d, fenced, condemned, 0, Step));
      past := past + [Moment(d, fenced, condemned, 0, Step)];
      disk := d;
    }

    /** A withdrawal mark is complete. */
    ghost method BeginFence(k: Key)
      requires Valid() && disk.MarkerAt(k).may == {true}
      modifies this`fenced, this`past
      ensures Valid() && fenced == old(fenced) + {k} && old(past) <= past
    {
      FenceBegins(disk, fenced, k);
      PastMore(past, Moment(disk, fenced + {k}, condemned, k, Step));
      past := past + [Moment(disk, fenced + {k}, condemned, k, Step)];
      fenced := fenced + {k};
    }

    /** The live file of a marked key is known to be bad. */
    ghost method Condemn(k: Key)
      requires Valid() && disk.MarkerAt(k).may == {true} && disk.LiveAt(k).now.Some?
      modifies this`condemned, this`past
      ensures Valid() && condemned == old(condemned) + LiveFiles(disk, k)
      ensures old(past) <= past
    {
      var i := disk.LiveAt(k).now.value;
      assert Some(i) in disk.LiveAt(k).may;
      CanCondemn(disk, condemned, k, i);
      PastMore(past, Moment(disk, fenced, condemned + {i}, k, Step));
      past := past + [Moment(disk, fenced, condemned + {i}, k, Step)];
      condemned := condemned + {i};
    }

    /** A fence ends for a justified reason; condemned files that may come back
        are no longer kept hidden. */
    ghost method EndFence(k: Key, e: Event)
      requires Valid() && Justified(disk, k, e)
      requires e.Reauthenticated? || ComingBack(disk, k, condemned) == {}
      modifies this`fenced, this`condemned, this`past
      ensures Valid() && fenced == old(fenced) - {k} && condemned == old(condemned) - ComingBack(disk, k, old(condemned))
      ensures ComingBack(disk, k, condemned) == {}
      ensures old(past) <= past
    {
      var left := condemned - ComingBack(disk, k, condemned);
      FenceEnds(disk, fenced, k);
      FewerCondemned(disk, condemned, left);
      PastMore(past, Moment(disk, fenced - {k}, left, k, e));
      past := past + [Moment(disk, fenced - {k}, left, k, e)];
      fenced, condemned := fenced - {k}, left;
    }

    // ---- markers ----

    method SyncMarkerDirectory() returns (ok: bool)
      requires Valid()
      modifies this`disk, this`past, this`faults
      ensures old(past) <= past
      ensures Valid() && disk.live == old(disk.live) && disk.shards == old(disk.shards) && disk.files == old(disk.files)
      ensures disk == if ok then old(disk).SyncMarkers() else old(disk)
      ensures faults >= old(faults) && (faults == old(faults) ==> ok)
    {
      ok := Attempt();
      if ok {
        SyncMarkersHolds(disk, fenced, condemned, nextInode, views);
        Become(disk.SyncMarkers());
      }
    }

    method SetMarker(k: Key, present: bool)
      requires Valid() && (present || (k !in fenced && ComingBack(disk, k, condemned) == {}))
      modifies this`disk, this`past
      ensures old(past) <= past
      ensures Valid() && disk == old(disk).SetMarker(k, present)
    {
      MarkHolds(disk, fenced, condemned, nextInode, views, k, present);
      Become(disk.SetMarker(k, present));
    }

    /** `mkdir`, then the directory fsync even when the marker exists. */
    method Mark(k: Key) returns (ok: bool)
      requires Valid()
      modifies this`disk, this`fenced, this`past, this`faults
      ensures old(past) <= past
      ensures Valid() && disk.live == old(disk.live) && disk.shards == old(disk.shards) && disk.files == old(disk.files)
      ensures OnlyKey(old(disk), disk, k) && (old(disk).MarkerAt(k).now ==> disk.MarkerAt(k).now)
      ensures ok ==> disk.MarkerAt(k) == Cell(true, {true})
      ensures fenced == if ok then old(fenced) + {k} else old(fenced)
      ensures faults >= old(faults) && (faults == old(faults) ==> ok)
    {
      if !disk.MarkerAt(k).now {
        ok := Attempt();
        if !ok {
          return;
        }
        SetMarker(k, true);
      }
      assert disk.MarkerAt(k).now;
      SyncMarkersHolds(disk, fenced, condemned, nextInode, views);
      ok := SyncMarkerDirectory();
      if ok {
        BeginFence(k);
      }
    }

    /** `rmdir`, then the directory fsync. */
    method Clear(k: Key) returns (ok: bool)
      requires Valid() && k !in fenced && ComingBack(disk, k, condemned) == {}
      modifies this`disk, this`past, this`faults
      ensures old(past) <= past
      ensures Valid() && disk.live == old(disk.live) && disk.shards == old(disk.shards) && disk.files == old(disk.files)
      ensures OnlyKey(old(disk), disk, k)
      ensures ok ==> !disk.MarkerAt(k).now && (old(disk).MarkerAt(k).now ==> disk.MarkerAt(k) == Cell(false, {false}))
      ensures faults >= old(faults) && (faults == old(faults) ==> ok)
    {
      if !disk.MarkerAt(k).now {
        return true;
      }
      ok := Attempt();
      if ok {
        SetMarker(k, false);
        ok := SyncMarkerDirectory();
      }
    }

    // ---- live names ----

    method SyncShardDirectory(s: nat) returns (ok: bool)
      requires Valid()
      modifies this`disk, this`past, this`faults
      ensures old(past) <= past
      ensures Valid() && disk == if ok then old(disk).SyncShard(s) else old(disk)
      ensures faults >= old(faults) && (faults == old(faults) ==> ok)
    {
      ok := Attempt();
      if ok {
        SyncShardHolds(disk, fenced, condemned, nextInode, views, s);
        Become(disk.SyncShard(s));
      }
    }

    method SetName(k: Key, file: Option<Inode>)
      requires Valid() && (disk.LiveAt(k).now.None? || !Busy(views, k))
      requires file.Some? ==> file.value in disk.files && Complete(disk.files[file.value], k) && file.value !in condemned
      requires file.Some? ==> disk.ShardAt(ShardOf(k)).may == {true}
      modifies this`disk, this`past
      ensures old(past) <= past
      ensures Valid() && disk == old(disk).SetLive(k, file)
    {
      NameHolds(disk, fenced, condemned, nextInode, views, k, file);
      Become(disk.SetLive(k, file));
    }

    method SetFile(i: Inode, f: File)
      requires Valid() && i < nextInode
      requires i in disk.files && disk.files[i].synced ==> Aged(disk.files[i], f)
      modifies this`disk, this`past
      ensures old(past) <= past
      ensures Valid() && disk == old(disk).SetFile(i, f)
    {
      FileHolds(disk, fenced, condemned, nextInode, views, i, f);
      Become(disk.SetFile(i, f));
    }

    /** The bytes of a file go bad. */
    method Decay(i: Inode)
      requires Valid() && i in disk.files
      modifies this`disk, this`past
      ensures old(past) <= past
      ensures Valid() && disk == old(disk).SetFile(i, old(disk).files[i].(sound := false))
    {
      SetFile(i, disk.files[i].(sound := false));
    }

    method NextFile() returns (i: Inode)
      requires Valid()
      modifies this`nextInode
      ensures Valid() && i < nextInode && i !in disk.files && i !in condemned
    {
      i := nextInode;
      assert i !in disk.files.Keys && i !in condemned;
      nextInode := nextInode + 1;
    }

    /** A temporary file, completely written and fsynced; `None` on failure. */
    method WriteTemporary(k: Key) returns (file: Option<Inode>)
      requires Valid()
      modifies this`disk, this`past, this`nextInode, this`faults
      ensures old(past) <= past
      ensures Valid() && disk.live == old(disk.live) && disk.markers == old(disk.markers) && disk.shards == old(disk.shards)
      ensures file.Some? ==> file.value !in old(disk.files) && file.value !in condemned
      ensures file.Some? ==> file.value in disk.files && disk.files[file.value] == File(k, true, true, true)
      ensures faults >= old(faults) && (faults == old(faults) ==> file.Some?)
    {
      var ok := Attempt();
      if !ok {
        return None;
      }
      var i := NextFile();
      SetFile(i, File(k, false, false, true));
      ok := Attempt();
      if !ok {
        return None;
      }
      SetFile(i, File(k, true, false, true));
      ok := Attempt();
      if !ok {
        return None;
      }
      SetFile(i, File(k, true, true, true));
      file := Some(i);
    }

    /** The shard exists and its link is durable. */
    method EnsureShard(s: nat) returns (ok: bool)
      requires Valid()
      modifies this`disk, this`past, this`faults
      ensures old(past) <= past
      ensures Valid() && disk.live == old(disk.live) && disk.markers == old(disk.markers) && disk.files == old(disk.files)
      ensures ok ==> disk.ShardAt(s).may == {true}
      ensures faults >= old(faults) && (faults == old(faults) ==> ok)
    {
      if !disk.ShardAt(s).now {
        ok := Attempt();
        if !ok {
          return;
        }
        ShardsHold(disk, fenced, condemned, nextInode, views, s);
        Become(disk.MakeShard(s));
      }
      assert disk.ShardAt(s).now;
      ok := Attempt();
      if ok {
        ShardsHold(disk, fenced, condemned, nextInode, views, s);
        Become(disk.SyncManifests());
      }
    }

    /** Writes a new file and links it under an absent key. */
    method LinkNew(k: Key) returns (file: Option<Inode>)
      requires Valid() && disk.LiveAt(k).now.None?
      modifies this`disk, this`past, this`nextInode, this`faults
      ensures old(past) <= past
      ensures Valid() && OnlyKey(old(disk), disk, k) && disk.LiveAt(k).now == file
      ensures file.Some? ==> file.value !in old(disk.files) && file.value !in condemned
      ensures faults >= old(faults) && (faults == old(faults) ==> file.Some?)
    {
      var written := WriteTemporary(k);
      if written.None? {
        return None;
      }
      var ready := EnsureShard(ShardOf(k));
      var linked := Attempt();
      if !ready || !linked {
        return None;
      }
      SetName(k, written);
      file := written;
    }

    /** Ends a fence and releases the tombstone of a durable name. */
    method Retire(k: Key, ghost e: Event) returns (ok: bool)
      requires Valid() && Justified(disk, k, e) && disk.LiveAt(k).may == {disk.LiveAt(k).now}
      requires disk.LiveAt(k).now.Some? ==> disk.LiveAt(k).now.value !in condemned
      modifies this`disk, this`past, this`fenced, this`condemned, this`faults
      ensures old(past) <= past
      ensures Valid() && disk.live == old(disk.live) && disk.shards == old(disk.shards) && disk.files == old(disk.files)
      ensures OnlyKey(old(disk), disk, k) && fenced == old(fenced) - {k} && condemned == old(condemned)
      ensures ok ==> !disk.MarkerAt(k).now
      ensures faults >= old(faults) && (faults == old(faults) ==> ok)
    {
      Durable(disk, k, condemned);
      EndFence(k, e);
      ok := Clear(k);
    }

    /** Makes a new name durable, then releases the key's tombstone. */
    method Settle(k: Key) returns (ok: bool)
      requires Valid() && disk.LiveAt(k).now.Some? && disk.LiveAt(k).now.value !in condemned
      modifies this`disk, this`past, this`fenced, this`condemned, this`faults
      ensures old(past) <= past
      ensures Valid() && OnlyKey(old(disk), disk, k) && disk.LiveAt(k).now == old(disk).LiveAt(k).now
      ensures condemned == old(condemned)
      ensures ok ==> disk.LiveAt(k).may == {disk.LiveAt(k).now} && !disk.MarkerAt(k).now
      ensures fenced == old(fenced) || fenced == old(fenced) - {k}
      ensures fenced != old(fenced) ==> disk.LiveAt(k).may == {disk.LiveAt(k).now}
      ensures faults >= old(faults) && (faults == old(faults) ==> ok)
    {
      SyncShardHolds(disk, fenced, condemned, nextInode, views, ShardOf(k));
      ok := SyncShardDirectory(ShardOf(k));
      var retired := Attempt();
      ok := ok && retired;
      if ok {
        ok := Retire(k, Fresh(disk.LiveAt(k).now.value));
      }
    }

    /** Publishes a new file under an absent key and releases its tombstone
        once the publication is durable. */
    method Publish(k: Key) returns (ok: bool, file: Option<Inode>)
      requires Valid()
      modifies this`disk, this`past, this`nextInode, this`fenced, this`condemned, this`faults
      ensures old(past) <= past
      ensures Valid() && OnlyKey(old(disk), disk, k)
      ensures file.Some? ==> old(disk).LiveAt(k).now.None? && file.value !in old(disk.files) && disk.LiveAt(k).now == file
      ensures file.None? ==> disk.LiveAt(k).now == old(disk).LiveAt(k).now
      ensures ok ==> file.Some? && disk.LiveAt(k).may == {file} && !disk.MarkerAt(k).now
      ensures old(fenced) - {k} <= fenced && condemned == old(condemned)
      ensures k in old(fenced) && k !in fenced ==> file.Some? && disk.LiveAt(k).may == {file}
      ensures faults >= old(faults) && (faults == old(faults) ==> ok == old(disk).LiveAt(k).now.None?)
    {
      if disk.LiveAt(k).now.Some? {
        return false, None;
      }
      file := LinkNew(k);
      if file.None? {
        return false, None;
      }
      ok := Settle(k);
      if !ok {
        var marked := Mark(k);
      }
    }

    /** An idle name is gone, durably when the directory fsync succeeds. */
    method Vacate(k: Key) returns (durable: bool)
      requires Valid() && !Busy(views, k)
      modifies this`disk, this`past, this`faults
      ensures old(past) <= past
      ensures Valid() && OnlyKey(old(disk), disk, k) && disk.MarkerAt(k) == old(disk).MarkerAt(k)
      ensures disk.LiveAt(k).now.None? && (durable ==> disk.LiveAt(k).may == {None})
      ensures faults >= old(faults) && (faults == old(faults) ==> durable)
    {
      SetName(k, None);
      SyncShardHolds(disk, fenced, condemned, nextInode, views, ShardOf(k));
      durable := SyncShardDirectory(ShardOf(k));
    }

    /** Renames a live name away. With a complete receipt the owner of the
        inventory then releases the tombstone. */
    method RenameAway(k: Key, received: bool) returns (ok: bool)
      requires Valid() && !Busy(views, k) && (received ==> disk.MarkerAt(k).now)
      modifies this`disk, this`past, this`fenced, this`condemned, this`faults
      ensures old(past) <= past
      ensures Valid() && OnlyKey(old(disk), disk, k) && disk.LiveAt(k).now.None? && old(fenced) - {k} <= fenced
      ensures condemned == old(condemned)
      ensures k in old(fenced) && k !in fenced ==> disk.LiveAt(k).may == {None}
      ensures ok ==> received && disk.MarkerAt(k).now == !owner
      ensures faults >= old(faults) && (faults == old(faults) ==> ok == received)
    {
      var durable := Vacate(k);
      var kept := Attempt();
      ok := received && durable && kept;
      if ok && owner {
        ok := Retire(k, Gone);
      }
    }

    /** Marks a key. Once the mark is complete its live file is condemned. */
    method MarkBad(k: Key) returns (ok: bool)
      requires Valid()
      modifies this`disk, this`past, this`fenced, this`condemned, this`faults
      ensures old(past) <= past
      ensures Valid() && disk.live == old(disk.live) && disk.shards == old(disk.shards) && disk.files == old(disk.files)
      ensures OnlyKey(old(disk), disk, k) && disk.LiveAt(k) == old(disk).LiveAt(k)
      ensures ok ==> disk.MarkerAt(k) == Cell(true, {true})
      ensures fenced == if ok then old(fenced) + {k} else old(fenced)
      ensures condemned == if ok then old(condemned) + LiveFiles(old(disk), k) else old(condemned)
      ensures faults >= old(faults) && (faults == old(faults) ==> ok)
    {
      ok := Mark(k);
      if ok && disk.LiveAt(k).now.Some? {
        Condemn(k);
      }
    }

    /** Marks, withdraws and renames away a live name that nobody pins. */
    method Quarantine(k: Key) returns (ok: bool)
      requires Valid() && !Busy(views, k)
      modifies this`disk, this`past, this`fenced, this`condemned, this`faults
      ensures old(past) <= past
      ensures Valid() && OnlyKey(old(disk), disk, k)
      ensures disk.LiveAt(k).now in {None, old(disk).LiveAt(k).now}
      ensures old(condemned) <= condemned <= old(condemned) + LiveFiles(old(disk), k)
      ensures old(fenced) - {k} <= fenced
      ensures k in old(fenced) && k !in fenced ==> disk.LiveAt(k).may == {None}
      ensures ok ==> disk.LiveAt(k).now.None? && disk.MarkerAt(k).now == !owner && LiveFiles(old(disk), k) <= condemned
      ensures faults >= old(faults) && (faults == old(faults) ==> (old(disk).LiveAt(k).now.Some? ==> ok))
    {
      var marked := MarkBad(k);
      var heard := Attempt();
      if disk.LiveAt(k).now.None? {
        return false;
      }
      ok := Attempt();
      if !ok {
        return;
      }
      ok := RenameAway(k, marked && heard);
    }

    /** A bad file keeps its name while it is pinned; it is always marked. */
    method QuarantineBad(k: Key) returns (ok: bool)
      requires Valid()
      modifies this`disk, this`past, this`fenced, this`condemned, this`faults
      ensures old(past) <= past
      ensures Valid() && OnlyKey(old(disk), disk, k)
      ensures disk.LiveAt(k).now in {None, old(disk).LiveAt(k).now}
      ensures old(condemned) <= condemned <= old(condemned) + LiveFiles(old(disk), k)
      ensures ok ==> LiveFiles(old(disk), k) <= condemned
      ensures Busy(views, k) ==> disk.LiveAt(k).now == old(disk).LiveAt(k).now && (ok ==> disk.MarkerAt(k) == Cell(true, {true}))
      ensures !Busy(views, k) && ok ==> disk.LiveAt(k).now.None? && disk.MarkerAt(k).now == !owner
      ensures old(fenced) - {k} <= fenced
      ensures k in old(fenced) && k !in fenced ==> disk.LiveAt(k).may == {None}
      ensures faults >= old(faults) && (faults == old(faults) ==> (Busy(views, k) || old(disk).LiveAt(k).now.Some? ==> ok))
    {
      if Busy(views, k) {
        ok := MarkBad(k);
      } else {
        ok := Quarantine(k);
      }
    }

    /** Unlinks an idle live name and makes its absence durable. */
    method Unlink(k: Key) returns (ok: bool)
      requires Valid() && !Busy(views, k)
      modifies this`disk, this`past, this`faults
      ensures old(past) <= past
      ensures Valid() && OnlyKey(old(disk), disk, k) && disk.MarkerAt(k) == old(disk).MarkerAt(k)
      ensures disk.LiveAt(k).now in {None, old(disk).LiveAt(k).now}
      ensures ok ==> disk.LiveAt(k).may == {None}
      ensures faults >= old(faults) && (faults == old(faults) ==> ok)
    {
      ok := Attempt();
      if ok {
        ok := Vacate(k);
      }
    }

    /** Marks first, then unlinks; refuses a pinned or absent key. */
    method Evict(k: Key) returns (removed: bool)
      requires Valid()
      modifies this`disk, this`past, this`fenced, this`faults
      ensures old(past) <= past
      ensures Valid() && OnlyKey(old(disk), disk, k) && old(fenced) <= fenced
      ensures removed ==> old(disk).LiveAt(k).now.Some? && disk.LiveAt(k).may == {None} && k in fenced
      ensures removed ==> disk.MarkerAt(k) == Cell(true, {true})
      ensures disk.LiveAt(k).now != old(disk).LiveAt(k).now ==> k in fenced && disk.LiveAt(k).now.None?
      ensures Busy(views, k) ==> disk == old(disk)
      ensures faults >= old(faults) && (faults == old(faults) ==> removed == (!Busy(views, k) && old(disk).LiveAt(k).now.Some?))
    {
      if Busy(views, k) || disk.LiveAt(k).now.None? {
        return false;
      }
      removed := Mark(k);
      var heard := Attempt();
      if !removed || !heard {
        return false;
      }
      removed := Unlink(k);
    }

    /** The absence of `k`, or of its whole shard, is made durable. */
    method SyncAbsence(k: Key) returns (ok: bool)
      requires Valid() && disk.LiveAt(k).now.None?
      modifies this`disk, this`past, this`faults
      ensures old(past) <= past
      ensures Valid() && OnlyKey(old(disk), disk, k) && disk.LiveAt(k).now.None?
      ensures ok ==> disk.LiveAt(k).may == {None}
      ensures faults >= old(faults) && (faults == old(faults) ==> ok)
    {
      if !disk.ShardAt(ShardOf(k)).now {
        assert disk.ShardAt(ShardOf(k)).now in disk.ShardAt(ShardOf(k)).may;
        ok := Attempt();
        if ok {
          ShardsHold(disk, fenced, condemned, nextInode, views, 0);
          Become(disk.SyncManifests());
        }
      } else {
        SyncShardHolds(disk, fenced, condemned, nextInode, views, ShardOf(k));
        ok := SyncShardDirectory(ShardOf(k));
      }
    }

    /** Retires one withdrawal signal whose live name is durably absent. */
    method Acknowledge(k: Key) returns (ok: bool)
      requires Valid()
      modifies this`disk, this`past, this`fenced, this`condemned, this`faults
      ensures old(past) <= past
      ensures Valid() && OnlyKey(old(disk), disk, k) && disk.LiveAt(k).now == old(disk).LiveAt(k).now
      ensures old(fenced) - {k} <= fenced && condemned == old(condemned)
      ensures k in old(fenced) && k !in fenced ==> disk.LiveAt(k).may == {None}
      ensures ok && old(disk).LiveAt(k).now.None? ==> disk.LiveAt(k).may == {None} && !disk.MarkerAt(k).now
      ensures old(disk).LiveAt(k).now.Some? ==> disk == old(disk)
      ensures faults >= old(faults) && (faults == old(faults) ==> ok)
    {
      if disk.LiveAt(k).now.Some? {
        return true;
      }
      ok := SyncAbsence(k);
      if ok {
        ok := Retire(k, Gone);
      }
    }

    /** The live file passed full authentication: its tombstone goes. Condemned
        files that may still come back under the name are given up, and only the
        live file can be one when the name is settled. */
    method Release(k: Key) returns (ok: bool)
      requires Valid() && disk.LiveAt(k).now.Some? && disk.LiveAt(k).now.value in disk.files
      requires disk.files[disk.LiveAt(k).now.value].sound
      modifies this`disk, this`past, this`fenced, this`condemned, this`faults
      ensures old(past) <= past
      ensures Valid() && OnlyKey(old(disk), disk, k) && disk.LiveAt(k) == old(disk).LiveAt(k)
      ensures fenced == old(fenced) - {k} && condemned == old(condemned) - ComingBack(old(disk), k, old(condemned))
      ensures Settled(old(disk), k) ==> old(condemned) - LiveFiles(old(disk), k) <= condemned
      ensures ok ==> !disk.MarkerAt(k).now
      ensures faults >= old(faults) && (faults == old(faults) ==> ok)
    {
      EndFence(k, Reauthenticated(disk.LiveAt(k).now.value));
      ok := Clear(k);
      SettledComeBack(old(disk), k, old(condemned));
    }

    /** One scrubbed key: a pinned file is deferred, one that can be read and
        authenticated loses its tombstone, anything else is quarantined. */
    method Scrub(k: Key) returns (deferred: bool, released: bool, quarantined: bool, failed: bool)
      requires Valid()
      modifies this`disk, this`past, this`fenced, this`condemned, this`faults
      ensures old(past) <= past
      ensures Valid() && OnlyKey(old(disk), disk, k)
      ensures deferred <==> Busy(views, k)
      ensures deferred || old(disk).LiveAt(k).now.None? ==>
        disk == old(disk) && fenced == old(fenced) && condemned == old(condemned) && faults == old(faults)
      ensures released ==> Authentic(old(disk), k) && disk.LiveAt(k).now == old(disk).LiveAt(k).now && !disk.MarkerAt(k).now
      ensures quarantined ==> disk.LiveAt(k).now.None? && disk.MarkerAt(k).now == !owner
      ensures !deferred && !failed && old(disk).LiveAt(k).now.Some? ==>
        quarantined || (Authentic(old(disk), k) && disk.LiveAt(k).now == old(disk).LiveAt(k).now && !disk.MarkerAt(k).now)
      ensures old(condemned) - ComingBack(old(disk), k, old(condemned)) <= condemned
      ensures Settled(old(disk), k) || !Authentic(old(disk), k) ==> old(condemned) - LiveFiles(old(disk), k) <= condemned
      ensures old(fenced) - {k} <= fenced
      ensures k in old(fenced) && k !in fenced ==> Authentic(old(disk), k) || disk.LiveAt(k).may == {None}
      ensures faults >= old(faults)
      ensures faults == old(faults) && !deferred && old(disk).LiveAt(k).now.Some? ==>
        if Authentic(old(disk), k)
        then !quarantined && disk.LiveAt(k) == old(disk).LiveAt(k) && condemned <= old(condemned) && !disk.MarkerAt(k).now
        else quarantined
    {
      deferred, released, quarantined, failed := Busy(views, k), false, false, false;
      if deferred || disk.LiveAt(k).now.None? {
        return;
      }
      var readable := Attempt();
      var bad := !(readable && Authentic(disk, k));
      if !bad && disk.MarkerAt(k).now {
        released := Release(k);
        bad := !released;
      }
      if bad {
        quarantined := QuarantineBad(k);
        failed := !quarantined;
      }
    }

    // ---- pins, processes and crashes ----

    /** A restore pins every file of its chain before the lock is released. */
    method OpenView(keys: set<Key>) returns (v: nat)
      requires Valid() && forall k :: k in keys ==> disk.LiveAt(k).now.Some?
      modifies this`views, this`nextView
      ensures Valid() && v !in old(views) && v in views && views[v].Keys == keys && views - {v} == old(views)
      ensures forall k :: k in keys ==> Busy(views, k)
    {
      v := nextView;
      views := views[v := map k | k in keys :: disk.LiveAt(k).now.value];
      nextView := nextView + 1;
      assert forall k :: k in keys ==> k in views[v] && LockOffset(k) == LockOffset(k);
    }

    method CloseView(v: nat)
      requires Valid() && v in views
      modifies this`views
      ensures Valid() && views == old(views) - {v}
    {
      views := views - {v};
    }

    /** Power is lost: the disk keeps some possible value of every name, and
        the processes with their pins are gone. */
    method Crash(c: Disk)
      requires Valid() && CrashOf(disk, c)
      modifies this`disk, this`past, this`views
      ensures old(past) <= past
      ensures Valid() && disk == c && views == map[]
    {
      CrashHolds(disk, fenced, condemned, nextInode, views, c);
      views := map[];
      Become(c);
    }
  }

  /** The live file can be authenticated in full. */
  predicate Authentic(d: Disk, k: Key) {
    d.LiveAt(k).now.Some? && d.LiveAt(k).now.value in d.files && d.files[d.LiveAt(k).now.value].sound
  }

  /** Under a name that has only one possible value, no other file comes back. */
  lemma Durable(d: Disk, k: Key, condemned: set<Inode>)
    requires d.LiveAt(k).may == {d.LiveAt(k).now} && (d.LiveAt(k).now.Some? ==> d.LiveAt(k).now.value !in condemned)
    ensures ComingBack(d, k, condemned) == {}
  {
  }

  lemma SettledComeBack(d: Disk, k: Key, condemned: set<Inode>)
    ensures Settled(d, k) ==> ComingBack(d, k, condemned) <= LiveFiles(d, k)
  {
  }
}
