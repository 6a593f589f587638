/** Files known to be bad: when can a crash bring one back under its name
    without the key's marker? */
module Condemned {
  import opened Collections
  import opened CrashDisk

  /** No crash can leave a condemned file live without the key's marker. */
  ghost predicate Hidden(d: Disk, condemned: set<Inode>) {
    forall k, i :: i in condemned && Some(i) in d.LiveAt(k).may ==> d.MarkerAt(k).may == {true}
  }

  /** The condemned files that can come back under `k`. */
  function ComingBack(d: Disk, k: Key, condemned: set<Inode>): set<Inode> {
    set i | i in condemned && Some(i) in d.LiveAt(k).may
  }

  /** Since its directory was last synced the name has had only the file it has
      now: it has only been removed or restored. A caller can establish this by
      syncing the directory. */
  predicate Settled(d: Disk, k: Key) { d.LiveAt(k).may <= {None, d.LiveAt(k).now} }

  lemma HiddenInCrash(d: Disk, condemned: set<Inode>, c: Disk, k: Key)
    requires Hidden(d, condemned) && CrashOf(d, c)
    ensures Hidden(c, condemned)
    ensures c.LiveAt(k).now.Some? && c.LiveAt(k).now.value in condemned ==> c.MarkerAt(k).now
  {
    forall j, i | i in condemned && Some(i) in c.LiveAt(j).may ensures c.MarkerAt(j).may == {true} {
      assert c.ShardAt(ShardOf(j)).now && Some(i) in d.LiveAt(j).may && d.MarkerAt(j).may == {true};
    }
    if c.LiveAt(k).now.Some? && c.LiveAt(k).now.value in condemned {
      assert c.MarkerAt(k).may == {true} && c.MarkerAt(k).now in c.MarkerAt(k).may;
    }
  }

  /** A file can be condemned when its key's mark is complete. */
  lemma CanCondemn(d: Disk, condemned: set<Inode>, k: Key, i: Inode)
    requires NamesWhole(d) && d.MarkerAt(k).may == {true} && Hidden(d, condemned) && i in d.files && d.files[i].key == k
    ensures Hidden(d, condemned + {i})
  {
    forall j, x | x in condemned + {i} && Some(x) in d.LiveAt(j).may ensures d.MarkerAt(j).may == {true} {
      if x == i { assert Complete(d.files[i], j); }
    }
  }

  /** Files that nothing condemns any more are no obstacle. */
  lemma FewerCondemned(d: Disk, condemned: set<Inode>, fewer: set<Inode>)
    requires Hidden(d, condemned) && fewer <= condemned
    ensures Hidden(d, fewer)
  {
  }

  // ---- what keeps condemned files hidden ----

  lemma MarkKeepsHidden(d: Disk, condemned: set<Inode>, k: Key)
    requires Hidden(d, condemned)
    ensures Hidden(d.SetMarker(k, true), condemned)
  {
    var e := d.SetMarker(k, true);
    forall j, i | i in condemned && Some(i) in e.LiveAt(j).may ensures e.MarkerAt(j).may == {true} {
      assert e.LiveAt(j) == d.LiveAt(j) && e.MarkerAt(j) == if j == k then d.MarkerAt(k).Set(true) else d.MarkerAt(j);
    }
  }

  lemma SyncMarkersKeepsHidden(d: Disk, condemned: set<Inode>)
    requires CellsOk(d) && Hidden(d, condemned)
    ensures Hidden(d.SyncMarkers(), condemned)
  {
    var e := d.SyncMarkers();
    forall j, i | i in condemned && Some(i) in e.LiveAt(j).may ensures e.MarkerAt(j).may == {true} {
      assert e.LiveAt(j) == d.LiveAt(j) && d.MarkerAt(j).may == {true} && d.MarkerAt(j).now in d.MarkerAt(j).may;
    }
  }

  lemma SyncShardKeepsHidden(d: Disk, condemned: set<Inode>, s: nat)
    requires CellsOk(d) && Hidden(d, condemned)
    ensures Hidden(d.SyncShard(s), condemned)
  {
    var e := d.SyncShard(s);
    forall j, i | i in condemned && Some(i) in e.LiveAt(j).may ensures e.MarkerAt(j).may == {true} {
      assert e.MarkerAt(j) == d.MarkerAt(j) && e.LiveAt(j).may <= d.LiveAt(j).may + {d.LiveAt(j).now};
    }
  }

  /** Shards and files play no part. */
  lemma SameNamesKeepHidden(d: Disk, e: Disk, condemned: set<Inode>)
    requires Hidden(d, condemned) && e.live == d.live && e.markers == d.markers
    ensures Hidden(e, condemned)
  {
    forall j, i | i in condemned && Some(i) in e.LiveAt(j).may ensures e.MarkerAt(j).may == {true} {
      assert e.LiveAt(j) == d.LiveAt(j) && e.MarkerAt(j) == d.MarkerAt(j);
    }
  }

  /** Unlinking, renaming away and linking a file that is not condemned. */
  lemma NamesKeepHidden(d: Disk, condemned: set<Inode>, k: Key, file: Option<Inode>)
    requires Hidden(d, condemned) && (file.Some? ==> file.value !in condemned)
    ensures Hidden(d.SetLive(k, file), condemned)
  {
    var e := d.SetLive(k, file);
    forall j, i | i in condemned && Some(i) in e.LiveAt(j).may ensures e.MarkerAt(j).may == {true} {
      assert e.LiveAt(j) == (if j == k then d.LiveAt(k).Set(file) else d.LiveAt(j)) && e.MarkerAt(j) == d.MarkerAt(j);
    }
  }

  // ---- releasing a tombstone ----

  /** Removing a tombstone keeps those condemned files hidden, and only those,
      that cannot come back under the key. */
  lemma ReleaseKeepsHidden(d: Disk, condemned: set<Inode>, k: Key)
    requires Hidden(d, condemned)
    ensures Hidden(d.SetMarker(k, false), condemned) <==> ComingBack(d, k, condemned) == {}
  {
    var e := d.SetMarker(k, false);
    assert forall j :: e.LiveAt(j) == d.LiveAt(j);
    assert forall j :: e.MarkerAt(j) == if j == k then d.MarkerAt(k).Set(false) else d.MarkerAt(j);
    assert false in e.MarkerAt(k).may;
    if ComingBack(d, k, condemned) == {} {
      forall j, i | i in condemned && Some(i) in e.LiveAt(j).may ensures e.MarkerAt(j).may == {true} {
        assert j == k ==> i in ComingBack(d, k, condemned);
      }
    } else {
      var i :| i in ComingBack(d, k, condemned);
      assert i in condemned && Some(i) in e.LiveAt(k).may;
    }
  }

  /** Releasing the tombstone of a key whose mark is complete is safe, whatever
      other files may have been condemned, if and only if its name is settled. */
  lemma ReleaseExact(d: Disk, k: Key)
    requires d.MarkerAt(k).may == {true} && NamesWhole(d)
    ensures (forall condemned: set<Inode> ::
               Hidden(d, condemned) && (d.LiveAt(k).now.Some? ==> d.LiveAt(k).now.value !in condemned) ==>
               Hidden(d.SetMarker(k, false), condemned))
            <==> Settled(d, k)
  {
    if Settled(d, k) {
      forall condemned: set<Inode> | Hidden(d, condemned) && (d.LiveAt(k).now.Some? ==> d.LiveAt(k).now.value !in condemned)
        ensures Hidden(d.SetMarker(k, false), condemned)
      {
        ReleaseKeepsHidden(d, condemned, k);
      }
    } else {
      var x :| x in d.LiveAt(k).may && x !in {None, d.LiveAt(k).now};
      assert d.files[x.value].key == k;
      CanCondemn(d, {}, k, x.value);
      assert {} + {x.value} == {x.value};
      ReleaseKeepsHidden(d, {x.value}, k);
      assert x.value in ComingBack(d, k, {x.value});
    }
  }

  /** Syncing the name's directory settles it. */
  lemma SyncSettles(d: Disk, k: Key)
    ensures Settled(d.SyncShard(ShardOf(k)), k)
  {
    var e := d.SyncShard(ShardOf(k));
    assert e.LiveAt(k) == d.LiveAt(k).Sync() || e.LiveAt(k).may == {None};
  }
}
