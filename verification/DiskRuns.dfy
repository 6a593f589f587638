/** What every crash at every moment of a rank's disk leaves behind. */
module DiskRuns {
  import opened Collections
  import opened CrashDisk
  import opened Condemned
  import opened DiskMoments

  // ---- withdrawal marks ----

  /** The fence of `k` is not ended by any of the moments after `n` up to `m`. */
  ghost predicate NeverReleased(past: seq<Moment>, n: nat, m: nat, k: Key) {
    forall j :: n < j <= m < |past| ==> !(past[j].key == k && Justified(past[j].disk, k, past[j].event))
  }

  lemma {:induction false} FenceLasts(past: seq<Moment>, n: nat, m: nat, k: Key)
    requires PastOk(past) && n <= m < |past| && k in past[n].fenced && NeverReleased(past, n, m, k)
    ensures k in past[m].fenced
  {
    if n < m {
      FenceLasts(past, n, m - 1, k);
      PastAt(past, m);
    }
  }

  /** Once a withdrawal mark is complete, a crash at any later moment leaves the
      marker, unless the name's absence became durable, a fresh file was
      durably published, or the live file passed full authentication. */
  lemma CrashFence(past: seq<Moment>, n: nat, m: nat, k: Key, c: Disk)
    requires PastOk(past) && n <= m < |past| && k in past[n].fenced && NeverReleased(past, n, m, k)
    requires CrashOf(past[m].disk, c)
    ensures c.MarkerAt(k).now
  {
    FenceLasts(past, n, m, k);
    PastAt(past, m);
    CrashIsSafe(past[m].disk, past[m].fenced, c);
  }

  // ---- live names ----

  lemma {:induction false} FileLasts(past: seq<Moment>, n: nat, m: nat, i: Inode)
    requires PastOk(past) && n <= m < |past| && i in past[n].disk.files && past[n].disk.files[i].synced
    ensures i in past[m].disk.files && Aged(past[n].disk.files[i], past[m].disk.files[i])
  {
    if n < m {
      FileLasts(past, n, m - 1, i);
      PastAt(past, m);
    }
  }

  /** A live name in any crash state of any moment points at completely written
      content of its own key, and that file is never rewritten afterwards. */
  lemma CrashNames(past: seq<Moment>, n: nat, m: nat, k: Key, c: Disk)
    requires PastOk(past) && n <= m < |past| && CrashOf(past[n].disk, c) && c.LiveAt(k).now.Some?
    ensures var i := c.LiveAt(k).now.value;
      && i in c.files && Complete(c.files[i], k)
      && i in past[m].disk.files && Aged(c.files[i], past[m].disk.files[i])
  {
    var i := c.LiveAt(k).now.value;
    PastAt(past, n);
    CrashIsSafe(past[n].disk, past[n].fenced, c);
    assert c.ShardAt(ShardOf(k)).now && Some(i) in past[n].disk.LiveAt(k).may;
    FileLasts(past, n, m, i);
  }

  // ---- files known to be bad ----

  /** No release after an authentication lets file `i` come back. */
  ghost predicate NeverExposed(past: seq<Moment>, n: nat, m: nat, i: Inode) {
    forall j :: n < j <= m < |past| ==> !Exposes(past[j], i)
  }

  lemma {:induction false} CondemnedLasts(past: seq<Moment>, n: nat, m: nat, i: Inode)
    requires PastOk(past) && n <= m < |past| && i in past[n].condemned && NeverExposed(past, n, m, i)
    ensures i in past[m].condemned
  {
    if n < m {
      CondemnedLasts(past, n, m - 1, i);
      PastAt(past, m);
    }
  }

  /** A file found bad under a complete mark is never again left live without
      its key's marker, whatever operations, failures and crashes follow, unless
      a release after an authentication exposed it. */
  lemma NoResurrection(past: seq<Moment>, n: nat, m: nat, i: Inode, k: Key, c: Disk)
    requires PastOk(past) && n <= m < |past| && i in past[n].condemned && NeverExposed(past, n, m, i)
    requires CrashOf(past[m].disk, c)
    ensures c.LiveAt(k).now == Some(i) ==> c.MarkerAt(k).now
  {
    CondemnedLasts(past, n, m, i);
    PastAt(past, m);
    HiddenInCrash(past[m].disk, past[m].condemned, c, k);
  }

  /** Each release after an authentication was on a settled name, and none was
      for file `i` itself. */
  ghost predicate SettledReleases(past: seq<Moment>, n: nat, m: nat, i: Inode) {
    forall j :: n < j <= m < |past| && past[j].event.Reauthenticated? ==>
      Settled(past[j].disk, past[j].key) && past[j].event.file != i
  }

  /** With a directory sync before every release of the scrub, a bad file that
      never passes authentication itself never comes back. */
  lemma SettledNeverResurrects(past: seq<Moment>, n: nat, m: nat, i: Inode, k: Key, c: Disk)
    requires PastOk(past) && n <= m < |past| && i in past[n].condemned && SettledReleases(past, n, m, i)
    requires CrashOf(past[m].disk, c)
    ensures c.LiveAt(k).now == Some(i) ==> c.MarkerAt(k).now
  {
    forall j | n < j <= m ensures !Exposes(past[j], i) {
      PastAt(past, j);
    }
    NoResurrection(past, n, m, i, k, c);
  }

  /** The disk after: file 1 is live and durable, found bad and marked, renamed
      away while the directory fsync fails, file 2 linked in its place while the
      fsync fails again, file 2 authenticated and the tombstone released. */
  function Replaced(k: Key): Disk {
    BeforeRelease(k).SetMarker(k, false).SyncMarkers()
  }

  function BeforeRelease(k: Key): Disk {
    var before := Disk(map[], map[k := Cell(Some(1), {Some(1)})], map[ShardOf(k) := Cell(true, {true})],
                       map[1 := File(k, true, true, false), 2 := File(k, true, true, true)]);
    before.SetMarker(k, true).SyncMarkers().SetLive(k, None).SetLive(k, Some(2))
  }

  /** The release is justified and file 1 is hidden until then, yet a later
      crash brings it back, with no marker. */
  lemma ScrubCanResurrect(k: Key) returns (c: Disk)
    ensures Justified(BeforeRelease(k), k, Reauthenticated(2)) && Hidden(BeforeRelease(k), {1}) && !Settled(BeforeRelease(k), k)
    ensures CrashOf(Replaced(k), c)
    ensures c.LiveAt(k).now == Some(1) && !c.MarkerAt(k).now
  {
    var b, d := BeforeRelease(k), Replaced(k);
    assert b.LiveAt(k).may == {Some(1), None, Some(2)} && b.MarkerAt(k).may == {true};
    assert forall j :: j != k ==> b.LiveAt(j).may == {None};
    c := Disk(map[], map[k := Cell(Some(1), {Some(1)})], map[ShardOf(k) := Cell(true, {true})], d.files);
    assert d.LiveAt(k).may == {Some(1), None, Some(2)};
    assert d.MarkerAt(k).may == {false};
    assert forall j :: j != k ==> d.LiveAt(j).may == {None} && d.MarkerAt(j).may == {false};
    assert forall s :: s != ShardOf(k) ==> d.ShardAt(s).may == {false};
    assert d.ShardAt(ShardOf(k)).may == {true};
  }
}
