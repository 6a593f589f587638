/** The moments that a rank's disk passes through, and what each system call
    keeps between two of them. */
module DiskMoments {
  import opened Collections
  import opened CrashDisk
  import opened Condemned

  /** What happened at a moment; the last three may end a fence. */
  datatype Event = Step | Gone | Fresh(file: Inode) | Reauthenticated(file: Inode)

  /** The disk, the keys whose mark is complete, and the files known to be bad. */
  datatype Moment = Moment(disk: Disk, fenced: set<Key>, condemned: set<Inode>, key: Key, event: Event)

  /** The absence of the name is durable, or a fresh file is durably published,
      or the live file passes full authentication. */
  ghost predicate Justified(d: Disk, k: Key, e: Event) {
    match e
    case Step => false
    case Gone => d.LiveAt(k).may == {None}
    case Fresh(i) => d.LiveAt(k).may == {Some(i)}
    case Reauthenticated(i) => d.LiveAt(k).now == Some(i) && i in d.files && d.files[i].sound
  }

  /** The release after an authentication lets file `i` come back: it is the
      live file itself, or the name is not settled. */
  ghost predicate Exposes(m: Moment, i: Inode) {
    m.event.Reauthenticated? && Some(i) in m.disk.LiveAt(m.key).may
  }

  ghost predicate EndsOnlyJustified(a: Moment, b: Moment) {
    forall k :: k in a.fenced && k !in b.fenced ==> k == b.key && Justified(b.disk, k, b.event)
  }

  ghost predicate CondemnedKept(a: Moment, b: Moment) {
    forall i :: i in a.condemned && i !in b.condemned ==> Exposes(b, i)
  }

  /** The same file, which may have decayed. */
  predicate Aged(f: File, g: File) { g == f.(sound := g.sound) && (g.sound ==> f.sound) }

  /** Synced files are never rewritten or removed. */
  ghost predicate FilesKept(a: Disk, b: Disk) {
    forall i :: i in a.files && a.files[i].synced ==> i in b.files && Aged(a.files[i], b.files[i])
  }

  ghost predicate Reached(m: Moment) {
    && Safe(m.disk, m.fenced) && Hidden(m.disk, m.condemned)
    && (m.event.Step? || Justified(m.disk, m.key, m.event))
  }

  ghost predicate Followed(a: Moment, b: Moment) {
    EndsOnlyJustified(a, b) && CondemnedKept(a, b) && FilesKept(a.disk, b.disk)
  }

  ghost predicate PastOk(past: seq<Moment>) {
    past == [] ||
    (var n := |past| - 1;
     && PastOk(past[..n]) && Reached(past[n])
     && (n > 0 ==> Followed(past[n - 1], past[n])))
  }

  lemma {:induction false} PastAt(past: seq<Moment>, n: nat)
    requires PastOk(past) && n < |past|
    ensures Reached(past[n]) && (n > 0 ==> Followed(past[n - 1], past[n]))
  {
    if n < |past| - 1 {
      PastAt(past[..|past| - 1], n);
    }
  }

  lemma PastMore(past: seq<Moment>, m: Moment)
    requires past != [] && PastOk(past) && Reached(m) && Followed(past[|past| - 1], m)
    ensures PastOk(past + [m])
  {
    assert (past + [m])[..|past|] == past;
  }

  // ---- pins ----

  /** The restore views that are open, each with the file of each of its keys. */
  type Views = map<nat, map<Key, Inode>>

  /** Some view pins a key with the same lock offset. */
  predicate Busy(views: Views, k: Key) {
    exists v :: v in views && exists j :: j in views[v] && LockOffset(j) == LockOffset(k)
  }

  /** Each file of an open view keeps its live name. */
  ghost predicate PinsHold(d: Disk, views: Views) {
    forall v, k :: v in views && k in views[v] ==> d.LiveAt(k).now == Some(views[v][k])
  }

  ghost predicate Below(files: set<Inode>, next: Inode) {
    forall i :: i in files ==> i < next
  }

  /** What holds of the disk at every moment. */
  ghost predicate Holds(d: Disk, fenced: set<Key>, condemned: set<Inode>, next: Inode, views: Views) {
    && Safe(d, fenced) && Hidden(d, condemned) && PinsHold(d, views)
    && Below(d.files.Keys, next) && Below(condemned, next)
  }

  // ---- each system call ----

  lemma NotFollowing(d: Disk, e: Disk, fenced: set<Key>, condemned: set<Inode>, m: Moment)
    requires m.disk == d && m.fenced == fenced && m.condemned == condemned && FilesKept(d, e)
    ensures Followed(m, Moment(e, fenced, condemned, 0, Step))
  {
  }

  lemma MarkHolds(d: Disk, fenced: set<Key>, condemned: set<Inode>, next: Inode, views: Views, k: Key, present: bool)
    requires Holds(d, fenced, condemned, next, views)
    requires present || (k !in fenced && ComingBack(d, k, condemned) == {})
    ensures Holds(d.SetMarker(k, present), fenced, condemned, next, views) && FilesKept(d, d.SetMarker(k, present))
  {
    MarkerSafe(d, fenced, k, present);
    if present {
      MarkKeepsHidden(d, condemned, k);
    } else {
      ReleaseKeepsHidden(d, condemned, k);
    }
    SameNames(d, d.SetMarker(k, present), views);
  }

  lemma SyncMarkersHolds(d: Disk, fenced: set<Key>, condemned: set<Inode>, next: Inode, views: Views)
    requires Holds(d, fenced, condemned, next, views)
    ensures Holds(d.SyncMarkers(), fenced, condemned, next, views) && FilesKept(d, d.SyncMarkers())
    ensures forall k :: d.SyncMarkers().MarkerAt(k) == d.MarkerAt(k).Sync()
  {
    SyncMarkersSafe(d, fenced);
    SyncMarkersKeepsHidden(d, condemned);
    SameNames(d, d.SyncMarkers(), views);
  }

  lemma SyncShardHolds(d: Disk, fenced: set<Key>, condemned: set<Inode>, next: Inode, views: Views, s: nat)
    requires Holds(d, fenced, condemned, next, views)
    ensures Holds(d.SyncShard(s), fenced, condemned, next, views) && FilesKept(d, d.SyncShard(s))
    ensures forall k :: d.SyncShard(s).LiveAt(k) == if ShardOf(k) == s then d.LiveAt(k).Sync() else d.LiveAt(k)
  {
    SyncShardSafe(d, fenced, s);
    SyncShardKeepsHidden(d, condemned, s);
    assert forall k :: d.SyncShard(s).LiveAt(k).now == d.LiveAt(k).now;
  }

  lemma ShardsHold(d: Disk, fenced: set<Key>, condemned: set<Inode>, next: Inode, views: Views, s: nat)
    requires Holds(d, fenced, condemned, next, views)
    ensures Holds(d.MakeShard(s), fenced, condemned, next, views) && FilesKept(d, d.MakeShard(s))
    ensures Holds(d.SyncManifests(), fenced, condemned, next, views) && FilesKept(d, d.SyncManifests())
    ensures forall t :: d.SyncManifests().ShardAt(t) == d.ShardAt(t).Sync()
  {
    MakeShardSafe(d, fenced, s);
    SyncManifestsSafe(d, fenced);
    SameNamesKeepHidden(d, d.MakeShard(s), condemned);
    SameNamesKeepHidden(d, d.SyncManifests(), condemned);
    SameNames(d, d.MakeShard(s), views);
    SameNames(d, d.SyncManifests(), views);
  }

  lemma NameHolds(d: Disk, fenced: set<Key>, condemned: set<Inode>, next: Inode, views: Views, k: Key, file: Option<Inode>)
    requires Holds(d, fenced, condemned, next, views) && (d.LiveAt(k).now.None? || !Busy(views, k))
    requires file.Some? ==>
      file.value in d.files && Complete(d.files[file.value], k) && d.ShardAt(ShardOf(k)).may == {true} && file.value !in condemned
    ensures Holds(d.SetLive(k, file), fenced, condemned, next, views) && FilesKept(d, d.SetLive(k, file))
  {
    LiveSafe(d, fenced, k, file);
    NamesKeepHidden(d, condemned, k, file);
    NamesAfter(d, k, file, views);
  }

  lemma FileHolds(d: Disk, fenced: set<Key>, condemned: set<Inode>, next: Inode, views: Views, i: Inode, f: File)
    requires Holds(d, fenced, condemned, next, views) && i < next
    requires i in d.files ==> if d.files[i].synced then Aged(d.files[i], f) else true
    ensures Holds(d.SetFile(i, f), fenced, condemned, next, views) && FilesKept(d, d.SetFile(i, f))
  {
    forall k | Some(i) in d.LiveAt(k).may ensures Complete(f, k) {
      assert i in d.files && Complete(d.files[i], k);
    }
    FileSafe(d, fenced, i, f);
    SameNamesKeepHidden(d, d.SetFile(i, f), condemned);
    assert forall k :: d.SetFile(i, f).LiveAt(k) == d.LiveAt(k);
  }

  lemma CrashHolds(d: Disk, fenced: set<Key>, condemned: set<Inode>, next: Inode, views: Views, c: Disk)
    requires Holds(d, fenced, condemned, next, views) && CrashOf(d, c)
    ensures Holds(c, fenced, condemned, next, map[]) && FilesKept(d, c)
  {
    CrashIsSafe(d, fenced, c);
    HiddenInCrash(d, condemned, c, 0);
  }

  lemma SameNames(a: Disk, b: Disk, views: Views)
    requires b.live == a.live && b.files == a.files && PinsHold(a, views)
    ensures PinsHold(b, views) && FilesKept(a, b)
  {
    assert forall k :: b.LiveAt(k) == a.LiveAt(k);
  }

  /** Changing the name of an idle or absent key leaves every pinned name. */
  lemma NamesAfter(d: Disk, k: Key, file: Option<Inode>, views: Views)
    requires PinsHold(d, views) && (d.LiveAt(k).now.None? || !Busy(views, k))
    ensures PinsHold(d.SetLive(k, file), views) && FilesKept(d, d.SetLive(k, file))
  {
    var e := d.SetLive(k, file);
    assert forall j :: e.LiveAt(j) == if j == k then d.LiveAt(k).Set(file) else d.LiveAt(j);
    forall v, j | v in views && j in views[v] ensures e.LiveAt(j).now == Some(views[v][j]) {
      assert d.LiveAt(j).now == Some(views[v][j]);
    }
  }
}
