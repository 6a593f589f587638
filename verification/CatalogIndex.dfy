/** How the reverse index and the recency order follow the rank images. */
module CatalogIndex {
  import opened Collections
  import opened Inventory
  import opened Catalog

  lemma AdvertisedHolders(images: Images, k: Key)
    ensures k in Advertised(images) <==> Holders(images, k) != {}
  {
    if q :| q in Holders(images, k) {
      assert q in images && k in images[q].at;
    }
    if k in Advertised(images) {
      var q :| q in images && k in images[q].at;
      assert q in Holders(images, k);
    }
  }

  lemma HoldersAfterUpdate(images: Images, r: Rank, d: Dict, k: Key)
    requires r in images
    ensures Holders(images[r := d], k) == (Holders(images, k) - {r}) + (if k in d.at then {r} else {})
  {
  }

  lemma HoldersWithoutEverywhere(images: Images, gone: set<Key>, k: Key)
    ensures Holders(WithoutEverywhere(images, gone), k) == if k in gone then {} else Holders(images, k)
  {
    var after := WithoutEverywhere(images, gone);
    forall q ensures q in Holders(after, k) <==> q in Holders(images, k) && k !in gone {
      assert q in after <==> q in images;
    }
  }

  /** A map that lists the non-empty holder sets is the index. */
  lemma IndexIs(images: Images, m: map<Key, set<Rank>>)
    requires forall k :: k in m <==> Holders(images, k) != {}
    requires forall k :: k in m ==> m[k] == Holders(images, k)
    ensures Index(images) == m
  {
    forall k ensures k in Advertised(images) <==> k in m {
      AdvertisedHolders(images, k);
    }
  }

  lemma IndexLookup(images: Images, k: Key)
    ensures k in Index(images) <==> Holders(images, k) != {}
    ensures k in Index(images) ==> Index(images)[k] == Holders(images, k)
  {
    AdvertisedHolders(images, k);
  }

  /** Taking one key from one rank: its holder set loses that rank. */
  lemma IndexWithoutKey(images: Images, r: Rank, k: Key)
    requires r in images && k in images[r].at
    ensures k in Index(images)
    ensures Index(images[r := images[r].Without({k})]) ==
      if Index(images)[k] - {r} == {} then Index(images) - {k} else Index(images)[k := Index(images)[k] - {r}]
  {
    var after := images[r := images[r].Without({k})];
    IndexLookup(images, k);
    assert r in Holders(images, k);
    var m := if Index(images)[k] - {r} == {} then Index(images) - {k} else Index(images)[k := Index(images)[k] - {r}];
    forall j ensures j in m <==> Holders(after, j) != {}
      ensures j in m ==> m[j] == Holders(after, j)
    {
      IndexLookup(images, j);
      HoldersAfterUpdate(images, r, images[r].Without({k}), j);
      if j != k {
        assert Holders(after, j) == Holders(images, j);
      } else {
        assert Holders(after, j) == Holders(images, j) - {r};
      }
    }
    IndexIs(after, m);
  }

  /** Giving one new key to one rank: its holder set gains that rank. */
  lemma IndexWithKey(images: Images, r: Rank, k: Key, span: int)
    requires r in images
    ensures Index(images[r := images[r].Put(k, span)]) ==
      Index(images)[k := (if k in Index(images) then Index(images)[k] else {}) + {r}]
  {
    var after := images[r := images[r].Put(k, span)];
    var m := Index(images)[k := (if k in Index(images) then Index(images)[k] else {}) + {r}];
    forall j ensures j in m <==> Holders(after, j) != {}
      ensures j in m ==> m[j] == Holders(after, j)
    {
      IndexLookup(images, j);
      HoldersAfterUpdate(images, r, images[r].Put(k, span), j);
      if j != k {
        assert Holders(after, j) == Holders(images, j);
      } else {
        assert Holders(after, j) == Holders(images, j) + {r};
      }
    }
    IndexIs(after, m);
  }

  /** Taking one key from every rank removes exactly its index entry. */
  lemma IndexWithoutEverywhere(images: Images, k: Key)
    ensures Index(WithoutEverywhere(images, {k})) == Index(images) - {k}
  {
    var after := WithoutEverywhere(images, {k});
    forall j ensures j in Index(images) - {k} <==> Holders(after, j) != {}
      ensures j in Index(images) - {k} ==> Index(images)[j] == Holders(after, j)
    {
      IndexLookup(images, j);
      HoldersWithoutEverywhere(images, {k}, j);
    }
    IndexIs(after, Index(images) - {k});
  }

  lemma IndexKeys(images: Images)
    ensures Index(images).Keys == Advertised(images)
  {
  }

  lemma RecencySize(recency: seq<Key>, images: Images)
    requires WfRecency(recency, images)
    ensures |Index(images)| == |recency| == |Advertised(images)|
  {
    DistinctSize(recency);
    var index := Index(images);
    assert index.Keys == Advertised(images);
    assert |index| == |index.Keys|;
  }

  lemma WithdrawnRecency(recency: seq<Key>, images: Images, r: Rank)
    requires WfRecency(recency, images) && r in images
    ensures WfRecency(Drop(recency, Advertised(images) - Advertised(images[r := EmptyDict])), images[r := EmptyDict])
  {
    var after := images[r := EmptyDict];
    var gone := Advertised(images) - Advertised(after);
    DropDistinct(recency, gone);
    DropMembers(recency, gone);
    forall k | k in Advertised(after) ensures k in Advertised(images) {
      AdvertisedHolders(images, k);
      AdvertisedHolders(after, k);
      HoldersAfterUpdate(images, r, EmptyDict, k);
    }
  }

  lemma AdvertisedRecency(recency: seq<Key>, images: Images, r: Rank, d: Dict)
    requires WfRecency(recency, images) && r in images && images[r] == EmptyDict && d.Wf()
    ensures WfRecency(Drop(recency, d.at.Keys) + d.keys, images[r := d])
  {
    var kept := Drop(recency, d.at.Keys);
    DropDistinct(recency, d.at.Keys);
    DropMembers(recency, d.at.Keys);
    DistinctAppend(kept, d.keys);
    ToSetAppend(kept, d.keys);
    forall k ensures k in ToSet(kept) + d.at.Keys <==> k in Advertised(images[r := d]) {
      AdvertisedHolders(images, k);
      AdvertisedHolders(images[r := d], k);
      HoldersAfterUpdate(images, r, d, k);
      assert r !in Holders(images, k);
    }
  }

  lemma EnforcedRecency(images: Images, recency: seq<Key>, n: nat)
    requires WfRecency(recency, images) && n <= |recency|
    ensures WfRecency(recency[n..], WithoutEverywhere(images, ToSet(recency[..n])))
  {
    var gone := ToSet(recency[..n]);
    var after := WithoutEverywhere(images, gone);
    DistinctSplit(recency, n);
    forall k ensures k in Advertised(images) - gone <==> k in Advertised(after) {
      AdvertisedHolders(images, k);
      AdvertisedHolders(after, k);
      HoldersWithoutEverywhere(images, gone, k);
    }
  }
}
