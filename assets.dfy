/** The asset registry of `hyo-game/src/assets.rs`: a `HashSet` of assets whose
    hashing and equality look at the asset's name only (`AssetByName`), so the
    set holds at most one asset per name. The set is represented by its
    elements keyed by name. */
module GameAssets {
  import opened Common

  /** An `Asset`: its name (the path below the assets directory, without
      extension) and the file it was found at. */
  datatype Asset = Asset(name: string, path: string)

  /** A representation of the set: every asset is stored under its own name. */
  ghost predicate Keyed(m: map<string, Asset>) {
    forall n :: n in m ==> m[n].name == n
  }

  /** The elements of the set represented by `m`. */
  ghost function Elements(m: map<string, Asset>): set<Asset> {
    set n | n in m :: m[n]
  }

  /** `AssetByName`'s `PartialEq`: an element equal by name to `a` is in the
      set exactly when `a`'s name is a key, and then it is the asset stored
      under that key. The path plays no part. */
  lemma {:induction false} ElementByName(m: map<string, Asset>, a: Asset)
    requires Keyed(m)
    ensures (exists b :: b in Elements(m) && b.name == a.name) <==> a.name in m
    ensures forall b :: b in Elements(m) && b.name == a.name ==> b == m[a.name]
  {
    if a.name in m {
      assert m[a.name] in Elements(m);
    }
  }

  /** Adding an asset under a fresh name adds exactly that element. */
  lemma {:induction false} ElementsAdd(m: map<string, Asset>, a: Asset)
    requires Keyed(m) && a.name !in m
    ensures Keyed(m[a.name := a])
    ensures Elements(m[a.name := a]) == Elements(m) + {a}
  {
    var m' := m[a.name := a];
    forall b ensures b in Elements(m') <==> b in Elements(m) + {a} {
      if b in Elements(m') {
        var n :| n in m' && m'[n] == b;
        if n != a.name {
          assert m[n] == b;
        }
      }
      if b in Elements(m) {
        var n :| n in m && m[n] == b;
        assert m'[n] == b;
      }
      if b == a {
        assert m'[a.name] == a;
      }
    }
  }

  /** `Assets`: the set of assets, by name. */
  class Assets {
    var byName: map<string, Asset>

    ghost predicate Valid()
      reads this
    {
      Keyed(byName)
    }

    /** The assets in the set. */
    ghost function Contents(): set<Asset>
      reads this
    {
      Elements(byName)
    }

    /** `Assets::default()`: the empty set. */
    constructor Default()
      ensures Valid() && Contents() == {}
    {
      byName := map[];
    }

    /** `Assets::add` (`HashSet::insert`): an asset whose name is not in the set
        yet is added and `true` returned; otherwise `false` is returned and the
        set, including the asset already stored under that name, is left as it
        was. */
    method Add(asset: Asset) returns (added: bool)
      requires Valid()
      modifies this
      ensures Valid()
      ensures added <==> !(exists b :: b in old(Contents()) && b.name == asset.name)
      ensures added ==> Contents() == old(Contents()) + {asset}
      ensures !added ==> byName == old(byName)
      ensures forall n :: n != asset.name ==> (n in byName <==> n in old(byName))
      ensures forall n :: n != asset.name && n in byName ==> byName[n] == old(byName)[n]
    {
      ElementByName(byName, asset);
      if asset.name in byName {
        return false;
      }
      ElementsAdd(byName, asset);
      byName := byName[asset.name := asset];
      added := true;
    }

    /** `Assets::get`: the asset in the set with the given name, if any. */
    function Get(name: string): (r: Option<Asset>)
      reads this
      requires Valid()
      ensures r.Some? <==> exists b :: b in Contents() && b.name == name
      ensures r.Some? ==> r.value in Contents() && r.value.name == name
    {
      ElementByName(byName, Asset(name, ""));
      if name in byName then Some(byName[name]) else None
    }
  }
}
