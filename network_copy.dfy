/**
 * The copy constructor of the reaction network
 * (PSIClusterReactionNetwork.cpp): a fresh network with default properties
 * that is refilled through `add` with a clone of every cluster of the other
 * network, taking the single-species map, then the mixed map, then the
 * super map, each in std::map key order.
 */
module NetworkCopy {
  import opened Wrappers
  import opened Decimal
  import opened Composition
  import opened Network

  /** numHeVClusters + numHeIClusters: how many clusters `add` has counted as mixed. */
  function MixedCount(net: ReactionNetwork): nat
    reads net
  {
    net.numClusters.Of(HeV) + net.numClusters.Of(HeI)
  }

  /** Strictly increasing in std::map key order. */
  predicate SortedComps(keys: seq<Comp>) {
    forall j, k :: 0 <= j < k < |keys| ==> CompLess(keys[j], keys[k])
  }

  /** The keys of a std::map<Comp, _> in iteration order, by repeated extraction of the least. */
  method OrderedKeys(s: set<Comp>) returns (keys: seq<Comp>)
    ensures SortedComps(keys)
    ensures forall c :: c in keys <==> c in s
    ensures |keys| == |s|
  {
    var rest := s;
    keys := [];
    while rest != {}
      invariant rest <= s
      invariant forall c :: c in s <==> c in keys || c in rest
      invariant forall c :: c in keys ==> c !in rest
      invariant SortedComps(keys)
      invariant forall j, c :: 0 <= j < |keys| && c in rest ==> CompLess(keys[j], c)
      invariant |keys| + |rest| == |s|
      decreases |rest|
    {
      MinimumExists(rest);
      var m :| m in rest && forall c :: c in rest && c != m ==> CompLess(m, c);
      keys := keys + [m];
      rest := rest - {m};
    }
  }

  lemma SortedDistinct(keys: seq<Comp>, j: nat)
    requires SortedComps(keys) && j < |keys|
    ensures keys[j] !in keys[..j]
  {
    forall k | 0 <= k < j
      ensures keys[k] != keys[j]
    {
      CompLessTotal(keys[k], keys[j]);
    }
  }

  /** The keys of a listing, as a set. */
  function Listed(keys: seq<Comp>): set<Comp> {
    if keys == [] then {} else Listed(keys[..|keys| - 1]) + {keys[|keys| - 1]}
  }

  lemma {:induction false} ListedMembers(keys: seq<Comp>)
    ensures forall c :: c in Listed(keys) <==> c in keys
  {
    if keys != [] {
      var init := keys[..|keys| - 1];
      ListedMembers(init);
      assert keys == init + [keys[|keys| - 1]];
    }
  }

  /** One more key of the listing is taken. */
  lemma ListedStep(keys: seq<Comp>, j: nat)
    requires j < |keys|
    ensures Listed(keys[..j + 1]) == Listed(keys[..j]) + {keys[j]}
  {
    assert keys[..j + 1][..j] == keys[..j];
  }

  /** One more key of the sequence is taken. */
  lemma PrefixStep(keys: seq<Comp>, j: nat)
    requires j < |keys|
    ensures forall c :: c in keys[..j + 1] <==> c in keys[..j] || c == keys[j]
  {
    assert keys[..j + 1] == keys[..j] + [keys[j]];
  }

  /** A map holding a base set and the keys of a listing of s has base + s as key set. */
  lemma KeysOfListingAfter(m: map<Comp, nat>, base: set<Comp>, keys: seq<Comp>, s: set<Comp>)
    requires forall c :: c in m <==> c in base || c in keys[..|keys|]
    requires forall c :: c in keys <==> c in s
    ensures m.Keys == base + s
  {
    assert keys[..|keys|] == keys;
  }

  /** The key j of a sorted listing is not among the keys before it. */
  lemma NextNotListed(keys: seq<Comp>, j: nat)
    requires SortedComps(keys) && j < |keys|
    ensures keys[j] !in Listed(keys[..j])
  {
    SortedDistinct(keys, j);
    ListedMembers(keys[..j]);
  }

  /** All of a listing of s, as a set, is s. */
  lemma ListedAll(keys: seq<Comp>, s: set<Comp>)
    requires forall c :: c in keys <==> c in s
    ensures Listed(keys[..|keys|]) == s
  {
    assert keys[..|keys|] == keys;
    ListedMembers(keys);
  }

  /**
   * One single-species clone added by the copy: the summary of `add` the
   * copy relies on, for a composition the new network does not hold yet.
   */
  method AddSingleClone(net: ReactionNetwork, c: Cluster)
    requires net.Valid() && net.DenseIds() && !IsMixed(c.comp) && c.comp !in net.singleSpeciesMap
    modifies net
    ensures net.Valid() && net.DenseIds()
    ensures net.mixedSpeciesMap == old(net.mixedSpeciesMap)
    ensures net.singleSpeciesMap.Keys == old(net.singleSpeciesMap.Keys) + {c.comp}
    ensures net.superSpeciesMap == old(net.superSpeciesMap)
    ensures net.Count(NumClusters(Super)) == old(net.Count(NumClusters(Super)))
    ensures MixedCount(net) == old(MixedCount(net))
    ensures |net.allReactants| == old(|net.allReactants|) + 1
  {
    AddFamilyRule(c.comp);
    var h := net.AddNew(c);
  }

  /** One mixed clone added by the copy, for a composition the new network does not hold yet. */
  method AddMixedClone(net: ReactionNetwork, c: Cluster)
    requires net.Valid() && net.DenseIds() && IsMixed(c.comp) && c.comp !in net.mixedSpeciesMap
    modifies net
    ensures net.Valid() && net.DenseIds()
    ensures net.singleSpeciesMap == old(net.singleSpeciesMap)
    ensures net.mixedSpeciesMap.Keys == old(net.mixedSpeciesMap.Keys) + {c.comp}
    ensures net.superSpeciesMap == old(net.superSpeciesMap)
    ensures net.Count(NumClusters(Super)) == old(net.Count(NumClusters(Super)))
    ensures MixedCount(net) == old(MixedCount(net)) + 1
    ensures |net.allReactants| == old(|net.allReactants|) + 1
  {
    AddFamilyRule(c.comp);
    var h := net.AddNew(c);
  }

  /**
   * One super cluster cloned through `add`, as the copy constructor does:
   * a super composition is mixed, so `add` throws exactly when the mixed map
   * already holds it, and otherwise files it there.
   */
  method AddSuperClone(net: ReactionNetwork, c: Cluster, ghost keys: seq<Comp>, ghost j: nat,
                       ghost pool: seq<Cluster>, ghost index: map<Comp, nat>)
    returns (r: Result<nat, NetworkError>)
    requires net.Valid() && net.DenseIds() && IsMixed(c.comp)
    requires j < |keys| && SortedComps(keys) && IndexValid(index, pool) && keys[j] in index
    requires c == pool[index[keys[j]]]
    requires FiledUnderKind(net.mixedSpeciesMap, net.clusterTypeMap, keys[..j], pool, index)
    modifies net
    ensures r.Failure? <==> c.comp in old(net.mixedSpeciesMap)
    ensures r.Success? ==>
      && net.Valid() && net.DenseIds()
      && net.singleSpeciesMap.Keys == old(net.singleSpeciesMap.Keys)
      && net.mixedSpeciesMap.Keys == old(net.mixedSpeciesMap.Keys) + {c.comp}
      && net.superSpeciesMap == old(net.superSpeciesMap)
      && net.Count(NumClusters(Super)) == old(net.Count(NumClusters(Super)))
      && MixedCount(net) == old(MixedCount(net)) + 1
      && |net.allReactants| == old(|net.allReactants|) + 1
      && FiledUnderKind(net.mixedSpeciesMap, net.clusterTypeMap, keys[..j + 1], pool, index)
  {
    AddFamilyRule(c.comp);
    ghost var filed, lists, h := net.mixedSpeciesMap, net.clusterTypeMap, |net.pool|;
    r := net.Add(c);
    if r.Success? {
      FiledStep(filed, lists, keys, j, pool, index, h);
    }
  }

  /** One super cluster cloned through `addSuper`, for a mixed composition the new network lacks. */
  method AddSuperCloneCorrected(net: ReactionNetwork, c: Cluster)
    requires net.Valid() && net.DenseIds() && IsMixed(c.comp) && c.comp !in net.superSpeciesMap
    modifies net
    ensures net.Valid() && net.DenseIds()
    ensures net.singleSpeciesMap.Keys == old(net.singleSpeciesMap.Keys)
    ensures net.mixedSpeciesMap.Keys == old(net.mixedSpeciesMap.Keys)
    ensures net.superSpeciesMap.Keys == old(net.superSpeciesMap.Keys) + {c.comp}
    ensures net.Count(NumClusters(Super)) == old(net.Count(NumClusters(Super))) + 1
    ensures |net.allReactants| == old(|net.allReactants|) + 1
  {
    var r := net.AddSuper(c);
  }

  /** The first pass of the copy: every single-species cluster of `other`, added to the empty `net`. */
  method CopySingles(net: ReactionNetwork, other: ReactionNetwork)
    requires other.Valid() && net.Valid() && net.DenseIds() && net != other
    requires net.singleSpeciesMap == map[] && net.mixedSpeciesMap == map[] && net.superSpeciesMap == map[]
    modifies net
    ensures net.Valid() && net.DenseIds()
    ensures net.singleSpeciesMap.Keys == other.singleSpeciesMap.Keys
    ensures net.mixedSpeciesMap == map[] && net.superSpeciesMap == map[]
    ensures net.Count(NumClusters(Super)) == old(net.Count(NumClusters(Super)))
    ensures MixedCount(net) == old(MixedCount(net))
    ensures |net.allReactants| == old(|net.allReactants|) + |other.singleSpeciesMap.Keys|
  {
    var pool, index := other.pool, other.singleSpeciesMap;
    assert IndexValid(index, pool) && forall c :: c in index ==> !IsMixed(c);
    var singles := OrderedKeys(index.Keys);
    var j := 0;
    assert Listed([]) == {};
    while j < |singles|
      invariant 0 <= j <= |singles|
      invariant net.Valid() && net.DenseIds()
      invariant net.singleSpeciesMap.Keys == Listed(singles[..j])
      invariant net.mixedSpeciesMap == map[] && net.superSpeciesMap == map[]
      invariant net.Count(NumClusters(Super)) == old(net.Count(NumClusters(Super)))
      invariant MixedCount(net) == old(MixedCount(net))
      invariant |net.allReactants| == old(|net.allReactants|) + j
    {
      var comp := singles[j];
      var clone := pool[index[comp]];
      assert clone.comp == comp && !IsMixed(comp);
      NextNotListed(singles, j);
      AddSingleClone(net, clone);
      ListedStep(singles, j);
      j := j + 1;
    }
    ListedAll(singles, index.Keys);
  }

  /** The second pass of the copy: every mixed cluster of `other`, added to `net`. */
  method CopyMixed(net: ReactionNetwork, other: ReactionNetwork)
    requires other.Valid() && net.Valid() && net.DenseIds() && net != other
    requires net.mixedSpeciesMap == map[] && net.superSpeciesMap == map[]
    modifies net
    ensures net.Valid() && net.DenseIds()
    ensures net.singleSpeciesMap.Keys == old(net.singleSpeciesMap.Keys)
    ensures net.mixedSpeciesMap.Keys == other.mixedSpeciesMap.Keys
    ensures net.superSpeciesMap == map[]
    ensures net.Count(NumClusters(Super)) == old(net.Count(NumClusters(Super)))
    ensures MixedCount(net) == old(MixedCount(net)) + |other.mixedSpeciesMap.Keys|
    ensures |net.allReactants| == old(|net.allReactants|) + |other.mixedSpeciesMap.Keys|
  {
    var pool, index := other.pool, other.mixedSpeciesMap;
    assert IndexValid(index, pool) && forall c :: c in index ==> IsMixed(c);
    var mixed := OrderedKeys(index.Keys);
    var j := 0;
    assert Listed([]) == {};
    while j < |mixed|
      invariant 0 <= j <= |mixed|
      invariant net.Valid() && net.DenseIds()
      invariant net.singleSpeciesMap.Keys == old(net.singleSpeciesMap.Keys)
      invariant net.mixedSpeciesMap.Keys == Listed(mixed[..j])
      invariant net.superSpeciesMap == old(net.superSpeciesMap)
      invariant net.Count(NumClusters(Super)) == old(net.Count(NumClusters(Super)))
      invariant MixedCount(net) == old(MixedCount(net)) + j
      invariant |net.allReactants| == old(|net.allReactants|) + j
    {
      var comp := mixed[j];
      var clone := pool[index[comp]];
      assert clone.comp == comp && IsMixed(comp);
      NextNotListed(mixed, j);
      AddMixedClone(net, clone);
      ListedStep(mixed, j);
      j := j + 1;
    }
    ListedAll(mixed, index.Keys);
  }

  /** The first two passes of the copy; none of these adds can throw. */
  method CopySinglesAndMixed(other: ReactionNetwork) returns (net: ReactionNetwork)
    requires other.Valid()
    ensures fresh(net) && net.Valid() && net.DenseIds()
    ensures net.singleSpeciesMap.Keys == other.singleSpeciesMap.Keys
    ensures net.mixedSpeciesMap.Keys == other.mixedSpeciesMap.Keys
    ensures net.superSpeciesMap == map[]
    ensures net.Count(NumClusters(Super)) == 0
    ensures MixedCount(net) == |other.mixedSpeciesMap.Keys|
    ensures |net.allReactants| == |other.singleSpeciesMap.Keys| + |other.mixedSpeciesMap.Keys|
  {
    net := new ReactionNetwork();
    assert MixedCount(net) == 0 && net.Count(NumClusters(Super)) == 0 && |net.allReactants| == 0;
    CopySingles(net, other);
    CopyMixed(net, other);
  }

  /**
   * The third pass of the copy as written: every super cluster of `other`
   * added through `add`; the error `add` throws for the first super
   * composition the mixed map already holds, if there is one.
   */
  method CopySupersThroughAdd(net: ReactionNetwork, other: ReactionNetwork) returns (err: Option<NetworkError>)
    requires other.Valid() && net.Valid() && net.DenseIds() && net != other
    requires net.mixedSpeciesMap.Keys == other.mixedSpeciesMap.Keys && net.superSpeciesMap == map[]
    modifies net
    ensures err.Some? <==> other.mixedSpeciesMap.Keys * other.superSpeciesMap.Keys != {}
    ensures err.None? ==>
      && net.Valid() && net.DenseIds()
      && net.singleSpeciesMap.Keys == old(net.singleSpeciesMap.Keys)
      && net.mixedSpeciesMap.Keys == other.mixedSpeciesMap.Keys + other.superSpeciesMap.Keys
      && net.superSpeciesMap == map[]
      && net.Count(NumClusters(Super)) == old(net.Count(NumClusters(Super)))
      && MixedCount(net) == old(MixedCount(net)) + |other.superSpeciesMap.Keys|
      && |net.allReactants| == old(|net.allReactants|) + |other.superSpeciesMap.Keys|
      && forall c :: c in other.superSpeciesMap ==>
           c in net.mixedSpeciesMap
           && net.mixedSpeciesMap[c] in net.clusterTypeMap.Of(other.pool[other.superSpeciesMap[c]].kind)
  {
    var pool, index, mixed := other.pool, other.superSpeciesMap, other.mixedSpeciesMap.Keys;
    assert IndexValid(index, pool) && forall c :: c in index ==> IsMixed(c);
    var supers := OrderedKeys(index.Keys);
    err := AddSupersInOrder(net, supers, pool, index);
    if err.Some? {
      var c :| c in supers && c in mixed;
      assert c in mixed * index.Keys;
      return;
    }
    FiledAll(net.mixedSpeciesMap, net.clusterTypeMap, supers, pool, index);
    NoneListed(supers, mixed, index.Keys);
    KeysOfListingAfter(net.mixedSpeciesMap, mixed, supers, index.Keys);
  }

  /**
   * The loop of the third pass: the super clusters named by `supers`, in
   * that order, each cloned through `add`; the first error `add` throws
   * stops it.
   */
  method AddSupersInOrder(net: ReactionNetwork, supers: seq<Comp>, pool: seq<Cluster>, index: map<Comp, nat>)
    returns (err: Option<NetworkError>)
    requires net.Valid() && net.DenseIds() && SortedComps(supers) && IndexValid(index, pool)
    requires forall c :: c in supers ==> c in index && IsMixed(c)
    modifies net
    ensures err.Some? <==> exists c :: c in supers && c in old(net.mixedSpeciesMap)
    ensures err.None? ==>
      && net.Valid() && net.DenseIds()
      && net.singleSpeciesMap.Keys == old(net.singleSpeciesMap.Keys)
      && (forall c :: c in net.mixedSpeciesMap <==> c in old(net.mixedSpeciesMap) || c in supers[..|supers|])
      && (forall c :: c in supers[..|supers|] ==> c !in old(net.mixedSpeciesMap))
      && net.superSpeciesMap == old(net.superSpeciesMap)
      && net.Count(NumClusters(Super)) == old(net.Count(NumClusters(Super)))
      && MixedCount(net) == old(MixedCount(net)) + |supers|
      && |net.allReactants| == old(|net.allReactants|) + |supers|
      && FiledUnderKind(net.mixedSpeciesMap, net.clusterTypeMap, supers[..|supers|], pool, index)
  {
    ghost var mixed := net.mixedSpeciesMap.Keys;
    var j := 0;
    while j < |supers|
      invariant 0 <= j <= |supers|
      invariant net.Valid() && net.DenseIds()
      invariant net.singleSpeciesMap.Keys == old(net.singleSpeciesMap.Keys)
      invariant forall c :: c in net.mixedSpeciesMap <==> c in mixed || c in supers[..j]
      invariant forall c :: c in supers[..j] ==> c !in mixed
      invariant net.superSpeciesMap == old(net.superSpeciesMap)
      invariant net.Count(NumClusters(Super)) == old(net.Count(NumClusters(Super)))
      invariant MixedCount(net) == old(MixedCount(net)) + j
      invariant |net.allReactants| == old(|net.allReactants|) + j
      invariant FiledUnderKind(net.mixedSpeciesMap, net.clusterTypeMap, supers[..j], pool, index)
    {
      var comp := supers[j];
      var clone := pool[index[comp]];
      SortedDistinct(supers, j);
      var added := AddSuperClone(net, clone, supers, j, pool, index);
      if added.Failure? {
        return Some(added.error);
      }
      PrefixStep(supers, j);
      j := j + 1;
    }
    assert supers[..j] == supers;
    err := None;
  }

  /**
   * Each listed composition of `index` is filed in `m` under a handle that
   * its species list holds, the species being that of the cluster `index`
   * names in `pool`.
   */
  ghost predicate FiledUnderKind(m: map<Comp, nat>, lists: SpeciesLists, keys: seq<Comp>,
                                 pool: seq<Cluster>, index: map<Comp, nat>) {
    forall i :: 0 <= i < |keys| ==>
      && keys[i] in index && index[keys[i]] < |pool| && keys[i] in m
      && m[keys[i]] in lists.Of(pool[index[keys[i]]].kind)
  }

  /** One more composition filed by `add`: its handle is appended to the list of its cluster's species. */
  lemma FiledStep(m: map<Comp, nat>, lists: SpeciesLists, keys: seq<Comp>, j: nat,
                  pool: seq<Cluster>, index: map<Comp, nat>, h: nat)
    requires j < |keys| && SortedComps(keys) && IndexValid(index, pool) && keys[j] in index
    requires FiledUnderKind(m, lists, keys[..j], pool, index)
    ensures var k := pool[index[keys[j]]].kind;
      FiledUnderKind(m[keys[j] := h], lists.With(k, lists.Of(k) + [h]), keys[..j + 1], pool, index)
  {
    var comp, k := keys[j], pool[index[keys[j]]].kind;
    var m', lists' := m[comp := h], lists.With(k, lists.Of(k) + [h]);
    SortedDistinct(keys, j);
    forall i | 0 <= i < j + 1
      ensures keys[i] in m' && m'[keys[i]] in lists'.Of(pool[index[keys[i]]].kind)
    {
      if i < j {
        assert keys[..j][i] == keys[i] && keys[i] != comp;
        var k', g := pool[index[keys[i]]].kind, m[keys[i]];
        if k' == k {
          var p :| 0 <= p < |lists.Of(k)| && lists.Of(k)[p] == g;
          assert lists'.Of(k)[p] == g;
        }
      } else {
        assert lists'.Of(k)[|lists.Of(k)|] == h;
      }
    }
  }

  /** Every key of a listing of the index is filed. */
  lemma FiledAll(m: map<Comp, nat>, lists: SpeciesLists, keys: seq<Comp>, pool: seq<Cluster>, index: map<Comp, nat>)
    requires FiledUnderKind(m, lists, keys[..|keys|], pool, index)
    requires forall c :: c in keys <==> c in index
    ensures forall c :: c in index ==> c in m && index[c] < |pool| && m[c] in lists.Of(pool[index[c]].kind)
  {
    assert keys[..|keys|] == keys;
    forall c | c in index
      ensures c in m && index[c] < |pool| && m[c] in lists.Of(pool[index[c]].kind)
    {
      var i :| 0 <= i < |keys| && keys[i] == c;
    }
  }

  /** When no key of a listing of s is in m, s and m are disjoint. */
  lemma NoneListed(keys: seq<Comp>, m: set<Comp>, s: set<Comp>)
    requires forall c :: c in keys[..|keys|] ==> c !in m
    requires forall c :: c in keys <==> c in s
    ensures m * s == {}
  {
    assert keys[..|keys|] == keys;
    assert forall c :: c in m * s ==> c in s && c !in m;
  }

  /**
   * The copy constructor as written: the super clusters are cloned through
   * `add`, which files them in the mixed map and counts them as HeV or HeI.
   * It throws exactly when a super composition is also a mixed one.
   */
  method CopyNetwork(other: ReactionNetwork) returns (r: Result<ReactionNetwork, NetworkError>)
    requires other.Valid()
    ensures r.Failure? <==> other.mixedSpeciesMap.Keys * other.superSpeciesMap.Keys != {}
    ensures r.Success? ==>
      && fresh(r.value) && r.value.Valid() && r.value.DenseIds()
      && r.value.singleSpeciesMap.Keys == other.singleSpeciesMap.Keys
      && r.value.mixedSpeciesMap.Keys == other.mixedSpeciesMap.Keys + other.superSpeciesMap.Keys
      && r.value.superSpeciesMap == map[]
      && r.value.Count(NumClusters(Super)) == 0
      && MixedCount(r.value) == |other.mixedSpeciesMap.Keys| + |other.superSpeciesMap.Keys|
      && |r.value.allReactants| == |other.singleSpeciesMap.Keys| + |other.mixedSpeciesMap.Keys|
                                   + |other.superSpeciesMap.Keys|
      && forall c :: c in other.superSpeciesMap ==>
           r.value.mixedSpeciesMap[c] in r.value.clusterTypeMap.Of(other.pool[other.superSpeciesMap[c]].kind)
  {
    var net := CopySinglesAndMixed(other);
    var err := CopySupersThroughAdd(net, other);
    if err.Some? {
      return Failure(err.value);
    }
    r := Success(net);
  }

  /** The third pass of the copy as evidently intended: every super cluster of `other` added through `addSuper`. */
  method CopySupersThroughAddSuper(net: ReactionNetwork, other: ReactionNetwork)
    requires other.Valid() && net.Valid() && net.DenseIds() && net != other
    requires net.superSpeciesMap == map[]
    modifies net
    ensures net.Valid() && net.DenseIds()
    ensures net.singleSpeciesMap.Keys == old(net.singleSpeciesMap.Keys)
    ensures net.mixedSpeciesMap.Keys == old(net.mixedSpeciesMap.Keys)
    ensures net.superSpeciesMap.Keys == other.superSpeciesMap.Keys
    ensures net.Count(NumClusters(Super)) == old(net.Count(NumClusters(Super))) + |other.superSpeciesMap.Keys|
    ensures |net.allReactants| == old(|net.allReactants|) + |other.superSpeciesMap.Keys|
  {
    var pool, index := other.pool, other.superSpeciesMap;
    var supers := OrderedKeys(index.Keys);
    var j := 0;
    assert Listed([]) == {};
    while j < |supers|
      invariant 0 <= j <= |supers|
      invariant net.Valid() && net.DenseIds()
      invariant net.singleSpeciesMap.Keys == old(net.singleSpeciesMap.Keys)
      invariant net.mixedSpeciesMap.Keys == old(net.mixedSpeciesMap.Keys)
      invariant net.superSpeciesMap.Keys == Listed(supers[..j])
      invariant net.Count(NumClusters(Super)) == old(net.Count(NumClusters(Super))) + j
      invariant |net.allReactants| == old(|net.allReactants|) + j
    {
      var comp := supers[j];
      var clone := pool[index[comp]];
      NextNotListed(supers, j);
      AddSuperCloneCorrected(net, clone);
      ListedStep(supers, j);
      j := j + 1;
    }
    ListedAll(supers, index.Keys);
  }

  /**
   * The copy constructor as evidently intended: super clusters go through
   * `addSuper`, so the copy has the same three key sets as the original,
   * cannot throw, and counts every super cluster.
   */
  method CopyNetworkCorrected(other: ReactionNetwork) returns (net: ReactionNetwork)
    requires other.Valid()
    ensures fresh(net) && net.Valid() && net.DenseIds()
    ensures net.singleSpeciesMap.Keys == other.singleSpeciesMap.Keys
    ensures net.mixedSpeciesMap.Keys == other.mixedSpeciesMap.Keys
    ensures net.superSpeciesMap.Keys == other.superSpeciesMap.Keys
    ensures net.Count(NumClusters(Super)) == |other.superSpeciesMap.Keys|
    ensures |net.allReactants| == |other.singleSpeciesMap.Keys| + |other.mixedSpeciesMap.Keys|
                                  + |other.superSpeciesMap.Keys|
  {
    net := CopySinglesAndMixed(other);
    CopySupersThroughAddSuper(net, other);
  }
}
