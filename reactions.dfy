/**
 * The reaction bookkeeping a cluster keeps (PSICluster.h): the ClusterPair
 * and CombiningCluster records, the four reaction lists with their
 * "effective" subsets, the connectivity sets, and sums of any term over them.
 */
module Reactions {

  /**
   * A non-owning reference to a cluster of the network: the cluster's handle
   * (its position in the network's cluster pool), or the null pointer.
   */
  datatype ClusterRef = NullRef | Ref(handle: nat)

  /** Two clusters taking part in a reaction or a dissociation, with the rate. */
  datatype ClusterPair = ClusterPair(
    first: ClusterRef,
    second: ClusterRef,
    firstHeDistance: real,
    firstVDistance: real,
    secondHeDistance: real,
    secondVDistance: real,
    kConstant: real)

  /** A cluster that combines with the owner of the list, with the rate. */
  datatype CombiningCluster = CombiningCluster(
    combining: ClusterRef,
    heDistance: real,
    vDistance: real,
    kConstant: real)

  /** ClusterPair(first, second, k): the group distances start at 0.0. */
  function MakePair(first: ClusterRef, second: ClusterRef, k: real): (p: ClusterPair)
    ensures p.first == first && p.second == second && p.kConstant == k
    ensures p.firstHeDistance == 0.0 && p.firstVDistance == 0.0
    ensures p.secondHeDistance == 0.0 && p.secondVDistance == 0.0
  {
    ClusterPair(first, second, 0.0, 0.0, 0.0, 0.0, k)
  }

  /** CombiningCluster(c, k): the group distances start at 0.0. */
  function MakeCombining(c: ClusterRef, k: real): (r: CombiningCluster)
    ensures r.combining == c && r.kConstant == k
    ensures r.heDistance == 0.0 && r.vDistance == 0.0
  {
    CombiningCluster(c, 0.0, 0.0, k)
  }

  /**
   * The reaction bookkeeping of one cluster. Each eff* list holds the
   * positions, in the corresponding full list, of the entries the source
   * points to from its effective vector.
   */
  datatype Bookkeeping = Bookkeeping(
    reactingPairs: seq<ClusterPair>,
    effReactingPairs: seq<nat>,
    combiningReactants: seq<CombiningCluster>,
    effCombiningReactants: seq<nat>,
    dissociatingPairs: seq<ClusterPair>,
    effDissociatingPairs: seq<nat>,
    emissionPairs: seq<ClusterPair>,
    effEmissionPairs: seq<nat>,
    reactionConnectivity: set<int>,
    dissociationConnectivity: set<int>)

  const EmptyBookkeeping := Bookkeeping([], [], [], [], [], [], [], [], {}, {})

  function PairRate(p: ClusterPair): real { p.kConstant }

  function CombiningRate(c: CombiningCluster): real { c.kConstant }

  predicate StrictlyIncreasing(s: seq<nat>) {
    forall j, k :: 0 <= j < k < |s| ==> s[j] < s[k]
  }

  /** The positions of the entries of `s` whose rate is not 0.0, in order. */
  function NonZeroIndices<T>(s: seq<T>, rate: T -> real): (r: seq<nat>)
    ensures forall j :: 0 <= j < |r| ==> r[j] < |s| && rate(s[r[j]]) != 0.0
    ensures forall k :: 0 <= k < |s| && rate(s[k]) != 0.0 ==> k in r
    ensures StrictlyIncreasing(r)
  {
    if s == [] then []
    else
      var init := s[..|s| - 1];
      var prefix := NonZeroIndices(init, rate);
      assert forall k :: 0 <= k < |init| ==> init[k] == s[k];
      prefix + (if rate(s[|s| - 1]) != 0.0 then [|s| - 1] else [])
  }

  /** Fills an effective list: the positions of the entries with a non-zero rate. */
  method EffectiveIndices<T>(s: seq<T>, rate: T -> real) returns (eff: seq<nat>)
    ensures eff == NonZeroIndices(s, rate)
  {
    eff := [];
    var j := 0;
    while j < |s|
      invariant 0 <= j <= |s|
      invariant eff == NonZeroIndices(s[..j], rate)
    {
      assert s[..j + 1][..j] == s[..j];
      if rate(s[j]) != 0.0 {
        eff := eff + [j];
      }
      j := j + 1;
    }
    assert s[..j] == s;
  }

  /** The effective lists of `b` are exactly the entries whose rate is not 0.0. */
  predicate EffectiveUpToDate(b: Bookkeeping) {
    && b.effReactingPairs == NonZeroIndices(b.reactingPairs, PairRate)
    && b.effCombiningReactants == NonZeroIndices(b.combiningReactants, CombiningRate)
    && b.effDissociatingPairs == NonZeroIndices(b.dissociatingPairs, PairRate)
    && b.effEmissionPairs == NonZeroIndices(b.emissionPairs, PairRate)
  }

  /**
   * Rebuilds the four effective lists after the rates changed; the full
   * lists and the connectivity sets are kept.
   */
  method RefreshEffective(b: Bookkeeping) returns (r: Bookkeeping)
    ensures EffectiveUpToDate(r)
    ensures r.reactingPairs == b.reactingPairs && r.combiningReactants == b.combiningReactants
    ensures r.dissociatingPairs == b.dissociatingPairs && r.emissionPairs == b.emissionPairs
    ensures r.reactionConnectivity == b.reactionConnectivity
    ensures r.dissociationConnectivity == b.dissociationConnectivity
  {
    var er := EffectiveIndices(b.reactingPairs, PairRate);
    var ec := EffectiveIndices(b.combiningReactants, CombiningRate);
    var ed := EffectiveIndices(b.dissociatingPairs, PairRate);
    var ee := EffectiveIndices(b.emissionPairs, PairRate);
    r := b.(effReactingPairs := er, effCombiningReactants := ec,
            effDissociatingPairs := ed, effEmissionPairs := ee);
  }

  /** A pair with its rate erased: what stays fixed when the temperature changes. */
  function PairShape(p: ClusterPair): ClusterPair { p.(kConstant := 0.0) }

  function CombiningShape(c: CombiningCluster): CombiningCluster { c.(kConstant := 0.0) }

  function WithRates(ps: seq<ClusterPair>, rates: seq<real>): (r: seq<ClusterPair>)
    requires |rates| == |ps|
    ensures |r| == |ps|
    ensures forall j :: 0 <= j < |ps| ==> PairShape(r[j]) == PairShape(ps[j]) && r[j].kConstant == rates[j]
  {
    seq(|ps|, j requires 0 <= j < |ps| => ps[j].(kConstant := rates[j]))
  }

  function WithCombiningRates(cs: seq<CombiningCluster>, rates: seq<real>): (r: seq<CombiningCluster>)
    requires |rates| == |cs|
    ensures |r| == |cs|
    ensures forall j :: 0 <= j < |cs| ==> CombiningShape(r[j]) == CombiningShape(cs[j]) && r[j].kConstant == rates[j]
  {
    seq(|cs|, j requires 0 <= j < |cs| => cs[j].(kConstant := rates[j]))
  }

  /** Same partners in the same order, whatever the rates. */
  predicate SameStructure(a: Bookkeeping, b: Bookkeeping) {
    && |a.reactingPairs| == |b.reactingPairs|
    && (forall j :: 0 <= j < |a.reactingPairs| ==> PairShape(a.reactingPairs[j]) == PairShape(b.reactingPairs[j]))
    && |a.combiningReactants| == |b.combiningReactants|
    && (forall j :: 0 <= j < |a.combiningReactants| ==>
          CombiningShape(a.combiningReactants[j]) == CombiningShape(b.combiningReactants[j]))
    && |a.dissociatingPairs| == |b.dissociatingPairs|
    && (forall j :: 0 <= j < |a.dissociatingPairs| ==> PairShape(a.dissociatingPairs[j]) == PairShape(b.dissociatingPairs[j]))
    && |a.emissionPairs| == |b.emissionPairs|
    && (forall j :: 0 <= j < |a.emissionPairs| ==> PairShape(a.emissionPairs[j]) == PairShape(b.emissionPairs[j]))
    && a.reactionConnectivity == b.reactionConnectivity
    && a.dissociationConnectivity == b.dissociationConnectivity
  }

  /**
   * updateRateConstants: stores the new rate of every entry (the rate
   * formulas are inputs here) and rebuilds the effective lists. The
   * structural connectivity does not change, only the rates and the
   * effective subsets do.
   */
  method UpdateRateConstants(b: Bookkeeping, reacting: seq<real>, combining: seq<real>,
                             dissociating: seq<real>, emission: seq<real>) returns (r: Bookkeeping)
    requires |reacting| == |b.reactingPairs| && |combining| == |b.combiningReactants|
    requires |dissociating| == |b.dissociatingPairs| && |emission| == |b.emissionPairs|
    ensures SameStructure(r, b)
    ensures EffectiveUpToDate(r)
    ensures forall j :: 0 <= j < |reacting| ==> r.reactingPairs[j].kConstant == reacting[j]
    ensures forall j :: 0 <= j < |combining| ==> r.combiningReactants[j].kConstant == combining[j]
    ensures forall j :: 0 <= j < |dissociating| ==> r.dissociatingPairs[j].kConstant == dissociating[j]
    ensures forall j :: 0 <= j < |emission| ==> r.emissionPairs[j].kConstant == emission[j]
  {
    var reweighed := b.(reactingPairs := WithRates(b.reactingPairs, reacting),
                        combiningReactants := WithCombiningRates(b.combiningReactants, combining),
                        dissociatingPairs := WithRates(b.dissociatingPairs, dissociating),
                        emissionPairs := WithRates(b.emissionPairs, emission));
    r := RefreshEffective(reweighed);
  }

  // ----- Connectivity -----

  /** setReactionConnectivity(id): the cluster with that id is now connected. */
  function SetReactionConnectivity(b: Bookkeeping, id: int): (r: Bookkeeping)
    ensures r.reactionConnectivity == b.reactionConnectivity + {id}
    ensures r == b.(reactionConnectivity := r.reactionConnectivity)
  {
    b.(reactionConnectivity := b.reactionConnectivity + {id})
  }

  /** The 0/1 array of a connectivity set over a network of `n` clusters: entry j is cluster id j + 1. */
  function ConnectivityArray(conn: set<int>, n: nat): (v: seq<int>)
    ensures |v| == n
  {
    seq(n, j requires 0 <= j < n => if j + 1 in conn then 1 else 0)
  }

  /** The ids whose entry in a connectivity array is non-zero. */
  function ConnectedIds(v: seq<int>): set<int> {
    set j | 0 <= j < |v| && v[j] != 0 :: j + 1
  }

  /**
   * getReactionConnectivity / getDissociationConnectivity: the array of
   * `n` entries, 1 where the cluster with id = index + 1 is connected.
   */
  method GetConnectivityArray(conn: set<int>, n: nat) returns (v: seq<int>)
    ensures |v| == n
    ensures forall j :: 0 <= j < n ==> (v[j] == 0 || v[j] == 1)
    ensures forall j :: 0 <= j < n ==> (v[j] == 1 <==> j + 1 in conn)
  {
    v := [];
    while |v| < n
      invariant |v| <= n
      invariant forall j :: 0 <= j < |v| ==> (v[j] == 0 || v[j] == 1)
      invariant forall j :: 0 <= j < |v| ==> (v[j] == 1 <==> j + 1 in conn)
    {
      v := v + [if |v| + 1 in conn then 1 else 0];
    }
  }

  /** getConnectivity: a cluster is connected when it reacts or dissociates with this one. */
  method GetConnectivity(b: Bookkeeping, n: nat) returns (v: seq<int>)
    ensures |v| == n
    ensures forall j :: 0 <= j < n ==> (v[j] == 0 || v[j] == 1)
    ensures forall j :: 0 <= j < n ==>
      (v[j] == 1 <==> (j + 1 in b.reactionConnectivity || j + 1 in b.dissociationConnectivity))
  {
    v := GetConnectivityArray(b.reactionConnectivity + b.dissociationConnectivity, n);
  }

  /** getReactionConnectivitySet: the ids whose connectivity entry is non-zero. */
  method GetConnectivitySet(v: seq<int>) returns (ids: set<int>)
    ensures ids == ConnectedIds(v)
    ensures forall id :: id in ids <==> 1 <= id <= |v| && v[id - 1] != 0
  {
    ids := {};
    var j := 0;
    while j < |v|
      invariant 0 <= j <= |v|
      invariant ids == ConnectedIds(v[..j])
    {
      assert v[..j + 1][..j] == v[..j];
      if v[j] != 0 {
        ids := ids + {j + 1};
      }
      j := j + 1;
    }
    assert v[..j] == v;
  }

  /** The set read back from a connectivity array is the set of connected ids inside 1..n. */
  lemma ConnectivityRoundTrip(conn: set<int>, n: nat)
    ensures ConnectedIds(ConnectivityArray(conn, n)) == set id | id in conn && 1 <= id <= n
  {
    var v := ConnectivityArray(conn, n);
    forall id | id in conn && 1 <= id <= n
      ensures id in ConnectedIds(v)
    {
      assert v[id - 1] != 0;
    }
  }

  // ----- Sums over the effective lists -----

  /** Sum of `term` over the whole list. */
  function SumAll<T>(s: seq<T>, term: T -> real): real {
    if s == [] then 0.0 else SumAll(s[..|s| - 1], term) + term(s[|s| - 1])
  }

  /** Sum of `term` over the entries of `s` at the positions `idx`. */
  function SumAt<T>(s: seq<T>, idx: seq<nat>, term: T -> real): real
    requires forall j :: 0 <= j < |idx| ==> idx[j] < |s|
  {
    if idx == [] then 0.0 else SumAt(s, idx[..|idx| - 1], term) + term(s[idx[|idx| - 1]])
  }

  lemma {:induction false} SumAtPrefix<T>(s: seq<T>, n: nat, idx: seq<nat>, term: T -> real)
    requires n <= |s|
    requires forall j :: 0 <= j < |idx| ==> idx[j] < n
    ensures SumAt(s, idx, term) == SumAt(s[..n], idx, term)
  {
    if idx != [] {
      SumAtPrefix(s, n, idx[..|idx| - 1], term);
    }
  }

  /**
   * The hot path sums over the effective subset only; because every
   * omitted entry has rate 0.0, that is the same as summing over the full list.
   */
  lemma {:induction false} EffectiveSumIsFullSum<T>(s: seq<T>, rate: T -> real, term: T -> real)
    requires forall x :: rate(x) == 0.0 ==> term(x) == 0.0
    ensures SumAt(s, NonZeroIndices(s, rate), term) == SumAll(s, term)
  {
    if s != [] {
      var n := |s| - 1;
      var prefix := NonZeroIndices(s[..n], rate);
      EffectiveSumIsFullSum(s[..n], rate, term);
      SumAtPrefix(s, n, prefix, term);
      assert s[..n][..n] == s[..n];
      var idx := NonZeroIndices(s, rate);
      if rate(s[n]) != 0.0 {
        assert idx[..|idx| - 1] == prefix;
      } else {
        assert idx == prefix;
      }
    }
  }

  predicate EffInRange(b: Bookkeeping) {
    && (forall j :: 0 <= j < |b.effReactingPairs| ==> b.effReactingPairs[j] < |b.reactingPairs|)
    && (forall j :: 0 <= j < |b.effCombiningReactants| ==> b.effCombiningReactants[j] < |b.combiningReactants|)
    && (forall j :: 0 <= j < |b.effDissociatingPairs| ==> b.effDissociatingPairs[j] < |b.dissociatingPairs|)
    && (forall j :: 0 <= j < |b.effEmissionPairs| ==> b.effEmissionPairs[j] < |b.emissionPairs|)
  }

  lemma UpToDateInRange(b: Bookkeeping)
    requires EffectiveUpToDate(b)
    ensures EffInRange(b)
  {
  }
}
