/**
 * The helium cluster (HeCluster.cpp): its construction and the two passes
 * that fill its reaction bookkeeping from the network it belongs to. The
 * cluster lives in the network's pool, so each pass builds the cluster's new
 * bookkeeping and stores it back in place.
 */
module HeClusterModel {
  import opened Decimal
  import opened Composition
  import opened Reactions
  import opened Network

  // ----- Construction -----

  /** HeCluster(nHe): size clamped to at least 1, He = size, name "He_<size>", type He. */
  function NewHeCluster(nHe: int): (c: Cluster)
    ensures c.kind == He && c.size == ClampSize(nHe)
    ensures c.comp == SpeciesComp(He, c.size) && !IsMixed(c.comp)
    ensures c.book == EmptyBookkeeping
  {
    var n := ClampSize(nHe);
    Cluster(He, Comp(n, 0, 0), "He_" + NatToString(n), n, 0, 0, 0, EmptyBookkeeping)
  }

  /** The name is "He_" followed by the size in decimal: reading the digits back gives the size. */
  lemma HeNameGivesSize(nHe: int)
    ensures |NewHeCluster(nHe).name| > 3 && NewHeCluster(nHe).name[..3] == "He_"
    ensures IsNumeral(NewHeCluster(nHe).name[3..])
    ensures StringToNat(NewHeCluster(nHe).name[3..]) == ClampSize(nHe)
  {
    var c := NewHeCluster(nHe);
    assert c.name[3..] == NatToString(c.size);
    StringToNatOfNatToString(c.size);
  }

  // ----- Production by splitting: He_a + He_(n-a) --> He_n -----

  /** get("He", a): the He cluster of size a, or null. */
  function HeRef(single: map<Comp, nat>, a: int): ClusterRef {
    if a >= 1 && Comp(a, 0, 0) in single then Ref(single[Comp(a, 0, 0)]) else NullRef
  }

  predicate BothPresent(single: map<Comp, nat>, n: int, a: int) {
    HeRef(single, a).Ref? && HeRef(single, n - a).Ref?
  }

  /** The first sizes a in 1..upTo for which He_a and He_(n-a) are both in the network, ascending. */
  function SplitSizes(single: map<Comp, nat>, n: int, upTo: int): seq<int>
    decreases upTo
  {
    if upTo < 1 then []
    else SplitSizes(single, n, upTo - 1) + (if BothPresent(single, n, upTo) then [upTo] else [])
  }

  /** The reacting pairs the split loop records for firstSize = 1..upTo. */
  function SplitPairs(single: map<Comp, nat>, n: int, upTo: int): seq<ClusterPair>
    decreases upTo
  {
    if upTo < 1 then []
    else SplitPairs(single, n, upTo - 1)
         + (if BothPresent(single, n, upTo) then [MakePair(HeRef(single, upTo), HeRef(single, n - upTo), 0.0)] else [])
  }

  /** The k-th recorded pair is (He_a, He_(n-a)) for the k-th size a of SplitSizes. */
  lemma {:induction false} SplitPairsBySize(single: map<Comp, nat>, n: int, upTo: int)
    ensures |SplitPairs(single, n, upTo)| == |SplitSizes(single, n, upTo)|
    ensures forall k :: 0 <= k < |SplitSizes(single, n, upTo)| ==>
      var a := SplitSizes(single, n, upTo)[k];
      SplitPairs(single, n, upTo)[k] == MakePair(HeRef(single, a), HeRef(single, n - a), 0.0)
    decreases upTo
  {
    if upTo >= 1 {
      SplitPairsBySize(single, n, upTo - 1);
      var pairs, sizes := SplitPairs(single, n, upTo - 1), SplitSizes(single, n, upTo - 1);
      if BothPresent(single, n, upTo) {
        assert SplitSizes(single, n, upTo) == sizes + [upTo];
        assert SplitPairs(single, n, upTo)
            == pairs + [MakePair(HeRef(single, upTo), HeRef(single, n - upTo), 0.0)];
      } else {
        assert SplitSizes(single, n, upTo) == sizes;
        assert SplitPairs(single, n, upTo) == pairs;
      }
    }
  }

  /**
   * Every size a in 1..upTo whose two halves exist is recorded exactly once,
   * in increasing order, and no other size is.
   */
  lemma {:induction false} SplitSizesExact(single: map<Comp, nat>, n: int, upTo: int)
    ensures forall a :: a in SplitSizes(single, n, upTo) <==> 1 <= a <= upTo && BothPresent(single, n, a)
    ensures forall k, l :: 0 <= k < l < |SplitSizes(single, n, upTo)| ==>
      SplitSizes(single, n, upTo)[k] < SplitSizes(single, n, upTo)[l]
    decreases upTo
  {
    if upTo >= 1 {
      SplitSizesExact(single, n, upTo - 1);
      var s := SplitSizes(single, n, upTo - 1);
      assert forall k :: 0 <= k < |s| ==> s[k] in s;
    }
  }

  /**
   * Halving the loop bound records each unordered split {a, n - a} at most
   * once: two recorded pairs never have the same two sizes, in either order.
   */
  lemma NoSplitTwice(single: map<Comp, nat>, n: int, k: nat, l: nat)
    requires k < l < |SplitSizes(single, n, n / 2)|
    ensures var s := SplitSizes(single, n, n / 2);
            s[k] != s[l] && s[k] != n - s[l] && n - s[k] != n - s[l] && n - s[k] != s[l]
  {
    SplitSizesExact(single, n, n / 2);
    var s := SplitSizes(single, n, n / 2);
    assert s[k] in s && s[l] in s;
  }

  /** The k-th recorded pair joins the two halves of a size whose halves both exist. */
  lemma SplitPairAt(single: map<Comp, nat>, n: int, upTo: int, k: nat)
    requires k < |SplitPairs(single, n, upTo)|
    ensures k < |SplitSizes(single, n, upTo)|
    ensures var a := SplitSizes(single, n, upTo)[k];
            && 1 <= a <= upTo && BothPresent(single, n, a)
            && SplitPairs(single, n, upTo)[k] == MakePair(HeRef(single, a), HeRef(single, n - a), 0.0)
            && Comp(a, 0, 0) in single && Comp(n - a, 0, 0) in single
            && SplitPairs(single, n, upTo)[k].first == Ref(single[Comp(a, 0, 0)])
            && SplitPairs(single, n, upTo)[k].second == Ref(single[Comp(n - a, 0, 0)])
  {
    SplitPairsBySize(single, n, upTo);
    SplitSizesExact(single, n, upTo);
    assert SplitSizes(single, n, upTo)[k] in SplitSizes(single, n, upTo);
  }

  /** He_a + He_(n-a) --> He_n keeps both balances. */
  lemma SplitConserves(a: int, n: int)
    ensures Conserves([Comp(a, 0, 0), Comp(n - a, 0, 0)], [Comp(n, 0, 0)])
  {
    CountsOfPair(Comp(a, 0, 0), Comp(n - a, 0, 0));
    CountsOfOne(Comp(n, 0, 0));
  }

  /** A pair of existing clusters whose helium adds up to n and that reacts to He_n conserving both balances. */
  predicate ProducesHe(pool: seq<Cluster>, p: ClusterPair, n: int) {
    && p.first.Ref? && p.second.Ref? && p.first.handle < |pool| && p.second.handle < |pool|
    && pool[p.first.handle].comp.he + pool[p.second.handle].comp.he == n
    && Conserves([pool[p.first.handle].comp, pool[p.second.handle].comp], [Comp(n, 0, 0)])
  }

  /** The pair (He_a, He_(n-a)) looked up in a valid index produces He_n. */
  lemma HePairProduces(pool: seq<Cluster>, single: map<Comp, nat>, p: ClusterPair, a: int, n: int)
    requires IndexValid(single, pool)
    requires Comp(a, 0, 0) in single && Comp(n - a, 0, 0) in single
    requires p.first == Ref(single[Comp(a, 0, 0)]) && p.second == Ref(single[Comp(n - a, 0, 0)])
    ensures ProducesHe(pool, p, n)
  {
    assert pool[p.first.handle].comp == Comp(a, 0, 0);
    assert pool[p.second.handle].comp == Comp(n - a, 0, 0);
    SplitConserves(a, n);
  }

  /** Each recorded pair really produces He_n: two He clusters whose sizes add up to n. */
  lemma SplitPairsProduce(pool: seq<Cluster>, single: map<Comp, nat>, n: int, k: nat)
    requires IndexValid(single, pool)
    requires k < |SplitPairs(single, n, n / 2)|
    ensures ProducesHe(pool, SplitPairs(single, n, n / 2)[k], n)
  {
    SplitPairAt(single, n, n / 2, k);
    HePairProduces(pool, single, SplitPairs(single, n, n / 2)[k], SplitSizes(single, n, n / 2)[k], n);
  }

  /** Looking He_a up by type name and size finds exactly the cluster HeRef names. */
  lemma LookupHe(single: map<Comp, nat>, a: int)
    ensures LookupSingle(single, "He", a).Some? <==> HeRef(single, a).Ref?
    ensures LookupSingle(single, "He", a).Some? ==> HeRef(single, a) == Ref(LookupSingle(single, "He", a).value)
  {
    assert SingleComp("He", a) == Comp(a, 0, 0);
  }

  /** One step of the split loop: size a adds a pair exactly when both lookups succeed. */
  lemma SplitStepValues(single: map<Comp, nat>, n: int, a: int)
    requires a >= 1
    ensures var first, second := LookupSingle(single, "He", a), LookupSingle(single, "He", n - a);
            SplitPairs(single, n, a)
              == SplitPairs(single, n, a - 1)
                 + (if first.Some? && second.Some? then [MakePair(Ref(first.value), Ref(second.value), 0.0)] else [])
  {
    LookupHe(single, a);
    LookupHe(single, n - a);
  }

  /** The same step with the lookups made through the network's get. */
  lemma SplitStep(net: ReactionNetwork, n: int, a: int)
    requires net.Valid() && a >= 1
    ensures var first, second := net.Get("He", a), net.Get("He", n - a);
            SplitPairs(net.singleSpeciesMap, n, a)
              == SplitPairs(net.singleSpeciesMap, n, a - 1)
                 + (if first.Some? && second.Some? then [MakePair(Ref(first.value), Ref(second.value), 0.0)] else [])
  {
    SplitStepValues(net.singleSpeciesMap, n, a);
    assert net.Get("He", a) == LookupSingle(net.singleSpeciesMap, "He", a);
    assert net.Get("He", n - a) == LookupSingle(net.singleSpeciesMap, "He", n - a);
  }

  /** The split loop of createReactionConnectivity, for a cluster of size n. */
  method RecordSplits(net: ReactionNetwork, n: int) returns (pairs: seq<ClusterPair>)
    requires net.Valid()
    ensures pairs == SplitPairs(net.singleSpeciesMap, n, n / 2)
  {
    pairs := [];
    var firstSize := 1;
    while firstSize <= n / 2
      invariant 1 <= firstSize <= (if n / 2 >= 1 then n / 2 + 1 else 1)
      invariant pairs == SplitPairs(net.singleSpeciesMap, n, firstSize - 1)
    {
      var secondSize := n - firstSize;
      var first := net.Get("He", firstSize);
      var second := net.Get("He", secondSize);
      SplitStep(net, n, firstSize);
      if first.Some? && second.Some? {
        pairs := pairs + [MakePair(Ref(first.value), Ref(second.value), 0.0)];
      }
      firstSize := firstSize + 1;
    }
  }

  // ----- Combination: this + B --> product, capped by a maximum size -----

  /** The handles of `cands` whose size added to `size` stays within `maxSize`, in order. */
  function Combinable(pool: seq<Cluster>, cands: seq<nat>, size: int, maxSize: int): (r: seq<nat>)
    requires HandlesIn(cands, |pool|)
    ensures HandlesIn(r, |pool|)
  {
    if cands == [] then []
    else
      var last := cands[|cands| - 1];
      Combinable(pool, cands[..|cands| - 1], size, maxSize) + (if size + pool[last].size <= maxSize then [last] else [])
  }

  /** A handle is combinable exactly when it is a candidate within the cap. */
  lemma {:induction false} CombinableExact(pool: seq<Cluster>, cands: seq<nat>, size: int, maxSize: int)
    requires HandlesIn(cands, |pool|)
    ensures forall h :: h in Combinable(pool, cands, size, maxSize) <==> h in cands && size + pool[h].size <= maxSize
  {
    if cands != [] {
      var n := |cands| - 1;
      CombinableExact(pool, cands[..n], size, maxSize);
      assert cands == cands[..n] + [cands[n]];
    }
  }

  /** One CombiningCluster(h, 0.0) per handle, in order. */
  function CombiningEntries(hs: seq<nat>): (r: seq<CombiningCluster>)
    ensures |r| == |hs|
  {
    if hs == [] then [] else CombiningEntries(hs[..|hs| - 1]) + [MakeCombining(Ref(hs[|hs| - 1]), 0.0)]
  }

  lemma {:induction false} CombiningEntriesAt(hs: seq<nat>)
    ensures forall k :: 0 <= k < |hs| ==> CombiningEntries(hs)[k] == MakeCombining(Ref(hs[k]), 0.0)
  {
    if hs != [] {
      CombiningEntriesAt(hs[..|hs| - 1]);
    }
  }

  /** The ids of the clusters at the given handles. */
  function IdsOf(pool: seq<Cluster>, hs: seq<nat>): (r: set<int>)
    requires HandlesIn(hs, |pool|)
  {
    if hs == [] then {} else IdsOf(pool, hs[..|hs| - 1]) + {pool[hs[|hs| - 1]].id}
  }

  lemma {:induction false} IdsOfExact(pool: seq<Cluster>, hs: seq<nat>)
    requires HandlesIn(hs, |pool|)
    ensures forall id :: id in IdsOf(pool, hs) <==> exists h :: h in hs && pool[h].id == id
  {
    if hs != [] {
      var n := |hs| - 1;
      IdsOfExact(pool, hs[..n]);
      assert hs == hs[..n] + [hs[n]];
    }
  }

  /** combineClusters(cands, maxSize): combine with each candidate within the cap and connect to it. */
  function CombineWith(pool: seq<Cluster>, b: Bookkeeping, cands: seq<nat>, size: int, maxSize: int): Bookkeeping
    requires HandlesIn(cands, |pool|)
  {
    var chosen := Combinable(pool, cands, size, maxSize);
    b.(combiningReactants := b.combiningReactants + CombiningEntries(chosen),
       reactionConnectivity := b.reactionConnectivity + IdsOf(pool, chosen))
  }

  /** One more candidate considered: it is added when it fits under the cap. */
  lemma CombineWithStep(pool: seq<Cluster>, b: Bookkeeping, cands: seq<nat>, j: nat, size: int, maxSize: int)
    requires HandlesIn(cands, |pool|) && j < |cands|
    ensures var h := cands[j];
            var prev := CombineWith(pool, b, cands[..j], size, maxSize);
            CombineWith(pool, b, cands[..j + 1], size, maxSize) ==
              if size + pool[h].size <= maxSize
              then prev.(combiningReactants := prev.combiningReactants + [MakeCombining(Ref(h), 0.0)],
                         reactionConnectivity := prev.reactionConnectivity + {pool[h].id})
              else prev
  {
    var h := cands[j];
    assert cands[..j + 1][..j] == cands[..j] && cands[..j + 1][j] == h;
    var c := Combinable(pool, cands[..j], size, maxSize);
    if size + pool[h].size <= maxSize {
      assert Combinable(pool, cands[..j + 1], size, maxSize) == c + [h];
      assert (c + [h])[..|c|] == c;
    } else {
      assert Combinable(pool, cands[..j + 1], size, maxSize) == c;
    }
  }

  /** The loop of combineClusters over the candidate list. */
  method CombineClusters(pool: seq<Cluster>, b: Bookkeeping, cands: seq<nat>, size: int, maxSize: int)
    returns (r: Bookkeeping)
    requires HandlesIn(cands, |pool|)
    ensures r == CombineWith(pool, b, cands, size, maxSize)
  {
    r := b;
    var j := 0;
    while j < |cands|
      invariant 0 <= j <= |cands|
      invariant r == CombineWith(pool, b, cands[..j], size, maxSize)
    {
      CombineWithStep(pool, b, cands, j, size, maxSize);
      var h := cands[j];
      if size + pool[h].size <= maxSize {
        r := r.(combiningReactants := r.combiningReactants + [MakeCombining(Ref(h), 0.0)],
                reactionConnectivity := r.reactionConnectivity + {pool[h].id});
      }
      j := j + 1;
    }
    assert cands[..j] == cands;
  }

  // ----- createReactionConnectivity -----

  /** The five properties the pass reads: three maximum sizes and two family counts. */
  datatype HeSettings = HeSettings(maxHe: int, maxHeV: int, maxHeI: int, numHeV: int, numHeI: int)

  /** The five lists the pass draws combination partners from hold handles of the pool. */
  predicate PartnerListsIn(lists: SpeciesLists, n: nat) {
    HandlesIn(lists.he, n) && HandlesIn(lists.v, n) && HandlesIn(lists.i, n)
    && HandlesIn(lists.heV, n) && HandlesIn(lists.heI, n)
  }

  /**
   * All the combination partners of a He cluster of size n, in the order
   * the pass adds them: He capped by maxHe, V by maxHeV, I by maxHeI, then
   * HeV (capped by maxHeV) only if there are HeV clusters and HeI (capped by
   * maxHeI) only if there are HeI clusters.
   */
  function HePartners(pool: seq<Cluster>, lists: SpeciesLists, s: HeSettings, n: int): (r: seq<nat>)
    requires PartnerListsIn(lists, |pool|)
    ensures HandlesIn(r, |pool|)
  {
    Combinable(pool, lists.he, n, s.maxHe)
      + Combinable(pool, lists.v, n, s.maxHeV)
      + Combinable(pool, lists.i, n, s.maxHeI)
      + (if s.numHeV > 0 then Combinable(pool, lists.heV, n, s.maxHeV) else [])
      + (if s.numHeI > 0 then Combinable(pool, lists.heI, n, s.maxHeI) else [])
  }

  /**
   * The bookkeeping createReactionConnectivity leaves on the He cluster at
   * `self`: connected to itself and to every partner, the split pairs
   * appended to the reacting pairs, one combining entry per partner
   * appended to the combining list; the dissociation and emission lists and
   * the effective subsets are left alone.
   */
  function HeReactionBook(pool: seq<Cluster>, single: map<Comp, nat>, lists: SpeciesLists,
                          s: HeSettings, self: nat): Bookkeeping
    requires self < |pool| && PartnerListsIn(lists, |pool|)
  {
    var c := pool[self];
    var partners := HePartners(pool, lists, s, c.size);
    c.book.(reactionConnectivity := c.book.reactionConnectivity + {c.id} + IdsOf(pool, partners),
            reactingPairs := c.book.reactingPairs + SplitPairs(single, c.size, c.size / 2),
            combiningReactants := c.book.combiningReactants + CombiningEntries(partners))
  }

  lemma CombiningEntriesAppend(a: seq<nat>, b: seq<nat>)
    ensures CombiningEntries(a + b) == CombiningEntries(a) + CombiningEntries(b)
  {
    CombiningEntriesAt(a + b);
    CombiningEntriesAt(a);
    CombiningEntriesAt(b);
  }

  lemma {:induction false} IdsOfAppend(pool: seq<Cluster>, a: seq<nat>, b: seq<nat>)
    requires HandlesIn(a, |pool|) && HandlesIn(b, |pool|)
    ensures IdsOf(pool, a + b) == IdsOf(pool, a) + IdsOf(pool, b)
    decreases |b|
  {
    if b == [] {
      assert a + b == a;
    } else {
      var n := |b| - 1;
      IdsOfAppend(pool, a, b[..n]);
      assert (a + b)[..|a + b| - 1] == a + b[..n];
    }
  }

  /** Combining with one more family appends that family's entries and ids to the partners so far. */
  lemma CombineWithMore(pool: seq<Cluster>, b: Bookkeeping, base: Bookkeeping, done: seq<nat>,
                        cands: seq<nat>, size: int, maxSize: int)
    requires HandlesIn(done, |pool|) && HandlesIn(cands, |pool|)
    requires b == base.(combiningReactants := base.combiningReactants + CombiningEntries(done),
                        reactionConnectivity := base.reactionConnectivity + IdsOf(pool, done))
    ensures var more := done + Combinable(pool, cands, size, maxSize);
            && HandlesIn(more, |pool|)
            && CombineWith(pool, b, cands, size, maxSize)
               == base.(combiningReactants := base.combiningReactants + CombiningEntries(more),
                        reactionConnectivity := base.reactionConnectivity + IdsOf(pool, more))
  {
    var c := Combinable(pool, cands, size, maxSize);
    CombiningEntriesAppend(done, c);
    IdsOfAppend(pool, done, c);
  }

  /**
   * The partners are exactly the clusters of the five lists within the
   * family caps, the mixed lists only when their family count is positive.
   */
  lemma HePartnersExact(pool: seq<Cluster>, lists: SpeciesLists, s: HeSettings, n: int)
    requires PartnerListsIn(lists, |pool|)
    ensures forall h :: h in HePartners(pool, lists, s, n) <==>
      || (h in lists.he && n + pool[h].size <= s.maxHe)
      || (h in lists.v && n + pool[h].size <= s.maxHeV)
      || (h in lists.i && n + pool[h].size <= s.maxHeI)
      || (s.numHeV > 0 && h in lists.heV && n + pool[h].size <= s.maxHeV)
      || (s.numHeI > 0 && h in lists.heI && n + pool[h].size <= s.maxHeI)
  {
    CombinableExact(pool, lists.he, n, s.maxHe);
    CombinableExact(pool, lists.v, n, s.maxHeV);
    CombinableExact(pool, lists.i, n, s.maxHeI);
    CombinableExact(pool, lists.heV, n, s.maxHeV);
    CombinableExact(pool, lists.heI, n, s.maxHeI);
  }

  /** The settings as the pass reads them: std::stoi of five counters of the property table. */
  function SettingsOf(net: ReactionNetwork): HeSettings
    reads net
  {
    HeSettings(net.Count(MaxClusterSize(He)), net.Count(MaxClusterSize(HeV)), net.Count(MaxClusterSize(HeI)),
               net.Count(NumClusters(HeV)), net.Count(NumClusters(HeI)))
  }

  /**
   * The five combineClusters calls of the pass, in order: together they
   * append one combining entry and one connection per partner.
   */
  method CombineAll(pool: seq<Cluster>, b: Bookkeeping, lists: SpeciesLists, s: HeSettings, n: int)
    returns (r: Bookkeeping)
    requires PartnerListsIn(lists, |pool|)
    ensures var partners := HePartners(pool, lists, s, n);
            r == b.(combiningReactants := b.combiningReactants + CombiningEntries(partners),
                    reactionConnectivity := b.reactionConnectivity + IdsOf(pool, partners))
  {
    ghost var heP := Combinable(pool, lists.he, n, s.maxHe);
    ghost var vP := Combinable(pool, lists.v, n, s.maxHeV);
    ghost var iP := Combinable(pool, lists.i, n, s.maxHeI);
    ghost var heVP := if s.numHeV > 0 then Combinable(pool, lists.heV, n, s.maxHeV) else [];
    ghost var heIP := if s.numHeI > 0 then Combinable(pool, lists.heI, n, s.maxHeI) else [];
    assert HePartners(pool, lists, s, n) == heP + vP + iP + heVP + heIP;
    ghost var done: seq<nat> := [];
    r := b;
    assert r == b.(combiningReactants := b.combiningReactants + CombiningEntries(done),
                   reactionConnectivity := b.reactionConnectivity + IdsOf(pool, done));
    CombineWithMore(pool, r, b, done, lists.he, n, s.maxHe);
    done := heP;
    r := CombineClusters(pool, r, lists.he, n, s.maxHe);
    CombineWithMore(pool, r, b, done, lists.v, n, s.maxHeV);
    done := done + vP;
    r := CombineClusters(pool, r, lists.v, n, s.maxHeV);
    CombineWithMore(pool, r, b, done, lists.i, n, s.maxHeI);
    done := done + iP;
    r := CombineClusters(pool, r, lists.i, n, s.maxHeI);
    if s.numHeV > 0 {
      CombineWithMore(pool, r, b, done, lists.heV, n, s.maxHeV);
      r := CombineClusters(pool, r, lists.heV, n, s.maxHeV);
    } else {
      assert done + heVP == done;
    }
    done := done + heVP;
    if s.numHeI > 0 {
      CombineWithMore(pool, r, b, done, lists.heI, n, s.maxHeI);
      r := CombineClusters(pool, r, lists.heI, n, s.maxHeI);
    } else {
      assert done + heIP == done;
    }
    done := done + heIP;
  }

  /** Builds the new bookkeeping of the cluster at `self` step by step, as the pass does. */
  method BuildReactionBook(net: ReactionNetwork, self: nat) returns (b: Bookkeeping)
    requires net.Valid() && self < |net.pool|
    ensures PartnerListsIn(net.clusterTypeMap, |net.pool|)
    ensures b == HeReactionBook(net.pool, net.singleSpeciesMap, net.clusterTypeMap, SettingsOf(net), self)
  {
    var lists := net.clusterTypeMap;
    assert HandlesIn(lists.Of(He), |net.pool|) && HandlesIn(lists.Of(V), |net.pool|)
      && HandlesIn(lists.Of(I), |net.pool|) && HandlesIn(lists.Of(HeV), |net.pool|)
      && HandlesIn(lists.Of(HeI), |net.pool|);
    var c := net.pool[self];
    var splits := RecordSplits(net, c.size);
    b := SetReactionConnectivity(c.book, c.id);
    b := b.(reactingPairs := b.reactingPairs + splits);
    b := CombineAll(net.pool, b, lists, SettingsOf(net), c.size);
  }

  /**
   * createReactionConnectivity of the He cluster at `self`: its bookkeeping
   * becomes HeReactionBook of the network; nothing else in the network changes.
   */
  method CreateReactionConnectivity(net: ReactionNetwork, self: nat)
    requires net.Valid() && self < |net.pool| && net.pool[self].kind == He
    modifies net`pool
    ensures net.Valid()
    ensures PartnerListsIn(net.clusterTypeMap, |old(net.pool)|)
    ensures net.pool == old(net.pool)[self := old(net.pool)[self].(book :=
      HeReactionBook(old(net.pool), net.singleSpeciesMap, net.clusterTypeMap, SettingsOf(net), self))]
  {
    var b := BuildReactionBook(net, self);
    net.SetBookkeeping(self, b);
  }

  // ----- createDissociationConnectivity -----

  /** comp[He] -= 1, then getCompound on the result: the mixed cluster with one helium less, or null. */
  function OneHeLess(mixed: map<Comp, nat>, c: Comp): ClusterRef {
    if Comp(c.he - 1, c.v, c.i) in mixed then Ref(mixed[Comp(c.he - 1, c.v, c.i)]) else NullRef
  }

  /**
   * The pairs dissociateCluster records for the parents `ps`: each parent
   * with the mixed cluster one helium smaller (null when there is none).
   */
  function MixedDissociations(pool: seq<Cluster>, mixed: map<Comp, nat>, ps: seq<nat>): (r: seq<ClusterPair>)
    requires HandlesIn(ps, |pool|)
    ensures |r| == |ps|
  {
    if ps == [] then []
    else
      var last := ps[|ps| - 1];
      MixedDissociations(pool, mixed, ps[..|ps| - 1]) + [MakePair(Ref(last), OneHeLess(mixed, pool[last].comp), 0.0)]
  }

  lemma {:induction false} MixedDissociationsAt(pool: seq<Cluster>, mixed: map<Comp, nat>, ps: seq<nat>)
    requires HandlesIn(ps, |pool|)
    ensures forall k :: 0 <= k < |ps| ==>
      MixedDissociations(pool, mixed, ps)[k] == MakePair(Ref(ps[k]), OneHeLess(mixed, pool[ps[k]].comp), 0.0)
  {
    if ps != [] {
      MixedDissociationsAt(pool, mixed, ps[..|ps| - 1]);
    }
  }

  /** The pairs for two lists of parents, one after the other, are the pairs of each list concatenated. */
  lemma {:induction false} MixedDissociationsAppend(pool: seq<Cluster>, mixed: map<Comp, nat>, a: seq<nat>, b: seq<nat>)
    requires HandlesIn(a, |pool|) && HandlesIn(b, |pool|)
    ensures HandlesIn(a + b, |pool|)
    ensures MixedDissociations(pool, mixed, a + b)
         == MixedDissociations(pool, mixed, a) + MixedDissociations(pool, mixed, b)
  {
    if b == [] {
      assert a + b == a;
    } else {
      var init := b[..|b| - 1];
      assert (a + b)[..|a + b| - 1] == a + init;
      MixedDissociationsAppend(pool, mixed, a, init);
    }
  }

  /**
   * Every recorded dissociation conserves matter: the parent is the emitted
   * cluster plus one helium atom, whenever the emitted cluster exists.
   */
  lemma MixedDissociationsConserve(pool: seq<Cluster>, mixed: map<Comp, nat>, ps: seq<nat>, k: nat)
    requires HandlesIn(ps, |pool|) && IndexValid(mixed, pool) && k < |ps|
    ensures var p := MixedDissociations(pool, mixed, ps)[k];
            && p.first == Ref(ps[k])
            && (p.second.Ref? ==>
                  (p.second.handle < |pool| &&
                   Conserves([pool[ps[k]].comp], [pool[p.second.handle].comp, Comp(1, 0, 0)])))
  {
    MixedDissociationsAt(pool, mixed, ps);
  }

  /** dissociateCluster for each parent: append the pairs and connect the parents. */
  function DissociateAll(pool: seq<Cluster>, mixed: map<Comp, nat>, b: Bookkeeping, ps: seq<nat>): Bookkeeping
    requires HandlesIn(ps, |pool|)
  {
    b.(dissociatingPairs := b.dissociatingPairs + MixedDissociations(pool, mixed, ps),
       dissociationConnectivity := b.dissociationConnectivity + IdsOf(pool, ps))
  }

  /** The loop over one mixed family: dissociateCluster(parent, one-He-less lookup) for every parent. */
  method DissociateFamily(pool: seq<Cluster>, mixed: map<Comp, nat>, b: Bookkeeping, ps: seq<nat>)
    returns (r: Bookkeeping)
    requires HandlesIn(ps, |pool|)
    ensures r == DissociateAll(pool, mixed, b, ps)
  {
    r := b;
    var j := 0;
    while j < |ps|
      invariant 0 <= j <= |ps|
      invariant r == DissociateAll(pool, mixed, b, ps[..j])
    {
      assert ps[..j + 1][..j] == ps[..j];
      var parent := ps[j];
      var smaller := OneHeLess(mixed, pool[parent].comp);
      r := r.(dissociatingPairs := r.dissociatingPairs + [MakePair(Ref(parent), smaller, 0.0)],
              dissociationConnectivity := r.dissociationConnectivity + {pool[parent].id});
      j := j + 1;
    }
    assert ps[..j] == ps;
  }

  /**
   * The bookkeeping createDissociationConnectivity leaves on a He cluster of
   * size n, from the bookkeeping `afterBase` the single-species pass left:
   * only He_1 also records the dissociation of every HeV and every HeI cluster.
   */
  function HeDissociationBook(pool: seq<Cluster>, mixed: map<Comp, nat>, lists: SpeciesLists,
                              afterBase: Bookkeeping, n: int): Bookkeeping
    requires HandlesIn(lists.heV, |pool|) && HandlesIn(lists.heI, |pool|)
  {
    if n == 1 then DissociateAll(pool, mixed, DissociateAll(pool, mixed, afterBase, lists.heV), lists.heI)
    else afterBase
  }

  /**
   * What the pass records for He_1: after the pairs of the base pass, one
   * pair per HeV parent then one per HeI parent, each parent paired with
   * itself minus one helium; nothing for a larger He cluster.
   */
  lemma HeDissociationBookShape(pool: seq<Cluster>, mixed: map<Comp, nat>, lists: SpeciesLists,
                                afterBase: Bookkeeping, n: int)
    requires HandlesIn(lists.heV, |pool|) && HandlesIn(lists.heI, |pool|)
    ensures n != 1 ==> HeDissociationBook(pool, mixed, lists, afterBase, n) == afterBase
    ensures n == 1 ==>
      var b := HeDissociationBook(pool, mixed, lists, afterBase, n);
      && b.dissociatingPairs == afterBase.dissociatingPairs + MixedDissociations(pool, mixed, lists.heV + lists.heI)
      && b.dissociationConnectivity == afterBase.dissociationConnectivity + IdsOf(pool, lists.heV + lists.heI)
      && b.reactingPairs == afterBase.reactingPairs && b.combiningReactants == afterBase.combiningReactants
      && b.emissionPairs == afterBase.emissionPairs && b.reactionConnectivity == afterBase.reactionConnectivity
  {
    if n == 1 {
      MixedDissociationsAppend(pool, mixed, lists.heV, lists.heI);
      IdsOfAppend(pool, lists.heV, lists.heI);
    }
  }

  /**
   * createDissociationConnectivity of the He cluster at `self`, given the
   * bookkeeping the single-species base pass produced; the dissociation of
   * HeI clusters is attributed to the HeI parent.
   */
  method CreateDissociationConnectivity(net: ReactionNetwork, self: nat, afterBase: Bookkeeping)
    requires net.Valid() && self < |net.pool| && net.pool[self].kind == He
    modifies net`pool
    ensures net.Valid()
    ensures HandlesIn(net.clusterTypeMap.heV, |old(net.pool)|) && HandlesIn(net.clusterTypeMap.heI, |old(net.pool)|)
    ensures net.pool == old(net.pool)[self := old(net.pool)[self].(book :=
      HeDissociationBook(old(net.pool), net.mixedSpeciesMap, net.clusterTypeMap, afterBase, old(net.pool)[self].size))]
  {
    var heV := net.GetAll("HeV");
    var heI := net.GetAll("HeI");
    assert heV == net.clusterTypeMap.heV && heI == net.clusterTypeMap.heI;
    var b := afterBase;
    if net.pool[self].size == 1 {
      b := DissociateFamily(net.pool, net.mixedSpeciesMap, b, heV);
      b := DissociateFamily(net.pool, net.mixedSpeciesMap, b, heI);
    }
    net.SetBookkeeping(self, b);
  }

  // ----- The HeI loop as written -----

  /**
   * The pairs the HeI loop records as written for i = 0..upTo-1: the parent
   * passed is the i-th HeV cluster, the emitted one is looked up from the
   * i-th HeI cluster.
   */
  function HeIDissociationsAsWritten(pool: seq<Cluster>, mixed: map<Comp, nat>, heV: seq<nat>, heI: seq<nat>,
                                     upTo: nat): (r: seq<ClusterPair>)
    requires HandlesIn(heV, |pool|) && HandlesIn(heI, |pool|) && upTo <= |heV| && upTo <= |heI|
    ensures |r| == upTo
  {
    if upTo == 0 then []
    else HeIDissociationsAsWritten(pool, mixed, heV, heI, upTo - 1)
         + [MakePair(Ref(heV[upTo - 1]), OneHeLess(mixed, pool[heI[upTo - 1]].comp), 0.0)]
  }

  /**
   * The HeI loop as written: the pair names allHeVReactants.at(i) as the
   * parent, and at() throws std::out_of_range once i reaches the number of
   * HeV clusters, after the pairs for the earlier i were recorded.
   */
  method HeIDissociationAsWritten(pool: seq<Cluster>, mixed: map<Comp, nat>, b: Bookkeeping,
                                  heV: seq<nat>, heI: seq<nat>) returns (r: Bookkeeping, outOfRange: bool)
    requires HandlesIn(heV, |pool|) && HandlesIn(heI, |pool|)
    ensures outOfRange <==> |heI| > |heV|
    ensures var m := if |heI| <= |heV| then |heI| else |heV|;
            r == b.(dissociatingPairs := b.dissociatingPairs + HeIDissociationsAsWritten(pool, mixed, heV, heI, m),
                    dissociationConnectivity := b.dissociationConnectivity + IdsOf(pool, heV[..m]))
  {
    r := b;
    var j := 0;
    while j < |heI|
      invariant 0 <= j <= |heI| && j <= |heV|
      invariant r == b.(dissociatingPairs := b.dissociatingPairs + HeIDissociationsAsWritten(pool, mixed, heV, heI, j),
                        dissociationConnectivity := b.dissociationConnectivity + IdsOf(pool, heV[..j]))
    {
      if j >= |heV| {
        outOfRange := true;
        return;
      }
      assert heV[..j + 1][..j] == heV[..j];
      var smaller := OneHeLess(mixed, pool[heI[j]].comp);
      r := r.(dissociatingPairs := r.dissociatingPairs + [MakePair(Ref(heV[j]), smaller, 0.0)],
              dissociationConnectivity := r.dissociationConnectivity + {pool[heV[j]].id});
      j := j + 1;
    }
    outOfRange := false;
  }

  /**
   * A network that shows the defect: HeV(1,1,0) at handle 0, HeI(2,0,1) at
   * handle 1 and HeI(1,0,1) at handle 2. The HeI loop records HeV(1,1,0) as
   * the parent of HeI(1,0,1) + He_1, which does not conserve matter, where
   * the corrected loop records HeI(2,0,1), which does.
   */
  lemma HeIDissociationMisattributed()
    ensures var pool := [NewMixed(HeV, Comp(1, 1, 0)), NewMixed(HeI, Comp(2, 0, 1)), NewMixed(HeI, Comp(1, 0, 1))];
            var mixed := map[Comp(1, 1, 0) := 0, Comp(2, 0, 1) := 1, Comp(1, 0, 1) := 2];
            var asWritten := HeIDissociationsAsWritten(pool, mixed, [0], [1, 2], 1)[0];
            var corrected := MixedDissociations(pool, mixed, [1, 2])[0];
            && asWritten == MakePair(Ref(0), Ref(2), 0.0)
            && !Conserves([pool[0].comp], [pool[2].comp, Comp(1, 0, 0)])
            && corrected == MakePair(Ref(1), Ref(2), 0.0)
            && Conserves([pool[1].comp], [pool[2].comp, Comp(1, 0, 0)])
  {
    var pool := [NewMixed(HeV, Comp(1, 1, 0)), NewMixed(HeI, Comp(2, 0, 1)), NewMixed(HeI, Comp(1, 0, 1))];
    var mixed := map[Comp(1, 1, 0) := 0, Comp(2, 0, 1) := 1, Comp(1, 0, 1) := 2];
    MixedDissociationsAt(pool, mixed, [1, 2]);
    assert Comp(1, 0, 1) in mixed;
    var products := [Comp(1, 0, 1), Comp(1, 0, 0)];
    assert products[..1] == [Comp(1, 0, 1)] && products[..1][..0] == [];
    assert HeCount(products) == 2;
    assert [Comp(1, 1, 0)][..0] == [] && HeCount([Comp(1, 1, 0)]) == 1;
  }

  /** A bare mixed cluster of the given species and composition, for the example above. */
  function NewMixed(k: Species, c: Comp): (r: Cluster)
    ensures r.kind == k && r.comp == c
  {
    Cluster(k, c, "", TotalSize(c), 0, 0, 0, EmptyBookkeeping)
  }
}
