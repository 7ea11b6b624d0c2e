/**
 * The helium-vacancy cluster (HeVCluster.h): a cluster of He_a V_b, always
 * reporting itself mixed, with its partial-replacement and trap-mutation
 * product rules.
 */
module HeVClusterModel {
  import opened Wrappers
  import opened Composition
  import opened Reactions
  import opened Network

  /** The two counts HeVCluster keeps beside the base cluster. */
  datatype HeVCounts = HeVCounts(numHe: int, numV: int)

  /** The private default constructor leaves both counts at zero. */
  const DefaultHeV := HeVCounts(0, 0)

  /** The composition of the counts: helium and vacancies only. */
  function HeVComp(n: HeVCounts): (c: Comp)
    ensures c.i == 0 && c.he == n.numHe && c.v == n.numV
  {
    Comp(n.numHe, n.numV, 0)
  }

  /** HeVCluster(numHe, numV): a cluster of type HeV composed of He and V only, with empty bookkeeping. */
  function NewHeVCluster(numHe: int, numV: int): (c: Cluster)
    ensures c.kind == HeV && c.comp == HeVComp(HeVCounts(numHe, numV)) && c.book == EmptyBookkeeping
  {
    Cluster(HeV, Comp(numHe, numV, 0), "", numHe + numV, 0, 0, 0, EmptyBookkeeping)
  }

  /**
   * isMixed() answers true unconditionally. The answer agrees with the
   * composition, and the network files the cluster under the HeV family,
   * exactly when both counts are positive; the default counts are not mixed.
   */
  lemma HeVMixedAgrees(numHe: int, numV: int)
    ensures IsMixed(NewHeVCluster(numHe, numV).comp) <==> numHe > 0 && numV > 0
    ensures numHe > 0 && numV > 0 ==> AddFamily(NewHeVCluster(numHe, numV).comp) == HeV
    ensures !IsMixed(HeVComp(DefaultHeV))
  {
  }

  /**
   * replaceInCompound for a HeV cluster: (He_x)(V_y) + I_z --> (He_x)[V_(y-z)].
   * The product keeps the helium and conserves the defect balance; it is
   * again a HeV cluster while z < y and the bare He_x cluster when z = y.
   */
  function ReplaceVacancies(n: HeVCounts, z: int): (r: Comp)
    ensures Conserves([HeVComp(n), Comp(0, 0, z)], [r])
    ensures n.numHe > 0 && z < n.numV ==> IsMixed(r) && AddFamily(r) == HeV
    ensures n.numHe > 0 && z == n.numV ==> !IsMixed(r) && AddFamily(r) == He && TotalSize(r) == n.numHe
  {
    CountsOfPair(HeVComp(n), Comp(0, 0, z));
    CountsOfOne(ReplaceInCompound(HeVComp(n), V, z));
    ReplaceInCompound(HeVComp(n), V, z)
  }

  /** The two products of a trap mutation: the grown bubble and the interstitial it pushes out. */
  datatype TrapProducts = TrapProducts(bubble: Comp, interstitial: Comp)

  /**
   * Trap mutation: (He_a)(V_b) + He_c --> [He_(a+c)][V_(b+1)] + I. It is
   * the reaction of He_c with the bubble only when the plain product
   * [He_(a+c)](V_b) is not in the network (`mixed`); otherwise there is none.
   */
  function TrapMutation(mixed: map<Comp, nat>, n: HeVCounts, c: int): (r: Option<TrapProducts>)
    ensures r.Some? <==> Comp(n.numHe + c, n.numV, 0) !in mixed
    ensures r.Some? ==> r.value.interstitial == Comp(0, 0, 1)
    ensures r.Some? ==> r.value.bubble.i == 0 && r.value.bubble.v == n.numV + 1
  {
    if Comp(n.numHe + c, n.numV, 0) in mixed then None
    else Some(TrapProducts(Comp(n.numHe + c, n.numV + 1, 0), Comp(0, 0, 1)))
  }

  /**
   * A trap mutation conserves helium and the vacancy-interstitial balance:
   * the extra vacancy is paid for by the emitted interstitial.
   */
  lemma TrapMutationConserves(mixed: map<Comp, nat>, n: HeVCounts, c: int)
    requires TrapMutation(mixed, n, c).Some?
    ensures var p := TrapMutation(mixed, n, c).value;
            Conserves([HeVComp(n), Comp(c, 0, 0)], [p.bubble, p.interstitial])
  {
    var p := TrapMutation(mixed, n, c).value;
    CountsOfPair(HeVComp(n), Comp(c, 0, 0));
    CountsOfPair(p.bubble, p.interstitial);
  }

  /**
   * For a bubble with helium and vacancies and a positive He_c, exactly one
   * of the two reactions applies: the plain product when it exists, the trap
   * mutation otherwise; the mutated bubble is again filed as HeV.
   */
  lemma TrapMutationExclusive(mixed: map<Comp, nat>, n: HeVCounts, c: int)
    requires n.numHe > 0 && n.numV > 0 && c > 0
    ensures TrapMutation(mixed, n, c).None? <==> Comp(n.numHe + c, n.numV, 0) in mixed
    ensures TrapMutation(mixed, n, c).Some? ==>
              IsMixed(TrapMutation(mixed, n, c).value.bubble)
              && AddFamily(TrapMutation(mixed, n, c).value.bubble) == HeV
  {
  }
}
