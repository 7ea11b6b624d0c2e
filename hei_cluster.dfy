/**
 * The helium-interstitial cluster (HeInterstitialCluster.h): a cluster of
 * He_a I_b, always reporting itself mixed, with its partial-replacement rule.
 */
module HeIClusterModel {
  import opened Composition
  import opened Reactions
  import opened Network

  /** The two counts HeInterstitialCluster keeps beside the base cluster. */
  datatype HeICounts = HeICounts(numHe: int, numI: int)

  /** The private default constructor leaves both counts at zero. */
  const DefaultHeI := HeICounts(0, 0)

  /** The composition of the counts: helium and interstitials only. */
  function HeIComp(n: HeICounts): (c: Comp)
    ensures c.v == 0 && c.he == n.numHe && c.i == n.numI
  {
    Comp(n.numHe, 0, n.numI)
  }

  /** HeInterstitialCluster(numHe, numI): a cluster of type HeI composed of He and I only, with empty bookkeeping. */
  function NewHeICluster(numHe: int, numI: int): (c: Cluster)
    ensures c.kind == HeI && c.comp == HeIComp(HeICounts(numHe, numI)) && c.book == EmptyBookkeeping
  {
    Cluster(HeI, Comp(numHe, 0, numI), "", numHe + numI, 0, 0, 0, EmptyBookkeeping)
  }

  /**
   * isMixed() answers true unconditionally. The answer agrees with the
   * composition, and the network files the cluster under the HeI family,
   * exactly when both counts are positive; the default counts are not mixed.
   */
  lemma HeIMixedAgrees(numHe: int, numI: int)
    ensures IsMixed(NewHeICluster(numHe, numI).comp) <==> numHe > 0 && numI > 0
    ensures numHe > 0 && numI > 0 ==> AddFamily(NewHeICluster(numHe, numI).comp) == HeI
    ensures !IsMixed(HeIComp(DefaultHeI))
  {
  }

  /** The constructed HeI(4, 2) holds He = 4, V = 0 and I = 2. */
  lemma HeIFourTwo()
    ensures NewHeICluster(4, 2).comp == Comp(4, 0, 2)
  {
  }

  /**
   * replaceInCompound for a HeI cluster: (He_x)(I_y) + V_z --> (He_x)[I_(y-z)].
   * The product keeps the helium and conserves the defect balance; it is
   * again a HeI cluster while z < y and the bare He_x cluster when z = y.
   */
  function ReplaceInterstitials(n: HeICounts, z: int): (r: Comp)
    ensures Conserves([HeIComp(n), Comp(0, z, 0)], [r])
    ensures n.numHe > 0 && z < n.numI ==> IsMixed(r) && AddFamily(r) == HeI
    ensures n.numHe > 0 && z == n.numI ==> !IsMixed(r) && AddFamily(r) == He && TotalSize(r) == n.numHe
  {
    CountsOfPair(HeIComp(n), Comp(0, z, 0));
    CountsOfOne(ReplaceInCompound(HeIComp(n), I, z));
    ReplaceInCompound(HeIComp(n), I, z)
  }
}
