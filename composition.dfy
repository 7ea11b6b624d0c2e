/**
 * Cluster species, compositions and the composition algebra of the
 * reaction rules (PSICluster.h, HeVCluster.h, HeInterstitialCluster.h).
 */
module Composition {

  /** The species tag returned by a cluster's getType(). */
  datatype Species = He | V | I | HeV | HeI | Super

  /** The type names the network uses as keys of its per-species lists. */
  function TypeName(k: Species): string {
    match k
    case He => "He"
    case V => "V"
    case I => "I"
    case HeV => "HeV"
    case HeI => "HeI"
    case Super => "PSISuper"
  }

  /** The species whose type name is `name`, if any. */
  function SpeciesNamed(name: string): (r: Species)
    requires IsTypeName(name)
    ensures TypeName(r) == name
  {
    if name == "He" then He
    else if name == "V" then V
    else if name == "I" then I
    else if name == "HeV" then HeV
    else if name == "HeI" then HeI
    else Super
  }

  predicate IsTypeName(name: string) {
    name == "He" || name == "V" || name == "I" || name == "HeV" || name == "HeI" || name == "PSISuper"
  }

  /** Distinct species have distinct type names, so a list keyed by name is keyed by species. */
  lemma TypeNameInjective(a: Species, b: Species)
    ensures TypeName(a) == TypeName(b) ==> a == b
  {
  }

  /**
   * The (He, V, I) composition of a cluster. The source holds it in a
   * std::map<std::string, int> with the three keys "He", "I", "V".
   */
  datatype Comp = Comp(he: int, v: int, i: int)

  /** Mixed means that more than one of He, V and I is positive. */
  predicate IsMixed(c: Comp) {
    (c.he > 0 && c.v > 0) || (c.he > 0 && c.i > 0) || (c.v > 0 && c.i > 0)
  }

  /** The size the network records for a family's maximum: He + V + I. */
  function TotalSize(c: Comp): int {
    c.he + c.v + c.i
  }

  /** The composition of the single-species cluster of a type name and size. */
  function SingleComp(typeName: string, size: int): (c: Comp)
    requires typeName == "He" || typeName == "V" || typeName == "I"
    ensures TotalSize(c) == size && !(size > 0 && IsMixed(c))
  {
    if typeName == "He" then Comp(size, 0, 0)
    else if typeName == "V" then Comp(0, size, 0)
    else Comp(0, 0, size)
  }

  /** A requested cluster size of zero or less becomes 1. */
  function ClampSize(n: int): (r: int)
    ensures r >= 1
    ensures n >= 1 ==> r == n
    ensures n < 1 ==> r == 1
  {
    if n >= 1 then n else 1
  }

  /**
   * The order in which a std::map keyed by compositions enumerates them: the
   * compositions are std::maps themselves, compared entry by entry in key
   * order "He" < "I" < "V", so lexicographically on (He, I, V).
   */
  predicate CompLess(a: Comp, b: Comp) {
    a.he < b.he || (a.he == b.he && (a.i < b.i || (a.i == b.i && a.v < b.v)))
  }

  lemma CompLessTotal(a: Comp, b: Comp)
    ensures a == b || CompLess(a, b) || CompLess(b, a)
    ensures !(CompLess(a, b) && CompLess(b, a))
  {
  }

  lemma CompLessTransitive(a: Comp, b: Comp, c: Comp)
    requires CompLess(a, b) && CompLess(b, c)
    ensures CompLess(a, c)
  {
  }

  /** Every non-empty finite set of compositions has a least element. */
  lemma {:induction false} MinimumExists(s: set<Comp>)
    requires s != {}
    ensures exists m :: m in s && forall c :: c in s && c != m ==> CompLess(m, c)
  {
    var x :| x in s;
    if s == {x} {
      assert forall c :: c in s && c != x ==> CompLess(x, c);
    } else {
      MinimumExists(s - {x});
      var m :| m in s - {x} && forall c :: c in s - {x} && c != m ==> CompLess(m, c);
      if CompLess(x, m) {
        forall c | c in s && c != x
          ensures CompLess(x, c)
        {
          if c != m { CompLessTransitive(x, m, c); }
        }
      } else {
        CompLessTotal(x, m);
        assert forall c :: c in s && c != m ==> CompLess(m, c);
      }
    }
  }

  /** Sum of He over a list of compositions. */
  function HeCount(cs: seq<Comp>): int {
    if cs == [] then 0 else HeCount(cs[..|cs| - 1]) + cs[|cs| - 1].he
  }

  /**
   * The point-defect balance of a list of compositions: vacancies count +1
   * and interstitials -1, since an interstitial fills a vacancy.
   */
  function DefectBalance(cs: seq<Comp>): int {
    if cs == [] then 0 else DefectBalance(cs[..|cs| - 1]) + cs[|cs| - 1].v - cs[|cs| - 1].i
  }

  /** A reaction conserves helium and the vacancy-interstitial balance. */
  predicate Conserves(reactants: seq<Comp>, products: seq<Comp>) {
    HeCount(reactants) == HeCount(products) && DefectBalance(reactants) == DefectBalance(products)
  }

  /** The counts of a one-element list are those of its element. */
  lemma CountsOfOne(x: Comp)
    ensures HeCount([x]) == x.he && DefectBalance([x]) == x.v - x.i
  {
    assert [x][..0] == [];
  }

  /** The counts of a two-element list add up those of its elements. */
  lemma CountsOfPair(x: Comp, y: Comp)
    ensures HeCount([x, y]) == x.he + y.he && DefectBalance([x, y]) == x.v - x.i + y.v - y.i
  {
    assert [x, y][..1] == [x];
    CountsOfOne(x);
  }

  /** The single-species composition of `size` defects of species `k` (He, V or I). */
  function SpeciesComp(k: Species, size: int): Comp
    requires k == He || k == V || k == I
  {
    SingleComp(TypeName(k), size)
  }

  /**
   * I_a + V_b annihilation (fillVWithI): the product is I_(a-b) if a > b,
   * V_(b-a) if a < b and nothing if a = b. `self` is the species of the cluster
   * running the rule (I or V); `selfSize` its size and `otherSize` the size
   * of the partner of the other species.
   */
  function FillVWithI(self: Species, selfSize: nat, otherSize: nat): (r: seq<Comp>)
    requires self == I || self == V
    ensures |r| <= 1
    ensures var a := if self == I then selfSize else otherSize;
            var b := if self == I then otherSize else selfSize;
            && (r == [] <==> a == b)
            && Conserves([Comp(0, 0, a), Comp(0, b, 0)], r)
            && (a > b ==> r == [Comp(0, 0, a - b)])
            && (a < b ==> r == [Comp(0, b - a, 0)])
  {
    var a := if self == I then selfSize else otherSize;
    var b := if self == I then otherSize else selfSize;
    if a > b then [Comp(0, 0, a - b)]
    else if a < b then [Comp(0, b - a, 0)]
    else []
  }

  /** I_a + V_b = V_b + I_a: the rule gives the same product from either side. */
  lemma FillVWithISymmetric(a: nat, b: nat)
    ensures FillVWithI(I, a, b) == FillVWithI(V, b, a)
  {
  }

  /**
   * Partial replacement (A_x)(B_y) + C_z --> (A_x)[B_(y-z)]: for a HeV
   * cluster the replaced component is V and the partner is I_z; for a HeI
   * cluster the replaced component is I and the partner is V_z.
   */
  function ReplaceInCompound(compound: Comp, replaced: Species, z: int): (r: Comp)
    requires replaced == V || replaced == I
    ensures r.he == compound.he
    ensures replaced == V ==> r.v == compound.v - z && r.i == compound.i
    ensures replaced == I ==> r.i == compound.i - z && r.v == compound.v
    ensures replaced == V ==> Conserves([compound, Comp(0, 0, z)], [r])
    ensures replaced == I ==> Conserves([compound, Comp(0, z, 0)], [r])
  {
    if replaced == V then compound.(v := compound.v - z) else compound.(i := compound.i - z)
  }
}
