/**
 * The PSI cluster reaction network registry
 * (PSIClusterReactionNetwork.cpp): clusters indexed by composition in three
 * maps, listed in insertion order overall and per species, numbered with
 * dense 1-based ids, and counted in a string property table.
 *
 * The network owns every cluster by value in `pool`; a cluster's handle is
 * its position there and never changes, while its id is reassigned by
 * ReinitializeNetwork. The lists and maps hold handles.
 */
module Network {
  import opened Wrappers
  import opened Decimal
  import opened Composition
  import opened Reactions

  /** One cluster as the network holds it. */
  datatype Cluster = Cluster(
    kind: Species,
    comp: Comp,
    name: string,
    size: int,
    id: int,
    heMomentumId: int,
    vMomentumId: int,
    book: Bookkeeping)

  /** The two exceptions the registry throws. */
  datatype NetworkError = DuplicateReactant(comp: Comp) | DuplicateSuperReactant(comp: Comp)

  // ----- The property table -----

  /**
   * A key of the property table. The thirteen keys the network maintains
   * itself have constructors of their own; any other key is Other(name).
   * NumClusters(T) stands for "numTClusters" and MaxClusterSize(T) for
   * "maxTClusterSize" (super clusters have a count but no maximum size).
   */
  datatype PropKey =
    | ReactionsEnabled
    | DissociationsEnabled
    | NumClusters(family: Species)
    | MaxClusterSize(family: Species)
    | Other(name: string)

  /** The keys that can occur in a table: no maximum size for super clusters, no reserved name under Other. */
  predicate IsTableKey(k: PropKey) {
    !(k.MaxClusterSize? && k.family == Super) && !(k.Other? && IsReservedKey(k.name))
  }

  /** The keys the network keeps numeric. */
  predicate IsCounter(k: PropKey) {
    k.NumClusters? || (k.MaxClusterSize? && k.family != Super)
  }

  /** The thirteen names setProperty refuses to overwrite: the counters and the two toggles. */
  predicate IsReservedKey(name: string) {
    || name == "reactionsEnabled" || name == "dissociationsEnabled"
    || name == "numHeClusters" || name == "numVClusters" || name == "numIClusters"
    || name == "numHeVClusters" || name == "numHeIClusters" || name == "numSuperClusters"
    || name == "maxHeClusterSize" || name == "maxVClusterSize" || name == "maxIClusterSize"
    || name == "maxHeVClusterSize" || name == "maxHeIClusterSize"
  }

  /** The string under which the source stores a key. */
  function KeyName(k: PropKey): string
    requires !(k.MaxClusterSize? && k.family == Super)
  {
    match k
    case ReactionsEnabled => "reactionsEnabled"
    case DissociationsEnabled => "dissociationsEnabled"
    case NumClusters(He) => "numHeClusters"
    case NumClusters(V) => "numVClusters"
    case NumClusters(I) => "numIClusters"
    case NumClusters(HeV) => "numHeVClusters"
    case NumClusters(HeI) => "numHeIClusters"
    case NumClusters(Super) => "numSuperClusters"
    case MaxClusterSize(He) => "maxHeClusterSize"
    case MaxClusterSize(V) => "maxVClusterSize"
    case MaxClusterSize(I) => "maxIClusterSize"
    case MaxClusterSize(HeV) => "maxHeVClusterSize"
    case MaxClusterSize(HeI) => "maxHeIClusterSize"
    case Other(name) => name
  }

  /** The key a stored name stands for: one of the thirteen reserved names, or any other name. */
  function KeyOfName(name: string): PropKey {
    if name == "reactionsEnabled" then ReactionsEnabled
    else if name == "dissociationsEnabled" then DissociationsEnabled
    else if name == "numHeClusters" then NumClusters(He)
    else if name == "numVClusters" then NumClusters(V)
    else if name == "numIClusters" then NumClusters(I)
    else if name == "numHeVClusters" then NumClusters(HeV)
    else if name == "numHeIClusters" then NumClusters(HeI)
    else if name == "numSuperClusters" then NumClusters(Super)
    else if name == "maxHeClusterSize" then MaxClusterSize(He)
    else if name == "maxVClusterSize" then MaxClusterSize(V)
    else if name == "maxIClusterSize" then MaxClusterSize(I)
    else if name == "maxHeVClusterSize" then MaxClusterSize(HeV)
    else if name == "maxHeIClusterSize" then MaxClusterSize(HeI)
    else Other(name)
  }

  /**
   * The encoding of keys is faithful: reading a key's name back gives the
   * key, and the names setProperty refuses are exactly the names of the keys
   * with constructors of their own.
   */
  lemma KeyNameRoundTrip(k: PropKey)
    requires IsTableKey(k)
    ensures KeyOfName(KeyName(k)) == k
    ensures IsReservedKey(KeyName(k)) <==> !k.Other?
  {
    match k
    case ReactionsEnabled =>
    case DissociationsEnabled =>
    case NumClusters(f) =>
      match f {
        case He => case V => case I => case HeV => case HeI => case Super =>
      }
    case MaxClusterSize(f) =>
      match f {
        case He => case V => case I => case HeV => case HeI =>
      }
    case Other(name) =>
  }

  /** No two keys of a table share a name. */
  lemma KeyNamesDistinct(a: PropKey, b: PropKey)
    requires IsTableKey(a) && IsTableKey(b) && KeyName(a) == KeyName(b)
    ensures a == b
  {
    KeyNameRoundTrip(a);
    KeyNameRoundTrip(b);
  }

  /**
   * The counters, one number per family. The table holds each counter as
   * the decimal string of its number, and setProperty refuses every counter
   * name, so only `add` and `addSuper` ever write them; the model keeps the
   * numbers and produces the strings when the table is read.
   */
  datatype Tally = Tally(he: nat, v: nat, i: nat, heV: nat, heI: nat, super: nat)
  {
    function Of(f: Species): nat {
      match f
      case He => he
      case V => v
      case I => i
      case HeV => heV
      case HeI => heI
      case Super => super
    }

    function With(f: Species, n: nat): (r: Tally)
      ensures r.Of(f) == n
      ensures forall f' :: f' != f ==> r.Of(f') == Of(f')
    {
      match f
      case He => this.(he := n)
      case V => this.(v := n)
      case I => this.(i := n)
      case HeV => this.(heV := n)
      case HeI => this.(heI := n)
      case Super => this.(super := n)
    }
  }

  /** The string std::to_string gives for zero. */
  lemma ZeroText()
    ensures NatToString(0) == "0"
  {
  }

  /** setDefaultPropsAndNames: every counter "0". */
  const NoTally := Tally(0, 0, 0, 0, 0, 0)

  /**
   * The entries of the table other than the counters: both toggles are
   * present and every stored key is a non-counter key a table can hold.
   */
  predicate PropertiesValid(p: map<PropKey, string>) {
    && ReactionsEnabled in p && DissociationsEnabled in p
    && forall k :: k in p ==> IsTableKey(k) && !IsCounter(k)
  }

  /** The non-counter entries setDefaultPropsAndNames installs: both toggles "true". */
  const DefaultProperties: map<PropKey, string> :=
    map[ReactionsEnabled := "true", DissociationsEnabled := "true"]

  // ----- Species of a composition -----

  /** The species whose counters `add` updates for a composition. */
  function AddFamily(c: Comp): Species {
    if IsMixed(c) then (if c.v > 0 then HeV else HeI)
    else if c.he > 0 then He
    else if c.v > 0 then V
    else I
  }

  /**
   * The family rule of `add`: a mixed cluster with vacancies is HeV, any
   * other mixed one HeI; a single-species cluster is He if it has helium,
   * else V if it has vacancies, else I. Never the super family.
   */
  lemma AddFamilyRule(c: Comp)
    ensures AddFamily(c) != Super
    ensures IsMixed(c) ==> (AddFamily(c) == HeV <==> c.v > 0) && (AddFamily(c) == HeI <==> c.v <= 0)
    ensures !IsMixed(c) ==> (AddFamily(c) == He <==> c.he > 0)
    ensures !IsMixed(c) ==> (AddFamily(c) == V <==> c.he <= 0 && c.v > 0)
    ensures !IsMixed(c) ==> (AddFamily(c) == I <==> c.he <= 0 && c.v <= 0)
  {
  }

  function Max(a: int, b: int): int {
    if a >= b then a else b
  }

  // ----- Lists and indices of handles -----

  predicate HandlesIn(s: seq<nat>, n: nat) {
    forall j :: 0 <= j < |s| ==> s[j] < n
  }

  predicate Distinct(s: seq<nat>) {
    forall j, k :: 0 <= j < k < |s| ==> s[j] != s[k]
  }

  predicate OfKind(s: seq<nat>, pool: seq<Cluster>, k: Species)
    requires HandlesIn(s, |pool|)
  {
    forall j :: 0 <= j < |s| ==> pool[s[j]].kind == k
  }

  lemma HandlesInConcat(s: seq<nat>, t: seq<nat>, n: nat)
    requires HandlesIn(s, n) && HandlesIn(t, n)
    ensures HandlesIn(s + t, n)
  {
    forall j | 0 <= j < |s + t|
      ensures (s + t)[j] < n
    {
      if j >= |s| {
        assert (s + t)[j] == t[j - |s|];
      }
    }
  }

  /** The handles of `s` whose cluster is of species k, in the order of `s`. */
  function OfKindIn(s: seq<nat>, pool: seq<Cluster>, k: Species): seq<nat> {
    if s == [] then []
    else (if s[0] < |pool| && pool[s[0]].kind == k then [s[0]] else []) + OfKindIn(s[1..], pool, k)
  }

  lemma {:induction false} OfKindInHandles(s: seq<nat>, pool: seq<Cluster>, k: Species)
    ensures HandlesIn(OfKindIn(s, pool, k), |pool|)
  {
    if s != [] {
      OfKindInHandles(s[1..], pool, k);
      HandlesInConcat(if s[0] < |pool| && pool[s[0]].kind == k then [s[0]] else [], OfKindIn(s[1..], pool, k), |pool|);
    }
  }

  /** Selecting by species distributes over concatenation. */
  lemma {:induction false} OfKindInAppend(s: seq<nat>, t: seq<nat>, pool: seq<Cluster>, k: Species)
    ensures OfKindIn(s + t, pool, k) == OfKindIn(s, pool, k) + OfKindIn(t, pool, k)
  {
    if s == [] {
      assert s + t == t;
    } else {
      var head := if s[0] < |pool| && pool[s[0]].kind == k then [s[0]] else [];
      var a, b := OfKindIn(s[1..], pool, k), OfKindIn(t, pool, k);
      assert (s + t)[0] == s[0] && (s + t)[1..] == s[1..] + t;
      OfKindInAppend(s[1..], t, pool, k);
      calc {
        OfKindIn(s + t, pool, k);
        head + OfKindIn(s[1..] + t, pool, k);
        head + (a + b);
        { assert head + (a + b) == (head + a) + b; }
        OfKindIn(s, pool, k) + b;
      }
    }
  }

  /** Selecting by species only looks at the species of the listed clusters. */
  lemma {:induction false} OfKindInSameKinds(s: seq<nat>, p: seq<Cluster>, q: seq<Cluster>, k: Species)
    requires HandlesIn(s, |p|) && HandlesIn(s, |q|)
    requires forall j :: 0 <= j < |s| ==> p[s[j]].kind == q[s[j]].kind
    ensures OfKindIn(s, p, k) == OfKindIn(s, q, k)
  {
    if s != [] {
      OfKindInSameKinds(s[1..], p, q, k);
    }
  }

  /** clusterTypeMap: one list of handles per species. */
  datatype SpeciesLists = SpeciesLists(he: seq<nat>, v: seq<nat>, i: seq<nat>,
                                       heV: seq<nat>, heI: seq<nat>, super: seq<nat>)
  {
    function Of(k: Species): seq<nat> {
      match k
      case He => he
      case V => v
      case I => i
      case HeV => heV
      case HeI => heI
      case Super => super
    }

    function With(k: Species, s: seq<nat>): (r: SpeciesLists)
      ensures r.Of(k) == s
      ensures forall k' :: k' != k ==> r.Of(k') == Of(k')
    {
      match k
      case He => this.(he := s)
      case V => this.(v := s)
      case I => this.(i := s)
      case HeV => this.(heV := s)
      case HeI => this.(heI := s)
      case Super => this.(super := s)
    }
  }

  const NoLists := SpeciesLists([], [], [], [], [], [])

  /** Every composition of an index maps to a cluster of that composition. */
  predicate IndexValid(m: map<Comp, nat>, pool: seq<Cluster>) {
    forall c :: c in m ==> m[c] < |pool| && pool[m[c]].comp == c
  }

  /**
   * The list of all clusters and the six species lists hold distinct
   * handles of the right species, and each species list is exactly the
   * clusters of that species in the list of all clusters, in the same order.
   */
  ghost predicate ListsValid(pool: seq<Cluster>, all: seq<nat>, lists: SpeciesLists) {
    && HandlesIn(all, |pool|) && Distinct(all)
    && (forall k: Species ::
          HandlesIn(lists.Of(k), |pool|) && Distinct(lists.Of(k)) && OfKind(lists.Of(k), pool, k))
    && forall k: Species :: ListSelected(pool, all, lists, k)
  }

  /** The species list of k is the clusters of species k in the list of all clusters, in its order. */
  ghost predicate ListSelected(pool: seq<Cluster>, all: seq<nat>, lists: SpeciesLists, k: Species) {
    lists.Of(k) == OfKindIn(all, pool, k)
  }

  /** The three composition indices point at matching clusters; only the single index holds unmixed ones. */
  ghost predicate IndicesValid(pool: seq<Cluster>, single: map<Comp, nat>, mixed: map<Comp, nat>,
                               supers: map<Comp, nat>) {
    && IndexValid(single, pool) && IndexValid(mixed, pool) && IndexValid(supers, pool)
    && (forall c :: c in single ==> !IsMixed(c))
    && (forall c :: c in mixed ==> IsMixed(c))
    && (forall c :: c in supers ==> IsMixed(c))
  }

  /** A list of distinct handles stays distinct and in range when the next handle is appended. */
  lemma HandleAppended(s: seq<nat>, n: nat)
    requires HandlesIn(s, n) && Distinct(s)
    ensures HandlesIn(s + [n], n + 1) && Distinct(s + [n])
  {
  }

  /** A species list the new cluster does not join is still valid over the longer pool. */
  lemma ListKept(pool: seq<Cluster>, s: seq<nat>, c: Cluster, k: Species)
    requires HandlesIn(s, |pool|) && OfKind(s, pool, k)
    ensures HandlesIn(s, |pool| + 1) && OfKind(s, pool + [c], k)
  {
    assert forall j :: 0 <= j < |s| ==> (pool + [c])[s[j]] == pool[s[j]];
  }

  /** The species list of the new cluster, with its handle appended, is valid over the longer pool. */
  lemma ListGrown(pool: seq<Cluster>, s: seq<nat>, c: Cluster)
    requires HandlesIn(s, |pool|) && Distinct(s) && OfKind(s, pool, c.kind)
    ensures HandlesIn(s + [|pool|], |pool| + 1) && Distinct(s + [|pool|])
    ensures OfKind(s + [|pool|], pool + [c], c.kind)
  {
    HandleAppended(s, |pool|);
    ListKept(pool, s, c, c.kind);
  }

  lemma AppendKeepsLists(pool: seq<Cluster>, all: seq<nat>, lists: SpeciesLists, c: Cluster)
    requires ListsValid(pool, all, lists)
    ensures ListsValid(pool + [c], all + [|pool|], lists.With(c.kind, lists.Of(c.kind) + [|pool|]))
  {
    var pool', lists' := pool + [c], lists.With(c.kind, lists.Of(c.kind) + [|pool|]);
    HandleAppended(all, |pool|);
    forall k: Species
      ensures HandlesIn(lists'.Of(k), |pool'|) && Distinct(lists'.Of(k)) && OfKind(lists'.Of(k), pool', k)
      ensures ListSelected(pool', all + [|pool|], lists', k)
    {
      assert ListSelected(pool, all, lists, k);
      if k == c.kind {
        ListGrown(pool, lists.Of(k), c);
      } else {
        ListKept(pool, lists.Of(k), c, k);
      }
      AppendSelects(pool, all, c, k);
    }
  }

  /** Selecting a species from the longer list of all clusters adds the new handle exactly when it is of that species. */
  lemma AppendSelects(pool: seq<Cluster>, all: seq<nat>, c: Cluster, k: Species)
    requires HandlesIn(all, |pool|)
    ensures OfKindIn(all + [|pool|], pool + [c], k)
         == OfKindIn(all, pool, k) + (if c.kind == k then [|pool|] else [])
  {
    var pool' := pool + [c];
    assert forall j :: 0 <= j < |all| ==> pool'[all[j]] == pool[all[j]];
    OfKindInAppend(all, [|pool|], pool', k);
    OfKindInSameKinds(all, pool, pool', k);
    assert [|pool|][1..] == [];
  }

  lemma AppendKeepsIndices(pool: seq<Cluster>, single: map<Comp, nat>, mixed: map<Comp, nat>,
                           supers: map<Comp, nat>, c: Cluster)
    requires IndicesValid(pool, single, mixed, supers)
    ensures IndicesValid(pool + [c], single, mixed, supers)
  {
    var pool' := pool + [c];
    assert forall h :: 0 <= h < |pool| ==> pool'[h] == pool[h];
  }

  /** Filing a cluster of the pool under its own composition, in the index its mixedness selects, keeps the indices valid. */
  lemma FileKeepsIndices(pool: seq<Cluster>, single: map<Comp, nat>, mixed: map<Comp, nat>,
                         supers: map<Comp, nat>, h: nat)
    requires IndicesValid(pool, single, mixed, supers) && h < |pool|
    ensures IsMixed(pool[h].comp) ==> IndicesValid(pool, single, mixed[pool[h].comp := h], supers)
    ensures !IsMixed(pool[h].comp) ==> IndicesValid(pool, single[pool[h].comp := h], mixed, supers)
  {
  }

  /** Filing a mixed cluster of the pool in the super index under its own composition keeps the indices valid. */
  lemma FileSuperKeepsIndices(pool: seq<Cluster>, single: map<Comp, nat>, mixed: map<Comp, nat>,
                              supers: map<Comp, nat>, h: nat)
    requires IndicesValid(pool, single, mixed, supers) && h < |pool| && IsMixed(pool[h].comp)
    ensures IndicesValid(pool, single, mixed, supers[pool[h].comp := h])
  {
  }

  /** The k-th cluster of the list has id k + 1. */
  ghost predicate IdsDense(pool: seq<Cluster>, all: seq<nat>)
    requires HandlesIn(all, |pool|)
  {
    forall k :: 0 <= k < |all| ==> pool[all[k]].id == k + 1
  }

  lemma AppendKeepsIds(pool: seq<Cluster>, all: seq<nat>, c: Cluster)
    requires HandlesIn(all, |pool|) && IdsDense(pool, all) && c.id == |all| + 1
    ensures HandlesIn(all + [|pool|], |pool| + 1) && IdsDense(pool + [c], all + [|pool|])
  {
    assert forall k :: 0 <= k < |all| ==> (pool + [c])[all[k]] == pool[all[k]];
  }

  /** Appending the next cluster keeps the ids dense when they were. */
  lemma AppendKeepsDenseIds(pool: seq<Cluster>, all: seq<nat>, c: Cluster, n: int)
    requires HandlesIn(all, |pool|) && c.id == n + 1
    ensures HandlesIn(all + [|pool|], |pool| + 1)
    ensures n == |all| && IdsDense(pool, all) ==> n + 1 == |all + [|pool|]| && IdsDense(pool + [c], all + [|pool|])
  {
    if n == |all| && IdsDense(pool, all) {
      AppendKeepsIds(pool, all, c);
    } else {
      HandlesInConcat(all, [|pool|], |pool| + 1);
    }
  }

  /** Two pools whose clusters differ at most in their ids. */
  ghost predicate SameShape(p: seq<Cluster>, q: seq<Cluster>) {
    |p| == |q| && forall h :: 0 <= h < |p| ==> SameExceptIds(p[h], q[h])
  }

  lemma SameShapeKeepsValidity(p: seq<Cluster>, q: seq<Cluster>, all: seq<nat>, lists: SpeciesLists,
                               single: map<Comp, nat>, mixed: map<Comp, nat>, supers: map<Comp, nat>)
    requires SameShape(p, q)
    requires ListsValid(p, all, lists) && IndicesValid(p, single, mixed, supers)
    ensures ListsValid(q, all, lists) && IndicesValid(q, single, mixed, supers)
  {
    assert forall h :: 0 <= h < |p| ==> p[h].kind == q[h].kind && p[h].comp == q[h].comp;
    forall k: Species
      ensures ListSelected(q, all, lists, k)
    {
      assert ListSelected(p, all, lists, k);
      OfKindInSameKinds(all, p, q, k);
    }
  }

  /** `get`: a single-species cluster by type name and size. */
  function LookupSingle(single: map<Comp, nat>, typeName: string, size: int): (r: Option<nat>)
    ensures r.Some? <==> (typeName == "He" || typeName == "V" || typeName == "I")
                         && size >= 1 && SingleComp(typeName, size) in single
    ensures r.Some? ==> r.value == single[SingleComp(typeName, size)]
  {
    if (typeName == "He" || typeName == "V" || typeName == "I") && size >= 1
       && SingleComp(typeName, size) in single
    then Some(single[SingleComp(typeName, size)])
    else None
  }

  /** `getCompound`: a mixed cluster by (He, V, I) sizes, for the type names HeV and HeI. */
  function LookupCompound(mixed: map<Comp, nat>, typeName: string, sizes: seq<int>): (r: Option<nat>)
    ensures r.Some? <==> (typeName == "HeV" || typeName == "HeI") && |sizes| == 3
                         && Comp(sizes[0], sizes[1], sizes[2]) in mixed
    ensures r.Some? ==> r.value == mixed[Comp(sizes[0], sizes[1], sizes[2])]
  {
    if (typeName == "HeV" || typeName == "HeI") && |sizes| == 3
       && Comp(sizes[0], sizes[1], sizes[2]) in mixed
    then Some(mixed[Comp(sizes[0], sizes[1], sizes[2])])
    else None
  }

  /** `getSuper`: a super cluster by (He, V, I) sizes, for the type name PSISuper. */
  function LookupSuper(supers: map<Comp, nat>, typeName: string, sizes: seq<int>): (r: Option<nat>)
    ensures r.Some? <==> typeName == "PSISuper" && |sizes| == 3
                         && Comp(sizes[0], sizes[1], sizes[2]) in supers
    ensures r.Some? ==> r.value == supers[Comp(sizes[0], sizes[1], sizes[2])]
  {
    if typeName == "PSISuper" && |sizes| == 3 && Comp(sizes[0], sizes[1], sizes[2]) in supers
    then Some(supers[Comp(sizes[0], sizes[1], sizes[2])])
    else None
  }

  /** The cluster a handle of a list matches in removeReactant: same type and composition. */
  predicate Matches(c: Cluster, kind: Species, comp: Comp) {
    c.kind == kind && c.comp == comp
  }

  /** The position of the first handle of `s` whose cluster matches, if any. */
  function FirstMatch(s: seq<nat>, pool: seq<Cluster>, kind: Species, comp: Comp): (r: Option<nat>)
    requires HandlesIn(s, |pool|)
    ensures r.Some? ==> r.value < |s| && Matches(pool[s[r.value]], kind, comp)
    ensures r.Some? ==> forall j :: 0 <= j < r.value ==> !Matches(pool[s[j]], kind, comp)
    ensures r.None? ==> forall j :: 0 <= j < |s| ==> !Matches(pool[s[j]], kind, comp)
  {
    if s == [] then None
    else if Matches(pool[s[0]], kind, comp) then Some(0)
    else
      var rest := FirstMatch(s[1..], pool, kind, comp);
      if rest.Some? then Some(rest.value + 1) else None
  }

  /**
   * The list without position k: exactly one occurrence of s[k] is gone and
   * the other handles keep their order.
   */
  function RemoveAt(s: seq<nat>, k: nat): (r: seq<nat>)
    requires k < |s|
    ensures |r| == |s| - 1
    ensures multiset(r) + multiset{s[k]} == multiset(s)
    ensures forall j :: 0 <= j < |r| ==> r[j] == if j < k then s[j] else s[j + 1]
  {
    assert s == s[..k] + [s[k]] + s[k + 1..];
    s[..k] + s[k + 1..]
  }

  /** The list with its first matching handle erased, unchanged when none matches. */
  function RemoveFirstMatch(s: seq<nat>, pool: seq<Cluster>, kind: Species, comp: Comp): (r: seq<nat>)
    requires HandlesIn(s, |pool|)
    ensures HandlesIn(r, |pool|)
  {
    var m := FirstMatch(s, pool, kind, comp);
    if m.None? then s else RemoveAt(s, m.value)
  }

  /** Erasing the first match, one handle at a time from the front. */
  lemma RemoveFirstMatchCons(s: seq<nat>, pool: seq<Cluster>, kind: Species, comp: Comp)
    requires HandlesIn(s, |pool|) && s != []
    ensures HandlesIn(s[1..], |pool|)
    ensures RemoveFirstMatch(s, pool, kind, comp) ==
      if Matches(pool[s[0]], kind, comp) then s[1..] else [s[0]] + RemoveFirstMatch(s[1..], pool, kind, comp)
  {
    if Matches(pool[s[0]], kind, comp) {
      RemoveMatchAtFront(s, pool, kind, comp);
    } else {
      RemoveMatchPastFront(s, pool, kind, comp);
    }
  }

  lemma RemoveMatchAtFront(s: seq<nat>, pool: seq<Cluster>, kind: Species, comp: Comp)
    requires HandlesIn(s, |pool|) && s != [] && Matches(pool[s[0]], kind, comp)
    ensures RemoveFirstMatch(s, pool, kind, comp) == s[1..]
  {
    assert FirstMatch(s, pool, kind, comp) == Some(0);
    assert s[..0] + s[1..] == s[1..];
  }

  lemma RemoveMatchPastFront(s: seq<nat>, pool: seq<Cluster>, kind: Species, comp: Comp)
    requires HandlesIn(s, |pool|) && s != [] && !Matches(pool[s[0]], kind, comp)
    ensures HandlesIn(s[1..], |pool|)
    ensures RemoveFirstMatch(s, pool, kind, comp) == [s[0]] + RemoveFirstMatch(s[1..], pool, kind, comp)
  {
    var t := s[1..];
    var m := FirstMatch(t, pool, kind, comp);
    assert FirstMatch(s, pool, kind, comp) == if m.Some? then Some(m.value + 1) else None;
    if m.Some? {
      RemoveAtCons(s, m.value);
    } else {
      assert s == [s[0]] + t;
    }
  }

  /** Removing a position past the front keeps the front handle in front. */
  lemma RemoveAtCons(s: seq<nat>, i: nat)
    requires i + 1 < |s|
    ensures RemoveAt(s, i + 1) == [s[0]] + RemoveAt(s[1..], i)
  {
    var l, r := RemoveAt(s, i + 1), [s[0]] + RemoveAt(s[1..], i);
    assert |l| == |r|;
    forall j | 0 <= j < |l|
      ensures l[j] == r[j]
    {
      if j > 0 {
        assert r[j] == RemoveAt(s[1..], i)[j - 1];
      }
    }
  }

  /**
   * Erasing the first cluster of a species and composition from a list,
   * then selecting a species, is the same as selecting first and erasing
   * from the selection when the species is the erased one's, and leaves the
   * selection alone otherwise.
   */
  lemma {:induction false} OfKindInRemove(s: seq<nat>, pool: seq<Cluster>, kind: Species, comp: Comp, k: Species)
    requires HandlesIn(s, |pool|)
    ensures HandlesIn(OfKindIn(s, pool, k), |pool|)
    ensures OfKindIn(RemoveFirstMatch(s, pool, kind, comp), pool, k) ==
      if k == kind then RemoveFirstMatch(OfKindIn(s, pool, k), pool, kind, comp) else OfKindIn(s, pool, k)
  {
    OfKindInHandles(s, pool, k);
    if s != [] {
      var x, t := s[0], s[1..];
      assert HandlesIn(t, |pool|);
      OfKindInHandles(t, pool, k);
      var sel, selRest := OfKindIn(s, pool, k), OfKindIn(t, pool, k);
      var head := if pool[x].kind == k then [x] else [];
      assert sel == head + selRest;
      RemoveFirstMatchCons(s, pool, kind, comp);
      if Matches(pool[x], kind, comp) {
        assert RemoveFirstMatch(s, pool, kind, comp) == t;
        if k == kind {
          RemoveFirstMatchCons(sel, pool, kind, comp);
          assert sel[0] == x && sel[1..] == selRest;
          assert RemoveFirstMatch(sel, pool, kind, comp) == selRest;
        } else {
          assert sel == selRest;
        }
      } else {
        var rest := RemoveFirstMatch(t, pool, kind, comp);
        assert RemoveFirstMatch(s, pool, kind, comp) == [x] + rest;
        OfKindInRemove(t, pool, kind, comp, k);
        OfKindInCons(x, rest, pool, k);
        assert OfKindIn([x] + rest, pool, k) == head + OfKindIn(rest, pool, k);
        if k == kind && pool[x].kind == k {
          RemoveFirstMatchCons(sel, pool, kind, comp);
          assert sel[0] == x && sel[1..] == selRest;
          assert RemoveFirstMatch(sel, pool, kind, comp) == [x] + RemoveFirstMatch(selRest, pool, kind, comp);
        } else if k == kind {
          assert head == [] && sel == selRest;
        } else {
          assert OfKindIn(rest, pool, k) == selRest;
        }
      }
    }
  }

  /** Selecting by species from a list with one more handle in front. */
  lemma OfKindInCons(x: nat, s: seq<nat>, pool: seq<Cluster>, k: Species)
    requires x < |pool| && HandlesIn(s, |pool|)
    ensures HandlesIn([x] + s, |pool|)
    ensures OfKindIn([x] + s, pool, k) == (if pool[x].kind == k then [x] else []) + OfKindIn(s, pool, k)
  {
    assert ([x] + s)[0] == x && ([x] + s)[1..] == s;
  }

  /** Erasing the first match of a species from both lists keeps each species list the selection of its species. */
  lemma RemoveKeepsSelected(pool: seq<Cluster>, all: seq<nat>, lists: SpeciesLists, kind: Species, comp: Comp)
    requires HandlesIn(all, |pool|) && HandlesIn(lists.Of(kind), |pool|)
    requires forall k: Species :: ListSelected(pool, all, lists, k)
    ensures forall k: Species :: ListSelected(pool, RemoveFirstMatch(all, pool, kind, comp),
                                              lists.With(kind, RemoveFirstMatch(lists.Of(kind), pool, kind, comp)), k)
  {
    var lists' := lists.With(kind, RemoveFirstMatch(lists.Of(kind), pool, kind, comp));
    forall k: Species
      ensures ListSelected(pool, RemoveFirstMatch(all, pool, kind, comp), lists', k)
    {
      assert ListSelected(pool, all, lists, k);
      OfKindInRemove(all, pool, kind, comp, k);
    }
  }

  /** Only the ids and momentum ids of a cluster differ. */
  predicate SameExceptIds(a: Cluster, b: Cluster) {
    a.(id := b.id, heMomentumId := b.heMomentumId, vMomentumId := b.vMomentumId) == b
  }

  /**
   * Replacing the reaction bookkeeping of one cluster keeps the indices
   * valid and the ids dense: they only look at kinds, compositions and ids.
   */
  lemma BookUpdateKeepsValidity(pool: seq<Cluster>, h: nat, b: Bookkeeping, all: seq<nat>, lists: SpeciesLists,
                                single: map<Comp, nat>, mixed: map<Comp, nat>, supers: map<Comp, nat>)
    requires h < |pool|
    requires ListsValid(pool, all, lists) && IndicesValid(pool, single, mixed, supers)
    ensures ListsValid(pool[h := pool[h].(book := b)], all, lists)
    ensures IndicesValid(pool[h := pool[h].(book := b)], single, mixed, supers)
    ensures IdsDense(pool, all) ==> IdsDense(pool[h := pool[h].(book := b)], all)
  {
    var q := pool[h := pool[h].(book := b)];
    assert forall g :: 0 <= g < |pool| ==> q[g].kind == pool[g].kind && q[g].comp == pool[g].comp && q[g].id == pool[g].id;
    forall k: Species
      ensures ListSelected(q, all, lists, k)
    {
      assert ListSelected(pool, all, lists, k);
      OfKindInSameKinds(all, pool, q, k);
    }
  }

  class ReactionNetwork {
    /** Every cluster ever added; a handle is a position in it. */
    var pool: seq<Cluster>
    /** allReactants: every cluster, in insertion order. */
    var allReactants: seq<nat>
    /** clusterTypeMap: one list per species, in insertion order. */
    var clusterTypeMap: SpeciesLists
    var singleSpeciesMap: map<Comp, nat>
    var mixedSpeciesMap: map<Comp, nat>
    var superSpeciesMap: map<Comp, nat>
    /** The table entries other than the counters. */
    var properties: map<PropKey, string>
    /** numTClusters for each family T. */
    var numClusters: Tally
    /** maxTClusterSize for each family T but the super family, whose entry stays 0. */
    var maxClusterSize: Tally
    var networkSize: int
    var names: seq<string>
    var compoundNames: seq<string>

    ghost predicate Valid()
      reads this
    {
      && PropertiesValid(properties)
      && ListsValid(pool, allReactants, clusterTypeMap)
      && IndicesValid(pool, singleSpeciesMap, mixedSpeciesMap, superSpeciesMap)
    }

    /** Ids are 1..n in the order of allReactants and n is the network size. */
    ghost predicate DenseIds()
      reads this
      requires Valid()
    {
      networkSize == |allReactants| && IdsDense(pool, allReactants)
    }

    /** The number a counter holds. */
    function Count(key: PropKey): nat
      reads this
      requires IsCounter(key)
    {
      if key.NumClusters? then numClusters.Of(key.family) else maxClusterSize.Of(key.family)
    }

    /**
     * The string the table holds under `key`, if any: a counter reads as the
     * std::to_string of its number, which std::stoi reads back unchanged.
     */
    function Property(key: PropKey): (r: Option<string>)
      reads this
      ensures IsCounter(key) ==> r.Some? && IsNumeral(r.value) && StringToNat(r.value) == Count(key)
      ensures !IsCounter(key) ==> (r.Some? <==> key in properties) && (r.Some? ==> r.value == properties[key])
    {
      if IsCounter(key) then
        StringToNatOfNatToString(Count(key));
        Some(NatToString(Count(key)))
      else if key in properties then Some(properties[key])
      else None
    }

    /** The empty network with its default properties and names (setDefaultPropsAndNames). */
    constructor ()
      ensures Valid() && DenseIds()
      ensures pool == [] && allReactants == [] && networkSize == 0
      ensures clusterTypeMap == NoLists
      ensures singleSpeciesMap == map[] && mixedSpeciesMap == map[] && superSpeciesMap == map[]
      ensures properties == DefaultProperties && numClusters == NoTally && maxClusterSize == NoTally
      ensures forall key :: IsCounter(key) ==> Property(key) == Some("0")
      ensures names == ["He", "V", "I"] && compoundNames == ["HeV", "HeI", "PSISuper"]
    {
      pool := [];
      allReactants := [];
      clusterTypeMap := NoLists;
      singleSpeciesMap := map[];
      mixedSpeciesMap := map[];
      superSpeciesMap := map[];
      properties := DefaultProperties;
      numClusters := NoTally;
      maxClusterSize := NoTally;
      networkSize := 0;
      names := ["He", "V", "I"];
      compoundNames := ["HeV", "HeI", "PSISuper"];
      new;
      ZeroText();
      forall key | IsCounter(key)
        ensures Property(key) == Some("0")
      {
        assert Count(key) == 0;
      }
    }

    /** get(type, size): null unless the type is He, V or I, size >= 1 and that cluster exists. */
    function Get(typeName: string, size: int): (r: Option<nat>)
      reads this
      requires Valid()
      ensures r.Some? <==> (typeName == "He" || typeName == "V" || typeName == "I")
                           && size >= 1 && SingleComp(typeName, size) in singleSpeciesMap
      ensures r.Some? ==> r.value < |pool| && pool[r.value].comp == SingleComp(typeName, size)
    {
      LookupSingle(singleSpeciesMap, typeName, size)
    }

    /** getCompound(type, sizes): null unless the type is HeV or HeI, there are 3 sizes and that cluster exists. */
    function GetCompound(typeName: string, sizes: seq<int>): (r: Option<nat>)
      reads this
      requires Valid()
      ensures r.Some? <==> (typeName == "HeV" || typeName == "HeI") && |sizes| == 3
                           && Comp(sizes[0], sizes[1], sizes[2]) in mixedSpeciesMap
      ensures r.Some? ==> r.value < |pool| && pool[r.value].comp == Comp(sizes[0], sizes[1], sizes[2])
                          && IsMixed(pool[r.value].comp)
    {
      LookupCompound(mixedSpeciesMap, typeName, sizes)
    }

    /** getSuper(type, sizes): null unless the type is PSISuper, there are 3 sizes and that cluster exists. */
    function GetSuper(typeName: string, sizes: seq<int>): (r: Option<nat>)
      reads this
      requires Valid()
      ensures r.Some? <==> typeName == "PSISuper" && |sizes| == 3
                           && Comp(sizes[0], sizes[1], sizes[2]) in superSpeciesMap
      ensures r.Some? ==> r.value < |pool| && pool[r.value].comp == Comp(sizes[0], sizes[1], sizes[2])
    {
      LookupSuper(superSpeciesMap, typeName, sizes)
    }

    /**
     * getAll(name): the species list for a known type name, which holds
     * exactly the clusters of that type in the order they were added (and
     * kept); empty for any other name.
     */
    function GetAll(name: string): (r: seq<nat>)
      reads this
      requires Valid()
      ensures HandlesIn(r, |pool|) && Distinct(r)
      ensures !IsTypeName(name) ==> r == []
      ensures IsTypeName(name) ==> forall j :: 0 <= j < |r| ==> TypeName(pool[r[j]].kind) == name
      ensures IsTypeName(name) ==> r == OfKindIn(allReactants, pool, SpeciesNamed(name))
    {
      if IsTypeName(name) then
        assert ListSelected(pool, allReactants, clusterTypeMap, SpeciesNamed(name));
        clusterTypeMap.Of(SpeciesNamed(name))
      else []
    }

    /** Whether `add` would refuse a composition as already present. */
    predicate IsDuplicate(c: Comp)
      reads this
    {
      if IsMixed(c) then c in mixedSpeciesMap else c in singleSpeciesMap
    }

    /**
     * add: files the cluster under its composition (mixed or single map),
     * counts it in its family, raises the family maximum to its total size,
     * gives it id networkSize + 1 and appends it to its species list and to
     * the list of all clusters. A composition already present throws before
     * anything is touched.
     */
    method Add(c: Cluster) returns (r: Result<nat, NetworkError>)
      requires Valid()
      modifies this
      ensures Valid()
      ensures old(IsDuplicate(c.comp)) ==> r == Failure(DuplicateReactant(c.comp)) && unchanged(this)
      ensures !old(IsDuplicate(c.comp)) ==>
        var h := |old(pool)|;
        var f := AddFamily(c.comp);
        && r == Success(h)
        && pool == old(pool) + [c.(id := old(networkSize) + 1)]
        && networkSize == old(networkSize) + 1
        && allReactants == old(allReactants) + [h]
        && clusterTypeMap == old(clusterTypeMap).With(c.kind, old(clusterTypeMap).Of(c.kind) + [h])
        && (IsMixed(c.comp) ==> mixedSpeciesMap == old(mixedSpeciesMap)[c.comp := h]
                                && singleSpeciesMap == old(singleSpeciesMap))
        && (!IsMixed(c.comp) ==> singleSpeciesMap == old(singleSpeciesMap)[c.comp := h]
                                 && mixedSpeciesMap == old(mixedSpeciesMap))
        && superSpeciesMap == old(superSpeciesMap)
        && numClusters == old(numClusters).With(f, old(numClusters).Of(f) + 1)
        && maxClusterSize == old(maxClusterSize).With(f, Max(TotalSize(c.comp), old(maxClusterSize).Of(f)))
        && properties == old(properties)
        && names == old(names) && compoundNames == old(compoundNames)
      ensures !old(IsDuplicate(c.comp)) && old(DenseIds()) ==> DenseIds()
    {
      if IsDuplicate(c.comp) {
        r := Failure(DuplicateReactant(c.comp));
        return;
      }
      var h := AddNew(c);
      r := Success(h);
    }

    /** `add` past the duplicate check. */
    method AddNew(c: Cluster) returns (h: nat)
      requires Valid() && !IsDuplicate(c.comp)
      modifies this`numClusters, this`maxClusterSize, this`pool, this`allReactants, this`clusterTypeMap,
               this`networkSize, this`singleSpeciesMap, this`mixedSpeciesMap
      ensures Valid()
      ensures h == |old(pool)|
      ensures pool == old(pool) + [c.(id := old(networkSize) + 1)]
      ensures networkSize == old(networkSize) + 1
      ensures allReactants == old(allReactants) + [h]
      ensures clusterTypeMap == old(clusterTypeMap).With(c.kind, old(clusterTypeMap).Of(c.kind) + [h])
      ensures IsMixed(c.comp) ==> mixedSpeciesMap == old(mixedSpeciesMap)[c.comp := h]
                                  && singleSpeciesMap == old(singleSpeciesMap)
      ensures !IsMixed(c.comp) ==> singleSpeciesMap == old(singleSpeciesMap)[c.comp := h]
                                   && mixedSpeciesMap == old(mixedSpeciesMap)
      ensures numClusters == old(numClusters).With(AddFamily(c.comp), old(numClusters).Of(AddFamily(c.comp)) + 1)
      ensures maxClusterSize == old(maxClusterSize).With(AddFamily(c.comp),
                Max(TotalSize(c.comp), old(maxClusterSize).Of(AddFamily(c.comp))))
      ensures old(DenseIds()) ==> DenseIds()
    {
      CountCluster(AddFamily(c.comp), TotalSize(c.comp));
      h := AddEntry(c);
    }

    /** The numbering, listing and filing `add` does once the cluster is counted. */
    method AddEntry(c: Cluster) returns (h: nat)
      requires ListsValid(pool, allReactants, clusterTypeMap)
      requires IndicesValid(pool, singleSpeciesMap, mixedSpeciesMap, superSpeciesMap)
      modifies this`pool, this`allReactants, this`clusterTypeMap, this`networkSize,
               this`singleSpeciesMap, this`mixedSpeciesMap
      ensures ListsValid(pool, allReactants, clusterTypeMap)
      ensures IndicesValid(pool, singleSpeciesMap, mixedSpeciesMap, superSpeciesMap)
      ensures h == |old(pool)|
      ensures pool == old(pool) + [c.(id := old(networkSize) + 1)]
      ensures networkSize == old(networkSize) + 1
      ensures allReactants == old(allReactants) + [h]
      ensures clusterTypeMap == old(clusterTypeMap).With(c.kind, old(clusterTypeMap).Of(c.kind) + [h])
      ensures IsMixed(c.comp) ==> mixedSpeciesMap == old(mixedSpeciesMap)[c.comp := h]
                                  && singleSpeciesMap == old(singleSpeciesMap)
      ensures !IsMixed(c.comp) ==> singleSpeciesMap == old(singleSpeciesMap)[c.comp := h]
                                   && mixedSpeciesMap == old(mixedSpeciesMap)
      ensures old(networkSize == |allReactants| && IdsDense(pool, allReactants)) ==>
                networkSize == |allReactants| && IdsDense(pool, allReactants)
    {
      h := Append(c);
      FileKeepsIndices(pool, singleSpeciesMap, mixedSpeciesMap, superSpeciesMap, h);
      if IsMixed(c.comp) {
        mixedSpeciesMap := mixedSpeciesMap[c.comp := h];
      } else {
        singleSpeciesMap := singleSpeciesMap[c.comp := h];
      }
    }

    /** The counter update of `add`: one more cluster of the family, and its maximum size raised. */
    method CountCluster(f: Species, size: int)
      modifies this`numClusters, this`maxClusterSize
      ensures numClusters == old(numClusters).With(f, old(numClusters).Of(f) + 1)
      ensures maxClusterSize == old(maxClusterSize).With(f, Max(size, old(maxClusterSize).Of(f)))
    {
      var count := numClusters.Of(f) + 1;
      numClusters := numClusters.With(f, count);
      var maxSize := Max(size, maxClusterSize.Of(f));
      maxClusterSize := maxClusterSize.With(f, maxSize);
    }

    /**
     * The numbering and listing shared by `add` and `addSuper`: the cluster
     * gets id networkSize + 1 and is appended to its species list and to the
     * list of all clusters.
     */
    method Append(c: Cluster) returns (h: nat)
      requires ListsValid(pool, allReactants, clusterTypeMap)
      requires IndicesValid(pool, singleSpeciesMap, mixedSpeciesMap, superSpeciesMap)
      modifies this`pool, this`allReactants, this`clusterTypeMap, this`networkSize
      ensures h == |old(pool)|
      ensures pool == old(pool) + [c.(id := old(networkSize) + 1)]
      ensures networkSize == old(networkSize) + 1
      ensures allReactants == old(allReactants) + [h]
      ensures clusterTypeMap == old(clusterTypeMap).With(c.kind, old(clusterTypeMap).Of(c.kind) + [h])
      ensures ListsValid(pool, allReactants, clusterTypeMap)
      ensures IndicesValid(pool, singleSpeciesMap, mixedSpeciesMap, superSpeciesMap)
      ensures old(networkSize == |allReactants| && IdsDense(pool, allReactants)) ==>
                networkSize == |allReactants| && IdsDense(pool, allReactants)
    {
      h := |pool|;
      var entry := c.(id := networkSize + 1);
      var pool', all', lists' := pool + [entry], allReactants + [h], clusterTypeMap.With(c.kind, clusterTypeMap.Of(c.kind) + [h]);
      AppendKeepsLists(pool, allReactants, clusterTypeMap, entry);
      AppendKeepsIndices(pool, singleSpeciesMap, mixedSpeciesMap, superSpeciesMap, entry);
      AppendKeepsDenseIds(pool, allReactants, entry, networkSize);
      assert ListsValid(pool', all', lists');
      networkSize := networkSize + 1;
      pool := pool';
      clusterTypeMap := lists';
      allReactants := all';
    }

    /**
     * addSuper: a super cluster must have a mixed composition not yet in the
     * super map; it is counted in numSuperClusters only (no maximum size is
     * kept) and gets the next id.
     */
    method AddSuper(c: Cluster) returns (r: Result<nat, NetworkError>)
      requires Valid()
      modifies this
      ensures Valid()
      ensures old(!IsMixed(c.comp) || c.comp in superSpeciesMap) ==>
        r == Failure(DuplicateSuperReactant(c.comp)) && unchanged(this)
      ensures old(IsMixed(c.comp) && c.comp !in superSpeciesMap) ==>
        var h := |old(pool)|;
        && r == Success(h)
        && pool == old(pool) + [c.(id := old(networkSize) + 1)]
        && networkSize == old(networkSize) + 1
        && allReactants == old(allReactants) + [h]
        && clusterTypeMap == old(clusterTypeMap).With(c.kind, old(clusterTypeMap).Of(c.kind) + [h])
        && superSpeciesMap == old(superSpeciesMap)[c.comp := h]
        && singleSpeciesMap == old(singleSpeciesMap) && mixedSpeciesMap == old(mixedSpeciesMap)
        && numClusters == old(numClusters).With(Super, old(numClusters).Of(Super) + 1)
        && maxClusterSize == old(maxClusterSize) && properties == old(properties)
        && names == old(names) && compoundNames == old(compoundNames)
      ensures old(IsMixed(c.comp) && c.comp !in superSpeciesMap) && old(DenseIds()) ==> DenseIds()
    {
      if !IsMixed(c.comp) || c.comp in superSpeciesMap {
        r := Failure(DuplicateSuperReactant(c.comp));
        return;
      }
      var h := AddSuperNew(c);
      r := Success(h);
    }

    /** `addSuper` past its checks: count the super cluster, take it into the network, file it in the super map. */
    method AddSuperNew(c: Cluster) returns (h: nat)
      requires Valid() && IsMixed(c.comp) && c.comp !in superSpeciesMap
      modifies this`numClusters, this`pool, this`allReactants, this`clusterTypeMap, this`networkSize,
               this`superSpeciesMap
      ensures Valid()
      ensures h == |old(pool)|
      ensures pool == old(pool) + [c.(id := old(networkSize) + 1)]
      ensures networkSize == old(networkSize) + 1
      ensures allReactants == old(allReactants) + [h]
      ensures clusterTypeMap == old(clusterTypeMap).With(c.kind, old(clusterTypeMap).Of(c.kind) + [h])
      ensures superSpeciesMap == old(superSpeciesMap)[c.comp := h]
      ensures numClusters == old(numClusters).With(Super, old(numClusters).Of(Super) + 1)
      ensures old(DenseIds()) ==> DenseIds()
    {
      numClusters := numClusters.With(Super, numClusters.Of(Super) + 1);
      h := Append(c);
      FileSuperKeepsIndices(pool, singleSpeciesMap, mixedSpeciesMap, superSpeciesMap, h);
      superSpeciesMap := superSpeciesMap[c.comp := h];
    }

    /** The position of the first handle of `s` matching, found by walking the list. */
    method FindFirstMatch(s: seq<nat>, kind: Species, comp: Comp) returns (r: Option<nat>)
      requires HandlesIn(s, |pool|)
      ensures r == FirstMatch(s, pool, kind, comp)
    {
      var j := 0;
      while j < |s|
        invariant 0 <= j <= |s|
        invariant forall k :: 0 <= k < j ==> !Matches(pool[s[k]], kind, comp)
      {
        if Matches(pool[s[j]], kind, comp) {
          FirstMatchIsFirst(s, j, kind, comp);
          return Some(j);
        }
        j := j + 1;
      }
      FirstMatchIsFirst(s, |s|, kind, comp);
      r := None;
    }

    lemma {:induction false} FirstMatchIsFirst(s: seq<nat>, j: nat, kind: Species, comp: Comp)
      requires HandlesIn(s, |pool|) && j <= |s|
      requires forall k :: 0 <= k < j ==> !Matches(pool[s[k]], kind, comp)
      requires j < |s| ==> Matches(pool[s[j]], kind, comp)
      ensures FirstMatch(s, pool, kind, comp) == if j < |s| then Some(j) else None
    {
      if s != [] && j > 0 {
        FirstMatchIsFirst(s[1..], j - 1, kind, comp);
      }
    }

    /**
     * removeReactant: erases the first cluster of the same type and
     * composition from the list of all clusters and from its species list,
     * and the composition from the mixed map. The single and super maps,
     * the counters and networkSize are left as they are.
     */
    method RemoveReactant(r: Cluster)
      requires Valid()
      modifies this`allReactants, this`clusterTypeMap, this`mixedSpeciesMap
      ensures Valid()
      ensures allReactants == RemoveFirstMatch(old(allReactants), old(pool), r.kind, r.comp)
      ensures clusterTypeMap == old(clusterTypeMap).With(r.kind,
                RemoveFirstMatch(old(clusterTypeMap).Of(r.kind), old(pool), r.kind, r.comp))
      ensures mixedSpeciesMap == old(mixedSpeciesMap) - {r.comp}
    {
      RemoveKeepsSelected(pool, allReactants, clusterTypeMap, r.kind, r.comp);
      allReactants := EraseFirstMatch(allReactants, r.kind, r.comp);
      var clusters := EraseFirstMatch(clusterTypeMap.Of(r.kind), r.kind, r.comp);
      clusterTypeMap := clusterTypeMap.With(r.kind, clusters);
      mixedSpeciesMap := mixedSpeciesMap - {r.comp};
    }

    /** One erase loop of removeReactant: the list without its first matching handle. */
    method EraseFirstMatch(s: seq<nat>, kind: Species, comp: Comp) returns (t: seq<nat>)
      requires HandlesIn(s, |pool|) && Distinct(s)
      ensures t == RemoveFirstMatch(s, pool, kind, comp)
      ensures HandlesIn(t, |pool|) && Distinct(t)
      ensures forall k :: OfKind(s, pool, k) ==> OfKind(t, pool, k)
    {
      var m := FindFirstMatch(s, kind, comp);
      if m.None? {
        return s;
      }
      t := RemoveAt(s, m.value);
    }

    /**
     * setProperty: stores the value unless the key or the value is empty or
     * the key is one of the thirteen the network maintains itself.
     */
    method SetProperty(key: string, value: string)
      requires Valid()
      modifies this`properties
      ensures Valid()
      ensures key != "" && value != "" && !IsReservedKey(key) ==> properties == old(properties)[Other(key) := value]
      ensures key == "" || value == "" || IsReservedKey(key) ==> properties == old(properties)
    {
      if key != "" && value != "" && !IsReservedKey(key) {
        properties := properties[Other(key) := value];
      }
    }

    /**
     * Stores the rebuilt reaction bookkeeping of the cluster at `h`, as a
     * cluster's connectivity pass does to its own lists; nothing else changes.
     */
    method SetBookkeeping(h: nat, b: Bookkeeping)
      requires Valid() && h < |pool|
      modifies this`pool
      ensures pool == old(pool)[h := old(pool)[h].(book := b)]
      ensures Valid()
      ensures old(DenseIds()) ==> DenseIds()
    {
      BookUpdateKeepsValidity(pool, h, b, allReactants, clusterTypeMap,
                              singleSpeciesMap, mixedSpeciesMap, superSpeciesMap);
      pool := pool[h := pool[h].(book := b)];
    }

    /**
     * reinitializeNetwork: renumbers allReactants 1..n in list order with
     * both momentum ids equal to the id, sets networkSize to n, then gives
     * the j-th super cluster the momentum ids n + 2j + 1 (He) and n + 2j + 2 (V).
     */
    method ReinitializeNetwork()
      requires Valid()
      modifies this`pool, this`networkSize
      ensures Valid() && DenseIds()
      ensures SameShape(old(pool), pool)
      ensures forall k :: 0 <= k < |allReactants| && allReactants[k] !in clusterTypeMap.Of(Super) ==>
                pool[allReactants[k]].heMomentumId == k + 1 && pool[allReactants[k]].vMomentumId == k + 1
      ensures forall j :: 0 <= j < |clusterTypeMap.Of(Super)| ==>
                pool[clusterTypeMap.Of(Super)[j]].heMomentumId == networkSize + 2 * j + 1
                && pool[clusterTypeMap.Of(Super)[j]].vMomentumId == networkSize + 2 * j + 2
      ensures forall h :: 0 <= h < |pool| && h !in allReactants && h !in clusterTypeMap.Of(Super) ==>
                pool[h] == old(pool)[h]
    {
      RenumberAll();
      NumberSuperMomenta();
    }

    /** The first pass of reinitializeNetwork: ids and momentum ids 1..n along allReactants. */
    method RenumberAll()
      requires Valid()
      modifies this`pool, this`networkSize
      ensures Valid() && DenseIds()
      ensures SameShape(old(pool), pool)
      ensures forall k :: 0 <= k < |allReactants| ==>
                pool[allReactants[k]].heMomentumId == k + 1 && pool[allReactants[k]].vMomentumId == k + 1
      ensures forall h :: 0 <= h < |pool| && h !in allReactants ==> pool[h] == old(pool)[h]
    {
      var all, p := allReactants, pool;
      var id := 0;
      while id < |all|
        invariant 0 <= id <= |all|
        invariant SameShape(pool, p)
        invariant forall k :: 0 <= k < id ==>
                    p[all[k]].id == k + 1 && p[all[k]].heMomentumId == k + 1 && p[all[k]].vMomentumId == k + 1
        invariant forall k :: id <= k < |all| ==> p[all[k]] == pool[all[k]]
        invariant forall h :: 0 <= h < |p| && h !in all ==> p[h] == pool[h]
      {
        var h := all[id];
        p := p[h := p[h].(id := id + 1, heMomentumId := id + 1, vMomentumId := id + 1)];
        id := id + 1;
      }
      SameShapeKeepsValidity(pool, p, allReactants, clusterTypeMap,
                             singleSpeciesMap, mixedSpeciesMap, superSpeciesMap);
      networkSize := id;
      pool := p;
    }

    /** The second pass of reinitializeNetwork: two fresh momentum ids per super cluster after n. */
    method NumberSuperMomenta()
      requires Valid() && DenseIds()
      modifies this`pool
      ensures Valid() && DenseIds()
      ensures SameShape(old(pool), pool)
      ensures forall h :: 0 <= h < |pool| ==> pool[h].id == old(pool)[h].id
      ensures forall j :: 0 <= j < |clusterTypeMap.Of(Super)| ==>
                pool[clusterTypeMap.Of(Super)[j]].heMomentumId == networkSize + 2 * j + 1
                && pool[clusterTypeMap.Of(Super)[j]].vMomentumId == networkSize + 2 * j + 2
      ensures forall h :: 0 <= h < |pool| && h !in clusterTypeMap.Of(Super) ==> pool[h] == old(pool)[h]
    {
      var supers, n, p := clusterTypeMap.Of(Super), networkSize, pool;
      var j := 0;
      while j < |supers|
        invariant 0 <= j <= |supers|
        invariant SameShape(pool, p)
        invariant forall h :: 0 <= h < |p| ==> p[h].id == pool[h].id
        invariant forall k :: 0 <= k < j ==>
                    p[supers[k]].heMomentumId == n + 2 * k + 1 && p[supers[k]].vMomentumId == n + 2 * k + 2
        invariant forall h :: 0 <= h < |p| && h !in supers ==> p[h] == pool[h]
        invariant forall k :: j <= k < |supers| ==> p[supers[k]] == pool[supers[k]]
      {
        var h := supers[j];
        p := p[h := p[h].(heMomentumId := n + 2 * j + 1, vMomentumId := n + 2 * j + 2)];
        j := j + 1;
      }
      SameShapeKeepsValidity(pool, p, allReactants, clusterTypeMap,
                             singleSpeciesMap, mixedSpeciesMap, superSpeciesMap);
      pool := p;
    }
  }
}
