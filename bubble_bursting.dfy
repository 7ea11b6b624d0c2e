/**
 * Bubble bursting (BubbleBurstingHandler.cpp): a HeV bubble close enough to
 * the surface bursts, losing its helium and leaving the V cluster with the
 * same number of vacancies. The handler connects each V cluster to its
 * bubbles, lists per grid point which bubbles burst there, keeps one rate
 * constant, and moves concentration from bubble to V cluster.
 *
 * Reaction radii and the biggest rates of the bubbles are physics the
 * handler only reads: they are parameters, functions of a cluster's handle.
 */
module BubbleBursting {
  import opened Wrappers
  import opened Composition
  import opened Reactions
  import opened Network

  // ----- initialize: V_v reacts with every bubble holding v vacancies -----

  /** The ids of the bubbles in `bubbles` whose V component is `vSize`. */
  function BurstIds(pool: seq<Cluster>, bubbles: seq<nat>, vSize: int): set<int>
    requires HandlesIn(bubbles, |pool|)
  {
    if bubbles == [] then {}
    else
      var b := pool[bubbles[|bubbles| - 1]];
      BurstIds(pool, bubbles[..|bubbles| - 1], vSize) + (if b.comp.v == vSize then {b.id} else {})
  }

  /** An id is among BurstIds exactly when some listed bubble with that V component has it. */
  lemma {:induction false} BurstIdsMembers(pool: seq<Cluster>, bubbles: seq<nat>, vSize: int, id: int)
    requires HandlesIn(bubbles, |pool|)
    ensures id in BurstIds(pool, bubbles, vSize) <==>
            exists j :: 0 <= j < |bubbles| && pool[bubbles[j]].comp.v == vSize && pool[bubbles[j]].id == id
  {
    if bubbles != [] {
      var last := |bubbles| - 1;
      var init := bubbles[..last];
      BurstIdsMembers(pool, init, vSize, id);
      if id in BurstIds(pool, bubbles, vSize) {
        if id in BurstIds(pool, init, vSize) {
          var j :| 0 <= j < |init| && pool[init[j]].comp.v == vSize && pool[init[j]].id == id;
          assert bubbles[j] == init[j];
        } else {
          assert pool[bubbles[last]].comp.v == vSize && pool[bubbles[last]].id == id;
        }
      }
      if exists j :: 0 <= j < |bubbles| && pool[bubbles[j]].comp.v == vSize && pool[bubbles[j]].id == id {
        var j :| 0 <= j < |bubbles| && pool[bubbles[j]].comp.v == vSize && pool[bubbles[j]].id == id;
        if j < last {
          assert init[j] == bubbles[j];
        }
      }
    }
  }

  /** A cluster whose reaction connectivity gained the ids in `ids`. */
  function Joined(c: Cluster, ids: set<int>): Cluster {
    c.(book := c.book.(reactionConnectivity := c.book.reactionConnectivity + ids))
  }

  /**
   * The pool after the connection pass over the V clusters `vs`: each of
   * them is joined to the bubbles of its size; every other cluster is as it was.
   */
  function Connected(pool: seq<Cluster>, vs: seq<nat>, bubbles: seq<nat>): (r: seq<Cluster>)
    requires HandlesIn(bubbles, |pool|)
    ensures |r| == |pool|
    ensures forall h :: 0 <= h < |pool| && h !in vs ==> r[h] == pool[h]
  {
    seq(|pool|, h requires 0 <= h < |pool| =>
      if h in vs then Joined(pool[h], BurstIds(pool, bubbles, pool[h].size)) else pool[h])
  }

  /** Extending the pass by one more V cluster, not yet visited, updates that one entry. */
  lemma ConnectedStep(pool: seq<Cluster>, vs: seq<nat>, i: nat, bubbles: seq<nat>)
    requires HandlesIn(bubbles, |pool|) && HandlesIn(vs, |pool|) && Distinct(vs) && i < |vs|
    ensures Connected(pool, vs[..i], bubbles)[vs[i]] == pool[vs[i]]
    ensures Connected(pool, vs[..i + 1], bubbles)
         == Connected(pool, vs[..i], bubbles)[vs[i] := Joined(pool[vs[i]], BurstIds(pool, bubbles, pool[vs[i]].size))]
  {
    var before, after := Connected(pool, vs[..i], bubbles), Connected(pool, vs[..i + 1], bubbles);
    var joined := Joined(pool[vs[i]], BurstIds(pool, bubbles, pool[vs[i]].size));
    ConnectedPointwise(pool, vs, i, bubbles);
    assert vs[i] !in vs[..i];
    assert forall h :: 0 <= h < |pool| ==> after[h] == before[vs[i] := joined][h];
  }

  lemma ConnectedPointwise(pool: seq<Cluster>, vs: seq<nat>, i: nat, bubbles: seq<nat>)
    requires HandlesIn(bubbles, |pool|) && HandlesIn(vs, |pool|) && i < |vs|
    ensures forall h :: 0 <= h < |pool| ==>
      Connected(pool, vs[..i + 1], bubbles)[h]
      == if h == vs[i] then Joined(pool[h], BurstIds(pool, bubbles, pool[h].size))
         else Connected(pool, vs[..i], bubbles)[h]
  {
    assert vs[..i + 1] == vs[..i] + [vs[i]];
    assert forall h :: h in vs[..i + 1] <==> h in vs[..i] || h == vs[i];
  }

  /** The inner loop of the pass: one V cluster's connectivity gains every bubble of its size. */
  method ConnectBubbles(pool: seq<Cluster>, bubbles: seq<nat>, vSize: int, b: Bookkeeping) returns (r: Bookkeeping)
    requires HandlesIn(bubbles, |pool|)
    ensures r == b.(reactionConnectivity := b.reactionConnectivity + BurstIds(pool, bubbles, vSize))
  {
    r := b;
    for j := 0 to |bubbles|
      invariant HandlesIn(bubbles[..j], |pool|)
      invariant r == b.(reactionConnectivity := b.reactionConnectivity + BurstIds(pool, bubbles[..j], vSize))
    {
      assert bubbles[..j + 1][..j] == bubbles[..j];
      var bubble := pool[bubbles[j]];
      if bubble.comp.v == vSize {
        r := SetReactionConnectivity(r, bubble.id);
      }
    }
    assert bubbles[..|bubbles|] == bubbles;
  }

  /**
   * The connection pass of initialize: every V cluster of size v is
   * connected to the id of every HeV bubble whose V component is v; no other
   * cluster and nothing else in the network changes.
   */
  method ConnectVacancies(net: ReactionNetwork)
    requires net.Valid()
    modifies net`pool
    ensures net.Valid()
    ensures HandlesIn(net.clusterTypeMap.Of(HeV), |old(net.pool)|)
    ensures net.pool == Connected(old(net.pool), net.clusterTypeMap.Of(V), net.clusterTypeMap.Of(HeV))
  {
    var pool := net.pool;
    var vs := net.GetAll("V");
    var bubbles := net.GetAll("HeV");
    assert vs == net.clusterTypeMap.Of(V) && bubbles == net.clusterTypeMap.Of(HeV);
    for i := 0 to |vs|
      invariant net.Valid() && net.clusterTypeMap.Of(V) == vs && net.clusterTypeMap.Of(HeV) == bubbles
      invariant net.pool == Connected(pool, vs[..i], bubbles)
    {
      var h := vs[i];
      ConnectedStep(pool, vs, i, bubbles);
      var c := net.pool[h];
      var b := ConnectBubbles(pool, bubbles, c.size, c.book);
      net.SetBookkeeping(h, b);
    }
    assert vs[..|vs|] == vs;
  }

  // ----- initializeIndex: which bubbles burst at each grid point -----

  /** A bubble bursts at a depth when He >= 3 V and its radius exceeds the depth. */
  predicate Bursts(c: Comp, radius: real, depth: real) {
    !(c.he < c.v * 3) && radius > depth
  }

  /** The positions in `bubbles` of the bubbles that burst at `depth`, in increasing order. */
  function BurstList(pool: seq<Cluster>, bubbles: seq<nat>, radius: nat -> real, depth: real): (r: seq<nat>)
    requires HandlesIn(bubbles, |pool|)
    ensures forall j :: 0 <= j < |r| ==> r[j] < |bubbles|
    ensures forall j :: j in r <==> 0 <= j < |bubbles| && Bursts(pool[bubbles[j]].comp, radius(bubbles[j]), depth)
    ensures StrictlyIncreasing(r)
  {
    if bubbles == [] then []
    else
      var init := bubbles[..|bubbles| - 1];
      var h := bubbles[|bubbles| - 1];
      assert forall k :: 0 <= k < |init| ==> init[k] == bubbles[k];
      BurstList(pool, init, radius, depth)
        + (if Bursts(pool[h].comp, radius(h), depth) then [|bubbles| - 1] else [])
  }

  /** Looking at one more bubble appends its position when it bursts. */
  lemma BurstListStep(pool: seq<Cluster>, bubbles: seq<nat>, radius: nat -> real, depth: real, j: nat)
    requires HandlesIn(bubbles, |pool|) && j < |bubbles|
    ensures HandlesIn(bubbles[..j], |pool|) && HandlesIn(bubbles[..j + 1], |pool|)
    ensures BurstList(pool, bubbles[..j + 1], radius, depth)
         == BurstList(pool, bubbles[..j], radius, depth)
            + (if Bursts(pool[bubbles[j]].comp, radius(bubbles[j]), depth) then [j] else [])
  {
    var b := bubbles[..j + 1];
    assert b[..|b| - 1] == bubbles[..j] && b[|b| - 1] == bubbles[j];
  }

  /** The index entry of grid point i: empty up to the surface, else the bubbles bursting at its depth. */
  function IndexAt(pool: seq<Cluster>, bubbles: seq<nat>, radius: nat -> real,
                   grid: seq<real>, surfacePos: int, i: nat): seq<nat>
    requires HandlesIn(bubbles, |pool|) && 0 <= surfacePos && i < |grid|
  {
    if i <= surfacePos then [] else BurstList(pool, bubbles, radius, grid[i] - grid[surfacePos])
  }

  /** The inner loop of initializeIndex: the bubbles bursting at one depth. */
  method BurstingAt(pool: seq<Cluster>, bubbles: seq<nat>, radius: nat -> real, depth: real)
    returns (indices: seq<nat>)
    requires HandlesIn(bubbles, |pool|)
    ensures indices == BurstList(pool, bubbles, radius, depth)
  {
    indices := [];
    for j := 0 to |bubbles|
      invariant HandlesIn(bubbles[..j], |pool|)
      invariant indices == BurstList(pool, bubbles[..j], radius, depth)
    {
      BurstListStep(pool, bubbles, radius, depth, j);
      var bubble := pool[bubbles[j]];
      if bubble.comp.he < bubble.comp.v * 3 {
        continue;
      }
      if radius(bubbles[j]) > depth {
        indices := indices + [j];
      }
    }
    assert bubbles[..|bubbles|] == bubbles;
  }

  // ----- updateBurstingRate -----

  /** The largest biggest-rate among the bubbles, or 0.0 when none is larger. */
  function MaxRate(bubbles: seq<nat>, rate: nat -> real): real {
    if bubbles == [] then 0.0
    else
      var m := MaxRate(bubbles[..|bubbles| - 1], rate);
      if m < rate(bubbles[|bubbles| - 1]) then rate(bubbles[|bubbles| - 1]) else m
  }

  /** MaxRate is max(0, every rate): at least 0.0 and every rate, and 0.0 or one of the rates. */
  lemma {:induction false} MaxRateIsMaximum(bubbles: seq<nat>, rate: nat -> real)
    ensures MaxRate(bubbles, rate) >= 0.0
    ensures forall j :: 0 <= j < |bubbles| ==> rate(bubbles[j]) <= MaxRate(bubbles, rate)
    ensures MaxRate(bubbles, rate) == 0.0
            || exists j :: 0 <= j < |bubbles| && MaxRate(bubbles, rate) == rate(bubbles[j])
  {
    if bubbles != [] {
      var init := bubbles[..|bubbles| - 1];
      MaxRateIsMaximum(init, rate);
      assert forall j :: 0 <= j < |init| ==> init[j] == bubbles[j];
      if MaxRate(bubbles, rate) != 0.0 && MaxRate(init, rate) == MaxRate(bubbles, rate) {
        var j :| 0 <= j < |init| && MaxRate(init, rate) == rate(init[j]);
        assert MaxRate(bubbles, rate) == rate(bubbles[j]);
      }
    }
  }

  // ----- computeBursting -----

  /** The concentration slot of the j-th bubble: its id - 1. */
  function BubbleSlot(pool: seq<Cluster>, bubbles: seq<nat>, j: nat): int
    requires HandlesIn(bubbles, |pool|) && j < |bubbles|
  {
    pool[bubbles[j]].id - 1
  }

  /** The bubble at position j has a V cluster with its number of vacancies. */
  predicate HasVPartner(pool: seq<Cluster>, single: map<Comp, nat>, bubbles: seq<nat>, j: nat) {
    && IndexValid(single, pool) && HandlesIn(bubbles, |pool|)
    && j < |bubbles| && LookupSingle(single, "V", pool[bubbles[j]].comp.v).Some?
  }

  /** Every listed bubble has a V cluster with its number of vacancies. */
  predicate HasVPartners(pool: seq<Cluster>, single: map<Comp, nat>, bubbles: seq<nat>, list: seq<nat>) {
    forall q :: 0 <= q < |list| ==> HasVPartner(pool, single, bubbles, list[q])
  }

  /** The concentration slot of the V cluster with the j-th bubble's vacancies: its id - 1. */
  function VSlot(pool: seq<Cluster>, single: map<Comp, nat>, bubbles: seq<nat>, j: nat): int
    requires HasVPartner(pool, single, bubbles, j)
  {
    pool[LookupSingle(single, "V", pool[bubbles[j]].comp.v).value].id - 1
  }

  /** Position j of the bubble list holds a cluster of the pool. */
  predicate BubbleListed(pool: seq<Cluster>, bubbles: seq<nat>, j: nat) {
    HandlesIn(bubbles, |pool|) && j < |bubbles|
  }

  /**
   * Every listed bubble has a slot among the concentrations; a bubble whose
   * concentration there is not 0.0 also has a V cluster with a slot. A bubble
   * at 0.0 is skipped before its V cluster is looked up, so it needs none.
   */
  predicate CanBurst(pool: seq<Cluster>, single: map<Comp, nat>, bubbles: seq<nat>, list: seq<nat>, conc: seq<real>) {
    forall q :: 0 <= q < |list| ==>
      && BubbleListed(pool, bubbles, list[q])
      && 0 <= BubbleSlot(pool, bubbles, list[q]) < |conc|
      && (conc[BubbleSlot(pool, bubbles, list[q])] != 0.0 ==>
            HasVPartner(pool, single, bubbles, list[q]) && 0 <= VSlot(pool, single, bubbles, list[q]) < |conc|)
  }

  /** One move of concentration `amount` from slot `from` to slot `to`. */
  datatype Transfer = Transfer(from: nat, to: nat, amount: real)

  /**
   * The moves computeBursting makes for the listed bubbles in order: k * c
   * from each bubble whose concentration c is not 0.0 to its V cluster.
   */
  function Transfers(pool: seq<Cluster>, single: map<Comp, nat>, bubbles: seq<nat>, list: seq<nat>,
                     conc: seq<real>, k: real): (r: seq<Transfer>)
    requires CanBurst(pool, single, bubbles, list, conc)
    ensures |r| <= |list|
    ensures forall t :: t in r ==> t.from < |conc| && t.to < |conc| && conc[t.from] != 0.0 && t.amount == k * conc[t.from]
  {
    if list == [] then []
    else
      var init := list[..|list| - 1];
      var j := list[|list| - 1];
      assert forall q :: 0 <= q < |init| ==> init[q] == list[q];
      Transfers(pool, single, bubbles, init, conc, k)
        + (if conc[BubbleSlot(pool, bubbles, j)] == 0.0 then [] else [MoveOf(pool, single, bubbles, j, conc, k)])
  }

  /** The move of the j-th bubble: k times its concentration, from its slot to its V cluster's slot. */
  function MoveOf(pool: seq<Cluster>, single: map<Comp, nat>, bubbles: seq<nat>, j: nat,
                  conc: seq<real>, k: real): (t: Transfer)
    requires HasVPartner(pool, single, bubbles, j)
    requires 0 <= BubbleSlot(pool, bubbles, j) < |conc| && 0 <= VSlot(pool, single, bubbles, j) < |conc|
    ensures t.from < |conc| && t.to < |conc| && t.amount == k * conc[t.from]
  {
    Transfer(BubbleSlot(pool, bubbles, j), VSlot(pool, single, bubbles, j), k * conc[BubbleSlot(pool, bubbles, j)])
  }

  /** The concentrations after one move. */
  function Move(u: seq<real>, t: Transfer): (r: seq<real>)
    requires t.from < |u| && t.to < |u|
    ensures |r| == |u|
  {
    Added(Added(u, t.from, -t.amount), t.to, t.amount)
  }

  /** The concentrations with `d` added at slot p. */
  function Added(u: seq<real>, p: nat, d: real): (r: seq<real>)
    requires p < |u|
    ensures |r| == |u|
  {
    u[p := u[p] + d]
  }

  /** The concentrations after the moves, made in order. */
  function ApplyTransfers(u: seq<real>, ts: seq<Transfer>): (r: seq<real>)
    requires forall t :: t in ts ==> t.from < |u| && t.to < |u|
    ensures |r| == |u|
  {
    if ts == [] then u
    else
      assert forall t :: t in ts[..|ts| - 1] ==> t in ts;
      Move(ApplyTransfers(u, ts[..|ts| - 1]), ts[|ts| - 1])
  }

  /** Making one more move applies it to the outcome of the earlier ones. */
  lemma ApplyStep(u: seq<real>, ts: seq<Transfer>, t: Transfer)
    requires forall x :: x in ts ==> x.from < |u| && x.to < |u|
    requires t.from < |u| && t.to < |u|
    ensures forall x :: x in ts + [t] ==> x.from < |u| && x.to < |u|
    ensures ApplyTransfers(u, ts + [t]) == Move(ApplyTransfers(u, ts), t)
  {
    assert (ts + [t])[..|ts|] == ts;
  }

  /** The total of a list of concentrations. */
  function Sum(s: seq<real>): real {
    SumTo(s, |s|)
  }

  /** The total of the first n concentrations. */
  function SumTo(s: seq<real>, n: nat): real
    requires n <= |s|
  {
    if n == 0 then 0.0 else SumTo(s, n - 1) + s[n - 1]
  }

  /** Adding d at slot i adds d to every partial total that includes slot i. */
  lemma {:induction false} SumToAdded(s: seq<real>, i: nat, d: real, n: nat)
    requires i < |s| && n <= |s|
    ensures SumTo(Added(s, i, d), n) == SumTo(s, n) + (if i < n then d else 0.0)
  {
    if n > 0 {
      SumToAdded(s, i, d, n - 1);
    }
  }

  /** Adding d at one slot adds d to the total. */
  lemma SumAdded(s: seq<real>, i: nat, d: real)
    requires i < |s|
    ensures Sum(Added(s, i, d)) == Sum(s) + d
  {
    SumToAdded(s, i, d, |s|);
  }

  /** A move takes from one slot what it gives to another: the total is unchanged. */
  lemma MoveConserves(u: seq<real>, t: Transfer)
    requires t.from < |u| && t.to < |u|
    ensures Sum(Move(u, t)) == Sum(u)
  {
    SumAdded(u, t.from, -t.amount);
    SumAdded(Added(u, t.from, -t.amount), t.to, t.amount);
  }

  /** Bubble bursting conserves the total concentration, whatever the moves. */
  lemma {:induction false} BurstingConserves(u: seq<real>, ts: seq<Transfer>)
    requires forall t :: t in ts ==> t.from < |u| && t.to < |u|
    ensures Sum(ApplyTransfers(u, ts)) == Sum(u)
  {
    if ts != [] {
      assert forall t :: t in ts[..|ts| - 1] ==> t in ts;
      BurstingConserves(u, ts[..|ts| - 1]);
      MoveConserves(ApplyTransfers(u, ts[..|ts| - 1]), ts[|ts| - 1]);
    }
  }

  /** A slot that no move touches keeps its concentration. */
  lemma {:induction false} UntouchedSlot(u: seq<real>, ts: seq<Transfer>, p: nat)
    requires forall t :: t in ts ==> t.from < |u| && t.to < |u|
    requires p < |u| && forall t :: t in ts ==> t.from != p && t.to != p
    ensures ApplyTransfers(u, ts)[p] == u[p]
  {
    if ts != [] {
      assert forall t :: t in ts[..|ts| - 1] ==> t in ts;
      UntouchedSlot(u, ts[..|ts| - 1], p);
    }
  }

  /** Listing one more bubble adds its move, unless its concentration is 0.0. */
  lemma TransfersStep(pool: seq<Cluster>, single: map<Comp, nat>, bubbles: seq<nat>, list: seq<nat>,
                      conc: seq<real>, k: real, i: nat)
    requires CanBurst(pool, single, bubbles, list, conc) && i < |list|
    ensures CanBurst(pool, single, bubbles, list[..i], conc) && CanBurst(pool, single, bubbles, list[..i + 1], conc)
    ensures conc[BubbleSlot(pool, bubbles, list[i])] == 0.0 ==>
              Transfers(pool, single, bubbles, list[..i + 1], conc, k) == Transfers(pool, single, bubbles, list[..i], conc, k)
    ensures conc[BubbleSlot(pool, bubbles, list[i])] != 0.0 ==>
              Transfers(pool, single, bubbles, list[..i + 1], conc, k)
              == Transfers(pool, single, bubbles, list[..i], conc, k) + [MoveOf(pool, single, bubbles, list[i], conc, k)]
  {
    var l := list[..i + 1];
    assert forall q :: 0 <= q <= i ==> l[q] == list[q];
    assert l[..|l| - 1] == list[..i] && l[|l| - 1] == list[i];
  }

  /** The two writes of one bubble's burst: the bubble's slot loses the amount, its V cluster's slot gains it. */
  method MoveConcentration(a: array<real>, t: Transfer)
    requires t.from < a.Length && t.to < a.Length
    modifies a
    ensures a[..] == Move(old(a[..]), t)
  {
    a[t.from] := a[t.from] - t.amount;
    a[t.to] := a[t.to] + t.amount;
  }

  /**
   * The two entries of the i-th listed bubble: (bubble slot, -k) at 2i and
   * (V cluster slot, +k) at 2i + 1; every other entry is left as it was.
   */
  method WritePartials(vals: array<real>, indices: array<int>, i: nat, bubbleIndex: int, vIndex: int, k: real)
    requires 2 * i + 1 < vals.Length && 2 * i + 1 < indices.Length
    modifies vals, indices
    ensures indices[2 * i] == bubbleIndex && vals[2 * i] == -k
    ensures indices[2 * i + 1] == vIndex && vals[2 * i + 1] == k
    ensures forall p :: 0 <= p < vals.Length && p != 2 * i && p != 2 * i + 1 ==> vals[p] == old(vals[p])
    ensures forall p :: 0 <= p < indices.Length && p != 2 * i && p != 2 * i + 1 ==> indices[p] == old(indices[p])
  {
    indices[i * 2] := bubbleIndex;
    vals[i * 2] := -k;
    indices[i * 2 + 1] := vIndex;
    vals[i * 2 + 1] := k;
  }

  class BubbleBurstingHandler {
    /** For each grid point, the positions in the HeV list of the bubbles that burst there. */
    var indexVector: seq<seq<nat>>
    /** The bursting rate constant. */
    var kBursting: real

    constructor ()
      ensures indexVector == [] && kBursting == 0.0
    {
      indexVector := [];
      kBursting := 0.0;
    }

    /**
     * initialize: connects the V clusters to their bubbles, then fills the
     * index and the rate from the connected network.
     */
    method Initialize(surfacePos: int, net: ReactionNetwork, grid: seq<real>,
                      radius: nat -> real, rate: nat -> real)
      requires net.Valid() && 0 <= surfacePos
      modifies this`indexVector, this`kBursting, net`pool
      ensures net.Valid()
      ensures HandlesIn(net.clusterTypeMap.Of(HeV), |old(net.pool)|)
      ensures net.pool == Connected(old(net.pool), net.clusterTypeMap.Of(V), net.clusterTypeMap.Of(HeV))
      ensures |indexVector| == |grid|
      ensures forall i :: 0 <= i < |grid| ==>
                indexVector[i] == IndexAt(net.pool, net.clusterTypeMap.Of(HeV), radius, grid, surfacePos, i)
      ensures kBursting == 1000.0 * MaxRate(net.clusterTypeMap.Of(HeV), rate)
    {
      ConnectVacancies(net);
      InitializeIndex(surfacePos, net, grid, radius);
      UpdateBurstingRate(net, rate);
    }

    /**
     * initializeIndex: one entry per grid point; empty at and before the
     * surface, and beyond it the bubbles that burst at that point's depth
     * below the surface.
     */
    method InitializeIndex(surfacePos: int, net: ReactionNetwork, grid: seq<real>, radius: nat -> real)
      requires net.Valid() && 0 <= surfacePos
      modifies this`indexVector
      ensures |indexVector| == |grid|
      ensures forall i :: 0 <= i < |grid| ==>
                indexVector[i] == IndexAt(net.pool, net.clusterTypeMap.Of(HeV), radius, grid, surfacePos, i)
    {
      var bubbles := net.GetAll("HeV");
      assert bubbles == net.clusterTypeMap.Of(HeV);
      var index: seq<seq<nat>> := [];
      for i := 0 to |grid|
        invariant |index| == i
        invariant forall p :: 0 <= p < i ==> index[p] == IndexAt(net.pool, bubbles, radius, grid, surfacePos, p)
      {
        if i <= surfacePos {
          index := index + [[]];
          continue;
        }
        var depth := grid[i] - grid[surfacePos];
        var indices := BurstingAt(net.pool, bubbles, radius, depth);
        index := index + [indices];
      }
      indexVector := index;
    }

    /** updateBurstingRate: 1000 times the largest biggest-rate of the bubbles, or 0.0 if none is positive. */
    method UpdateBurstingRate(net: ReactionNetwork, rate: nat -> real)
      requires net.Valid()
      modifies this`kBursting
      ensures kBursting == 1000.0 * MaxRate(net.clusterTypeMap.Of(HeV), rate)
    {
      var bubbles := net.GetAll("HeV");
      assert bubbles == net.clusterTypeMap.Of(HeV);
      var k := 0.0;
      for j := 0 to |bubbles|
        invariant k == MaxRate(bubbles[..j], rate)
      {
        assert bubbles[..j + 1][..j] == bubbles[..j];
        var r := rate(bubbles[j]);
        if k < r {
          k := r;
        }
      }
      assert bubbles[..|bubbles|] == bubbles;
      kBursting := 1000.0 * k;
    }

    /**
     * computeBursting at grid point xi: each listed bubble whose old
     * concentration c is not 0.0 loses k * c, which its V cluster gains.
     */
    method ComputeBursting(net: ReactionNetwork, xi: int, concOffset: array<real>, updatedConcOffset: array<real>)
      requires net.Valid() && 0 <= xi < |indexVector|
      requires concOffset != updatedConcOffset && updatedConcOffset.Length == concOffset.Length
      requires CanBurst(net.pool, net.singleSpeciesMap, net.clusterTypeMap.Of(HeV), indexVector[xi], concOffset[..])
      modifies updatedConcOffset
      ensures updatedConcOffset[..]
           == ApplyTransfers(old(updatedConcOffset[..]),
                Transfers(net.pool, net.singleSpeciesMap, net.clusterTypeMap.Of(HeV), indexVector[xi],
                          concOffset[..], kBursting))
    {
      var bubbles := net.GetAll("HeV");
      assert bubbles == net.clusterTypeMap.Of(HeV);
      var pool, single, list, conc, k := net.pool, net.singleSpeciesMap, indexVector[xi], concOffset[..], kBursting;
      var u := updatedConcOffset[..];
      for i := 0 to |list|
        invariant CanBurst(pool, single, bubbles, list[..i], conc)
        invariant updatedConcOffset[..] == ApplyTransfers(u, Transfers(pool, single, bubbles, list[..i], conc, k))
      {
        TransfersStep(pool, single, bubbles, list, conc, k, i);
        var bubbleIndex := BubbleSlot(pool, bubbles, list[i]);
        var oldConc := conc[bubbleIndex];
        if oldConc == 0.0 {
          continue;
        }
        // the bubble's slot loses k * oldConc and the slot of the V cluster with its vacancies gains it
        var t := MoveOf(pool, single, bubbles, list[i], conc, k);
        ApplyStep(u, Transfers(pool, single, bubbles, list[..i], conc, k), t);
        MoveConcentration(updatedConcOffset, t);
      }
      assert list[..|list|] == list;
    }

    /**
     * computePartialsForBursting at grid point xi: for the i-th listed
     * bubble, slot 2i holds (bubble slot, -k) and slot 2i + 1 holds
     * (V cluster slot, +k); returns the number of listed bubbles.
     */
    method ComputePartialsForBursting(net: ReactionNetwork, vals: array<real>, indices: array<int>, xi: int)
      returns (n: int)
      requires net.Valid() && 0 <= xi < |indexVector|
      requires HasVPartners(net.pool, net.singleSpeciesMap, net.clusterTypeMap.Of(HeV), indexVector[xi])
      requires vals.Length >= 2 * |indexVector[xi]| && indices.Length >= 2 * |indexVector[xi]|
      modifies vals, indices
      ensures n == |indexVector[xi]|
      ensures forall i :: 0 <= i < n ==>
                && indices[2 * i] == BubbleSlot(net.pool, net.clusterTypeMap.Of(HeV), indexVector[xi][i])
                && vals[2 * i] == -kBursting
                && indices[2 * i + 1] == VSlot(net.pool, net.singleSpeciesMap, net.clusterTypeMap.Of(HeV), indexVector[xi][i])
                && vals[2 * i + 1] == kBursting
      ensures forall p :: 2 * n <= p < vals.Length ==> vals[p] == old(vals[p])
      ensures forall p :: 2 * n <= p < indices.Length ==> indices[p] == old(indices[p])
    {
      var bubbles := net.GetAll("HeV");
      assert bubbles == net.clusterTypeMap.Of(HeV);
      var pool, single, list, k := net.pool, net.singleSpeciesMap, indexVector[xi], kBursting;
      for i := 0 to |list|
        invariant forall q :: 0 <= q < i ==>
                    && indices[2 * q] == BubbleSlot(pool, bubbles, list[q])
                    && vals[2 * q] == -k
                    && indices[2 * q + 1] == VSlot(pool, single, bubbles, list[q])
                    && vals[2 * q + 1] == k
        invariant forall p :: 2 * i <= p < vals.Length ==> vals[p] == old(vals[p])
        invariant forall p :: 2 * i <= p < indices.Length ==> indices[p] == old(indices[p])
      {
        assert HasVPartner(pool, single, bubbles, list[i]);
        var bubbleIndex := BubbleSlot(pool, bubbles, list[i]);
        var vIndex := VSlot(pool, single, bubbles, list[i]);
        WritePartials(vals, indices, i, bubbleIndex, vIndex, k);
      }
      n := |list|;
    }
  }
}
