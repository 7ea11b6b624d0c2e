# Xolotl PSI reaction network — a Dafny model

Xolotl simulates how plasma-facing tungsten evolves under helium
irradiation. It tracks the concentrations of defect clusters:
helium (He), vacancies (V), self-interstitials (I), and the mixed
helium–vacancy (HeV) and helium–interstitial (HeI) clusters. This project
models the core of that simulator. The model covers:

- **The cluster reaction network** (`Network`, `NetworkCopy`). The network
  adds clusters, looks them up by type and size or by composition, removes
  them, renumbers them, and keeps a string-valued property table. Its
  counters are the decimal numerals `std::stoi`/`std::to_string` read and
  write (`Decimal`). The copy constructor is modelled too.
- **Compositions and reaction rules** (`Composition`, `HeVClusterModel`,
  `HeIClusterModel`). These cover:
  - the size clamp;
  - vacancy–interstitial annihilation (`fillVWithI`);
  - partial replacement in a compound;
  - the HeV trap-mutation reaction.
- **The reaction bookkeeping each cluster carries** (`Reactions`). This is
  the reacting, combining, dissociating and emission lists, their
  "effective" (non-zero rate) subsets, the connectivity sets and arrays, and
  the identity between sums over the effective lists and over the full lists.
- **The helium cluster's connectivity passes** (`HeClusterModel`). These
  are its reacting pairs, its combining partners, and its dissociation of
  HeV/HeI clusters into a one-He-smaller cluster plus He_1.
- **The bubble-bursting handler** (`BubbleBursting`). It connects V clusters
  to HeV bubbles, indexes which bubbles burst near the surface, and moves
  bubble concentration to the V cluster of the same vacancy count.
- **The displacement handler** (`Displacement`). It builds a fit-shaped,
  normalised initial profile and locates V_1.
- **The standard performance-handler registry** (`PerfRegistry`). This
  covers finding or creating event counters, and the NUL-terminated name
  packing, gather displacements and name unpacking of `CollectObjectNames`.

Objects whose fields the source updates in place are classes:
`ReactionNetwork`, `BubbleBurstingHandler`, `DisplacementHandler`,
`StdHandlerRegistry` and `EventCounter`. Pure rules are datatypes and
functions. Loops are methods proved against specification functions.

Clusters are referred to by their handle, an index into the network's
`pool` of clusters. This stands in for the C++ raw pointers.

The following are parameters rather than computed values:

- physical functions: the reaction radius, the biggest rate, the fit
  function and the rate constants;
- MPI results: the gathered byte counts and buffers;
- the statistics constructor.

## Model

| member | source | states |
|---|---|---|
| Decimal.DigitChar | branches/sectional_branch/xolotl/xolotlCore/reactants/psiclusters/PSIClusterReactionNetwork.cpp:291-298 | a digit value below 10 maps to a decimal digit character |
| Decimal.DigitValue | branches/sectional_branch/xolotl/xolotlCore/reactants/psiclusters/PSIClusterReactionNetwork.cpp:291-298 | a digit character maps to a value below 10 |
| Decimal.DigitRoundTrip | branches/sectional_branch/xolotl/xolotlCore/reactants/psiclusters/PSIClusterReactionNetwork.cpp:291-298 | reading back the character written for a digit gives the digit |
| Decimal.NatToString | branches/sectional_branch/xolotl/xolotlCore/reactants/psiclusters/PSIClusterReactionNetwork.cpp:293 | `to_string` of a count is always a well-formed numeral |
| Decimal.StringToNatOfNatToString | branches/sectional_branch/xolotl/xolotlCore/reactants/psiclusters/PSIClusterReactionNetwork.cpp:291-298 | `stoi(to_string(n)) == n`: a counter stored as text reads back as the same count |
| Composition.SpeciesNamed | src/xolotlCore/reactants/psiclusters/PSICluster.h:24-26 | every type name He, V, I, HeV, HeI, PSISuper names exactly one species |
| Composition.TypeNameInjective | src/xolotlCore/reactants/psiclusters/PSICluster.h:24-26 | two species with the same type name are the same species |
| Composition.SingleComp | branches/sectional_branch/xolotl/xolotlCore/reactants/psiclusters/PSIClusterReactionNetwork.cpp:131-154 | the composition of a single-species cluster of a given size has that total size and is not mixed |
| Composition.ClampSize | src/xolotlCore/reactants/psiclusters/PSICluster.h:21-22 | a size of zero or less becomes 1; a positive size is kept |
| Composition.CompLessTotal | branches/sectional_branch/xolotl/xolotlCore/reactants/psiclusters/PSIClusterReactionNetwork.cpp:79-111 | the order on compositions used to iterate the maps is total and antisymmetric |
| Composition.CompLessTransitive | branches/sectional_branch/xolotl/xolotlCore/reactants/psiclusters/PSIClusterReactionNetwork.cpp:79-111 | that order is transitive |
| Composition.MinimumExists | branches/sectional_branch/xolotl/xolotlCore/reactants/psiclusters/PSIClusterReactionNetwork.cpp:79-111 | every non-empty set of compositions has a least element, so ordered iteration is possible |
| Composition.FillVWithI | src/xolotlCore/reactants/psiclusters/PSICluster.h:246-272 | I_a + V_b gives I_(a-b) if a > b, V_(b-a) if a < b, nothing iff a = b; the net V−I defect count and He are conserved |
| Composition.FillVWithISymmetric | src/xolotlCore/reactants/psiclusters/PSICluster.h:255 | I_a + V_b and V_b + I_a give the same product |
| Composition.ReplaceInCompound | src/xolotlCore/reactants/psiclusters/PSICluster.h:224-244 | (A_x)(B_y) + C_z keeps the helium, lowers the replaced component by z and conserves He and the V−I balance |
| HeVClusterModel.HeVComp | src/xolotlCore/reactants/psiclusters/HeVCluster.h:71-83 | an HeV composition has no interstitials and the given He and V counts |
| HeVClusterModel.NewHeVCluster | src/xolotlCore/reactants/psiclusters/HeVCluster.h:71-83 | the constructor gives an HeV cluster with that composition and empty bookkeeping |
| HeVClusterModel.HeVMixedAgrees | src/xolotlCore/reactants/psiclusters/HeVCluster.h:102-108 | the network files an HeV cluster as mixed iff both counts are positive; the default (0, 0) is not mixed |
| HeVClusterModel.ReplaceVacancies | src/xolotlCore/reactants/psiclusters/HeVCluster.h:32-49 | replacing z vacancies by interstitials conserves species; the result stays HeV while z < numV and becomes He_numHe at z = numV |
| HeVClusterModel.TrapMutation | src/xolotlCore/reactants/psiclusters/HeVCluster.h:51-67 | He_c + (He_a)(V_b) trap-mutates iff [He_(a+c)](V_b) is absent; the products are He_(a+c) V_(b+1) and one I |
| HeVClusterModel.TrapMutationConserves | src/xolotlCore/reactants/psiclusters/HeVCluster.h:55 | trap mutation conserves helium and the V−I defect balance |
| HeVClusterModel.TrapMutationExclusive | src/xolotlCore/reactants/psiclusters/HeVCluster.h:55-57 | for a real bubble and c > 0, the trap mutation happens exactly when the plain product is missing, and its bubble product is a mixed HeV cluster |
| HeIClusterModel.HeIComp | src/xolotlCore/reactants/psiclusters/HeInterstitialCluster.h:53-65 | an HeI composition has no vacancies and the given He and I counts |
| HeIClusterModel.NewHeICluster | src/xolotlCore/reactants/psiclusters/HeInterstitialCluster.h:53-65 | the constructor gives an HeI cluster with that composition and empty bookkeeping |
| HeIClusterModel.HeIMixedAgrees | src/xolotlCore/reactants/psiclusters/HeInterstitialCluster.h:84-90 | the network files an HeI cluster as mixed iff both counts are positive; the default is not mixed |
| HeIClusterModel.HeIFourTwo | trunk/xolotl/tests/reactants/HeInterstitialClusterTester.cpp:31-41 | HeI(4, 2) has composition He 4, V 0, I 2 |
| HeIClusterModel.ReplaceInterstitials | src/xolotlCore/reactants/psiclusters/HeInterstitialCluster.h:32-49 | replacing z interstitials by vacancies conserves species; the result stays HeI while z < numI and becomes He_numHe at z = numI |
| Reactions.MakePair | src/xolotlCore/reactants/psiclusters/PSICluster.h:85-87 | a new ClusterPair holds its two clusters and rate, with all group distances 0.0 |
| Reactions.MakeCombining | src/xolotlCore/reactants/psiclusters/PSICluster.h:122-123 | a new CombiningCluster holds its cluster and rate, with both distances 0.0 |
| Reactions.NonZeroIndices | src/xolotlCore/reactants/psiclusters/PSICluster.h:308-313 | the effective subset is exactly the positions whose rate is non-zero, in increasing order |
| Reactions.EffectiveIndices | src/xolotlCore/reactants/psiclusters/PSICluster.h:587-599 | the loop that rebuilds an effective list computes exactly the non-zero-rate positions |
| Reactions.RefreshEffective | src/xolotlCore/reactants/psiclusters/PSICluster.h:308-361 | after a refresh all four effective lists match the current rates; the reaction lists and connectivity are untouched |
| Reactions.WithRates | src/xolotlCore/reactants/psiclusters/PSICluster.h:587-599 | setting rates on pairs changes only each pair's kConstant |
| Reactions.WithCombiningRates | src/xolotlCore/reactants/psiclusters/PSICluster.h:587-599 | setting rates on combining entries changes only each entry's kConstant |
| Reactions.UpdateRateConstants | src/xolotlCore/reactants/psiclusters/PSICluster.h:594-599 | after a rate update the lists keep their structure, carry the new constants, and every effective list is up to date |
| Reactions.SetReactionConnectivity | src/xolotlCore/reactants/psiclusters/PSICluster.h:274-282 | connecting an id adds it to the reaction connectivity set and changes nothing else |
| Reactions.ConnectivityArray | src/xolotlCore/reactants/psiclusters/PSICluster.h:398-406 | the connectivity array has one entry per cluster of the network |
| Reactions.GetConnectivityArray | src/xolotlCore/reactants/psiclusters/PSICluster.h:398-416 | each entry is 0 or 1, and entry j is 1 iff the cluster with id j+1 is connected |
| Reactions.GetConnectivity | src/xolotlCore/reactants/psiclusters/PSICluster.h:572-585 | entry j is 1 iff id j+1 is connected by a reaction or by a dissociation |
| Reactions.GetConnectivitySet | src/xolotlCore/reactants/psiclusters/PSICluster.h:274-291 | the set holds exactly the ids whose array entry is non-zero |
| Reactions.ConnectivityRoundTrip | src/xolotlCore/reactants/psiclusters/PSICluster.h:274-291 | turning a connectivity set into an array and back gives the set's ids in range 1..n |
| Reactions.EffectiveSumIsFullSum | src/xolotlCore/reactants/psiclusters/PSICluster.h:308-313 | summing a flux term over the effective subset equals summing it over the full list when zero-rate entries contribute nothing |
| Reactions.UpToDateInRange | src/xolotlCore/reactants/psiclusters/PSICluster.h:308-361 | effective lists that are up to date only index entries of their lists |
| Network.KeyNameRoundTrip | branches/sectional_branch/xolotl/xolotlCore/reactants/psiclusters/PSIClusterReactionNetwork.cpp:26-38 | every property key name reads back as its key; the counter keys are exactly the reserved names |
| Network.KeyNamesDistinct | branches/sectional_branch/xolotl/xolotlCore/reactants/psiclusters/PSIClusterReactionNetwork.cpp:26-38 | distinct property keys have distinct names |
| Network.Tally.With | branches/sectional_branch/xolotl/xolotlCore/reactants/psiclusters/PSIClusterReactionNetwork.cpp:290-298 | updating one family's counter leaves every other family's counter unchanged |
| Network.SpeciesLists.With | branches/sectional_branch/xolotl/xolotlCore/reactants/psiclusters/PSIClusterReactionNetwork.cpp:303-306 | replacing one type's list in the cluster type map leaves the others unchanged |
| Network.ZeroText | branches/sectional_branch/xolotl/xolotlCore/reactants/psiclusters/PSIClusterReactionNetwork.cpp:28-38 | the default counter text "0" is the numeral of 0 |
| Network.AddFamilyRule | branches/sectional_branch/xolotl/xolotlCore/reactants/psiclusters/PSIClusterReactionNetwork.cpp:251-281 | a mixed cluster is counted as HeV iff it has vacancies, otherwise HeI; a single one as He, else V, else I; never as a super cluster |
| Network.AppendKeepsLists | branches/sectional_branch/xolotl/xolotlCore/reactants/psiclusters/PSIClusterReactionNetwork.cpp:300-308 | appending a cluster to the pool, the all-reactants list and its type list keeps every list well formed, and keeps each type list equal to the clusters of that type in the all-reactants list, in order |
| Network.AppendSelects | branches/sectional_branch/xolotl/xolotlCore/reactants/psiclusters/PSIClusterReactionNetwork.cpp:303-308 | appending a handle to the all-reactants list extends the selection of a type by that handle exactly when the new cluster is of that type |
| Network.AppendKeepsIndices | branches/sectional_branch/xolotl/xolotlCore/reactants/psiclusters/PSIClusterReactionNetwork.cpp:300-308 | appending to the pool keeps the composition maps valid |
| Network.FileKeepsIndices | branches/sectional_branch/xolotl/xolotlCore/reactants/psiclusters/PSIClusterReactionNetwork.cpp:254-281 | filing a new cluster in the mixed or the single map by its composition keeps the maps valid |
| Network.FileSuperKeepsIndices | branches/sectional_branch/xolotl/xolotlCore/reactants/psiclusters/PSIClusterReactionNetwork.cpp:341-346 | filing a mixed composition in the super map keeps the maps valid |
| Network.AppendKeepsIds | branches/sectional_branch/xolotl/xolotlCore/reactants/psiclusters/PSIClusterReactionNetwork.cpp:300-302 | giving the appended cluster id networkSize+1 keeps the ids 1..n dense in order |
| Network.SameShapeKeepsValidity | branches/sectional_branch/xolotl/xolotlCore/reactants/psiclusters/PSIClusterReactionNetwork.cpp:407-429 | changing only ids and momenta keeps the network's lists and maps valid |
| Network.LookupSingle | branches/sectional_branch/xolotl/xolotlCore/reactants/psiclusters/PSIClusterReactionNetwork.cpp:131-154 | a single-species lookup succeeds iff the name is He, V or I, the size is positive and that composition is filed |
| Network.LookupCompound | branches/sectional_branch/xolotl/xolotlCore/reactants/psiclusters/PSIClusterReactionNetwork.cpp:156-181 | a compound lookup succeeds iff the name is HeV or HeI, three sizes are given and that composition is filed |
| Network.LookupSuper | branches/sectional_branch/xolotl/xolotlCore/reactants/psiclusters/PSIClusterReactionNetwork.cpp:183-208 | a super lookup succeeds iff the name is PSISuper, three sizes are given and that composition is filed |
| Network.FirstMatch | branches/sectional_branch/xolotl/xolotlCore/reactants/psiclusters/PSIClusterReactionNetwork.cpp:371-399 | the result is the first position whose cluster has the given type and composition, or none if no position matches |
| Network.RemoveAt | branches/sectional_branch/xolotl/xolotlCore/reactants/psiclusters/PSIClusterReactionNetwork.cpp:371-383 | erasing one position removes exactly that element and keeps the order of the rest |
| Network.BookUpdateKeepsValidity | src/xolotlCore/reactants/psiclusters/PSICluster.h:300-361 | replacing a cluster's reaction bookkeeping keeps the network valid and its ids dense |
| Network.ReactionNetwork.Property | branches/sectional_branch/xolotl/xolotlCore/reactants/psiclusters/PSIClusterReactionNetwork.cpp:291-298 | every counter reads as a numeral whose value is the count; any other key reads as stored, or is absent |
| Network.ReactionNetwork.constructor | branches/sectional_branch/xolotl/xolotlCore/reactants/psiclusters/PSIClusterReactionNetwork.cpp:10-77 | a new network is empty, valid, with every counter "0", the default flags, names He, V, I and compound names HeV, HeI, PSISuper |
| Network.ReactionNetwork.Get | branches/sectional_branch/xolotl/xolotlCore/reactants/psiclusters/PSIClusterReactionNetwork.cpp:131-154 | `get` finds a cluster iff the name is single-species, the size positive and that cluster present; the found cluster has that composition |
| Network.ReactionNetwork.GetCompound | branches/sectional_branch/xolotl/xolotlCore/reactants/psiclusters/PSIClusterReactionNetwork.cpp:156-181 | `getCompound` finds a cluster iff the name is HeV or HeI, three sizes are given and it is present; the found cluster is mixed with that composition |
| Network.ReactionNetwork.GetSuper | branches/sectional_branch/xolotl/xolotlCore/reactants/psiclusters/PSIClusterReactionNetwork.cpp:183-208 | `getSuper` finds a cluster iff the name is PSISuper, three sizes are given and it is present |
| Network.ReactionNetwork.GetAll | branches/sectional_branch/xolotl/xolotlCore/reactants/psiclusters/PSIClusterReactionNetwork.cpp:214-231 | `getAll(name)` for a known type name is exactly the clusters of that type in the all-reactants list, distinct and in insertion order; nothing for an unknown name |
| Network.ReactionNetwork.Add | branches/sectional_branch/xolotl/xolotlCore/reactants/psiclusters/PSIClusterReactionNetwork.cpp:233-312 | a duplicate composition fails and changes nothing; otherwise the cluster gets id networkSize+1, is appended to both lists and filed by composition, its family counter goes up by one and the max size becomes the larger of the two; ids stay dense |
| Network.ReactionNetwork.AddNew | branches/sectional_branch/xolotl/xolotlCore/reactants/psiclusters/PSIClusterReactionNetwork.cpp:289-309 | the state change `add` makes for a new cluster |
| Network.ReactionNetwork.AddEntry | branches/sectional_branch/xolotl/xolotlCore/reactants/psiclusters/PSIClusterReactionNetwork.cpp:254-281 | appending and filing a cluster keeps the lists and maps valid |
| Network.ReactionNetwork.CountCluster | branches/sectional_branch/xolotl/xolotlCore/reactants/psiclusters/PSIClusterReactionNetwork.cpp:290-298 | only the family's count (+1) and max size change |
| Network.ReactionNetwork.Append | branches/sectional_branch/xolotl/xolotlCore/reactants/psiclusters/PSIClusterReactionNetwork.cpp:299-308 | the id, size and the two lists change as `add` prescribes, keeping validity and dense ids |
| Network.ReactionNetwork.AddSuper | branches/sectional_branch/xolotl/xolotlCore/reactants/psiclusters/PSIClusterReactionNetwork.cpp:314-364 | a non-mixed or already-present composition fails and changes nothing; otherwise the cluster is appended and filed in the super map, and only the super count changes |
| Network.ReactionNetwork.AddSuperNew | branches/sectional_branch/xolotl/xolotlCore/reactants/psiclusters/PSIClusterReactionNetwork.cpp:349-360 | the state change `addSuper` makes for a new super cluster |
| Network.ReactionNetwork.FindFirstMatch | branches/sectional_branch/xolotl/xolotlCore/reactants/psiclusters/PSIClusterReactionNetwork.cpp:371-383 | the search loop returns the first matching position |
| Network.ReactionNetwork.FirstMatchIsFirst | branches/sectional_branch/xolotl/xolotlCore/reactants/psiclusters/PSIClusterReactionNetwork.cpp:371-383 | a position preceded only by non-matches and itself matching is the first match; with no match the result is none |
| Network.ReactionNetwork.RemoveReactant | branches/sectional_branch/xolotl/xolotlCore/reactants/psiclusters/PSIClusterReactionNetwork.cpp:366-405 | the first matching entry is removed from the all-reactants list and from its type list, and the composition leaves the mixed map |
| Network.OfKindInRemove | branches/sectional_branch/xolotl/xolotlCore/reactants/psiclusters/PSIClusterReactionNetwork.cpp:366-405 | erasing the first cluster of a type and composition from the all-reactants list and then selecting a type is the same as erasing it from that type's selection, and changes no other type's selection |
| Network.RemoveKeepsSelected | branches/sectional_branch/xolotl/xolotlCore/reactants/psiclusters/PSIClusterReactionNetwork.cpp:366-405 | after removeReactant's two erasures each type list is still the selection of its type from the all-reactants list |
| Network.ReactionNetwork.EraseFirstMatch | branches/sectional_branch/xolotl/xolotlCore/reactants/psiclusters/PSIClusterReactionNetwork.cpp:386-399 | erasing the first match keeps the list distinct and of its type |
| Network.ReactionNetwork.SetProperty | branches/sectional_branch/xolotl/xolotlCore/reactants/psiclusters/PSIClusterReactionNetwork.cpp:440-455 | a non-empty key and value are stored unless the key is a reserved counter; otherwise nothing changes |
| Network.ReactionNetwork.SetBookkeeping | src/xolotlCore/reactants/psiclusters/PSICluster.h:300-361 | replacing one cluster's bookkeeping keeps the network valid and its ids dense |
| Network.ReactionNetwork.ReinitializeNetwork | branches/sectional_branch/xolotl/xolotlCore/reactants/psiclusters/PSIClusterReactionNetwork.cpp:407-429 | every cluster gets id and momenta k+1 by its position in the all-reactants list; the j-th super gets momenta n+2j+1 and n+2j+2 |
| Network.ReactionNetwork.RenumberAll | branches/sectional_branch/xolotl/xolotlCore/reactants/psiclusters/PSIClusterReactionNetwork.cpp:410-418 | the first loop numbers ids and both momenta 1..n in list order |
| Network.ReactionNetwork.NumberSuperMomenta | branches/sectional_branch/xolotl/xolotlCore/reactants/psiclusters/PSIClusterReactionNetwork.cpp:421-426 | the second loop gives the super momenta after n, two per super, and keeps every id |
| NetworkCopy.OrderedKeys | branches/sectional_branch/xolotl/xolotlCore/reactants/psiclusters/PSIClusterReactionNetwork.cpp:92-105 | the map's keys are visited in ascending order, each exactly once |
| NetworkCopy.SortedDistinct | branches/sectional_branch/xolotl/xolotlCore/reactants/psiclusters/PSIClusterReactionNetwork.cpp:92-105 | a key of a sorted listing does not occur before its own position |
| NetworkCopy.ListedMembers | branches/sectional_branch/xolotl/xolotlCore/reactants/psiclusters/PSIClusterReactionNetwork.cpp:92-105 | the set of listed keys is exactly the listing's elements |
| NetworkCopy.NextNotListed | branches/sectional_branch/xolotl/xolotlCore/reactants/psiclusters/PSIClusterReactionNetwork.cpp:92-105 | the next key of a sorted listing has not been copied yet |
| NetworkCopy.ListedAll | branches/sectional_branch/xolotl/xolotlCore/reactants/psiclusters/PSIClusterReactionNetwork.cpp:92-105 | after the whole listing, every key of the source map has been visited |
| NetworkCopy.NoneListed | branches/sectional_branch/xolotl/xolotlCore/reactants/psiclusters/PSIClusterReactionNetwork.cpp:106-108 | if no listed key is in a map, the map and the key set share nothing |
| NetworkCopy.AddSingleClone | branches/sectional_branch/xolotl/xolotlCore/reactants/psiclusters/PSIClusterReactionNetwork.cpp:92-108 | adding a clone of a new single-species cluster files its composition in the single map, and leaves the mixed and super maps and the super and mixed counts alone |
| NetworkCopy.AddMixedClone | branches/sectional_branch/xolotl/xolotlCore/reactants/psiclusters/PSIClusterReactionNetwork.cpp:97-108 | adding a clone of a new mixed cluster files its composition in the mixed map and counts it once as HeV or HeI, and leaves the super map and count alone |
| NetworkCopy.AddSuperClone | branches/sectional_branch/xolotl/xolotlCore/reactants/psiclusters/PSIClusterReactionNetwork.cpp:106-108 | as written: copying a super cluster through `add` fails iff its composition is already mixed, and otherwise files it as mixed, not as super, lists it under its own type and counts it as HeV or HeI |
| NetworkCopy.AddSuperCloneCorrected | branches/sectional_branch/xolotl/xolotlCore/reactants/psiclusters/PSIClusterReactionNetwork.cpp:314-364 | copying a super cluster through `addSuper` files it in the super map and raises the super count by one |
| NetworkCopy.CopySingles | branches/sectional_branch/xolotl/xolotlCore/reactants/psiclusters/PSIClusterReactionNetwork.cpp:92-98 | the new network's single map has the same keys as the source's |
| NetworkCopy.CopyMixed | branches/sectional_branch/xolotl/xolotlCore/reactants/psiclusters/PSIClusterReactionNetwork.cpp:99-105 | the new network's mixed map has the same keys as the source's |
| NetworkCopy.CopySinglesAndMixed | branches/sectional_branch/xolotl/xolotlCore/reactants/psiclusters/PSIClusterReactionNetwork.cpp:79-105 | a fresh network with the default state holds the single and mixed compositions of the source |
| NetworkCopy.CopySupersThroughAdd | branches/sectional_branch/xolotl/xolotlCore/reactants/psiclusters/PSIClusterReactionNetwork.cpp:106-108 | as written: super copying fails iff a super composition is also mixed; otherwise each super cluster is filed in the mixed map, listed under its own type and counted as HeV or HeI, and the super map and count stay as they were |
| NetworkCopy.AddSupersInOrder | branches/sectional_branch/xolotl/xolotlCore/reactants/psiclusters/PSIClusterReactionNetwork.cpp:106-108 | adding the super clusters in key order through `add` stops with an error iff one of them is already mixed; otherwise each is filed in the mixed map under a handle listed under its own type, and the mixed count grows by their number |
| NetworkCopy.CopyNetwork | branches/sectional_branch/xolotl/xolotlCore/reactants/psiclusters/PSIClusterReactionNetwork.cpp:79-111 | as written: the copy fails iff the source's mixed and super key sets intersect; otherwise it holds one cluster per source entry, its mixed keys are the source's mixed and super keys, each super cluster is listed under its own type and counted as HeV or HeI, and the super map and super count stay empty |
| NetworkCopy.CopySupersThroughAddSuper | branches/sectional_branch/xolotl/xolotlCore/reactants/psiclusters/PSIClusterReactionNetwork.cpp:106-108 | copying supers with `addSuper` gives the same super keys and raises the count by their number |
| NetworkCopy.CopyNetworkCorrected | branches/sectional_branch/xolotl/xolotlCore/reactants/psiclusters/PSIClusterReactionNetwork.cpp:79-111 | corrected: the copy has the same single, mixed and super key sets as the source and a super count equal to the number of supers |
| HeClusterModel.NewHeCluster | branches/dissociation_branch/xolotl/xolotlCore/reactants/psiclusters/HeCluster.cpp:9-21 | an He cluster of a clamped size whose composition is that much helium, not mixed, with empty bookkeeping |
| HeClusterModel.HeNameGivesSize | branches/dissociation_branch/xolotl/xolotlCore/reactants/psiclusters/HeCluster.cpp:16-19 | the name is "He_" followed by a numeral that reads back as the size |
| HeClusterModel.SplitPairsBySize | branches/dissociation_branch/xolotl/xolotlCore/reactants/psiclusters/HeCluster.cpp:69-81 | the reacting pairs are the (He_a, He_(n−a)) pairs, one per recorded split size |
| HeClusterModel.SplitSizesExact | branches/dissociation_branch/xolotl/xolotlCore/reactants/psiclusters/HeCluster.cpp:69-81 | a size a is used iff 1 ≤ a ≤ n/2 and both He_a and He_(n−a) are in the network; the sizes are increasing |
| HeClusterModel.NoSplitTwice | branches/dissociation_branch/xolotl/xolotlCore/reactants/psiclusters/HeCluster.cpp:69-81 | no two recorded pairs split the cluster the same way, in either order |
| HeClusterModel.SplitPairAt | branches/dissociation_branch/xolotl/xolotlCore/reactants/psiclusters/HeCluster.cpp:69-81 | each recorded pair is He_a with He_(n−a), both present, with 1 ≤ a ≤ n/2 |
| HeClusterModel.SplitConserves | branches/dissociation_branch/xolotl/xolotlCore/reactants/psiclusters/HeCluster.cpp:69-81 | He_a + He_(n−a) conserves helium into He_n |
| HeClusterModel.HePairProduces | branches/dissociation_branch/xolotl/xolotlCore/reactants/psiclusters/HeCluster.cpp:73-79 | a pair looked up as He_a and He_(n−a) is two helium clusters whose sizes add up to n |
| HeClusterModel.SplitPairsProduce | branches/dissociation_branch/xolotl/xolotlCore/reactants/psiclusters/HeCluster.cpp:69-81 | every reacting pair recorded for He_n produces He_n |
| HeClusterModel.LookupHe | branches/dissociation_branch/xolotl/xolotlCore/reactants/psiclusters/HeCluster.cpp:73-74 | `get("He", a)` succeeds exactly when the pair reference to He_a is a real cluster |
| HeClusterModel.SplitStepValues | branches/dissociation_branch/xolotl/xolotlCore/reactants/psiclusters/HeCluster.cpp:69-81 | one loop step appends a pair exactly when both lookups succeed |
| HeClusterModel.SplitStep | branches/dissociation_branch/xolotl/xolotlCore/reactants/psiclusters/HeCluster.cpp:69-81 | the same, stated through the network's `get` |
| HeClusterModel.RecordSplits | branches/dissociation_branch/xolotl/xolotlCore/reactants/psiclusters/HeCluster.cpp:69-81 | the loop records exactly the split pairs for sizes 1..n/2 |
| HeClusterModel.Combinable | src/xolotlCore/reactants/psiclusters/PSICluster.h:221-222 | the combining candidates are clusters of the network |
| HeClusterModel.CombinableExact | branches/dissociation_branch/xolotl/xolotlCore/reactants/psiclusters/HeCluster.cpp:90-114 | a candidate combines iff the sum of its size and this cluster's size is within the maximum |
| HeClusterModel.CombiningEntries | src/xolotlCore/reactants/psiclusters/PSICluster.h:98-124 | one combining entry per partner |
| HeClusterModel.CombiningEntriesAt | src/xolotlCore/reactants/psiclusters/PSICluster.h:122-123 | each entry refers to its partner with rate 0.0 |
| HeClusterModel.IdsOfExact | src/xolotlCore/reactants/psiclusters/PSICluster.h:274-282 | the connected ids are exactly the partners' ids |
| HeClusterModel.CombineWithStep | src/xolotlCore/reactants/psiclusters/PSICluster.h:221-222 | one step adds the candidate to the combining list and its id to the connectivity exactly when the size bound holds |
| HeClusterModel.CombineClusters | src/xolotlCore/reactants/psiclusters/PSICluster.h:221-222 | the combine loop appends exactly the combinable candidates and their ids |
| HeClusterModel.HePartners | branches/dissociation_branch/xolotl/xolotlCore/reactants/psiclusters/HeCluster.cpp:90-143 | all partners are clusters of the network |
| HeClusterModel.CombineWithMore | branches/dissociation_branch/xolotl/xolotlCore/reactants/psiclusters/HeCluster.cpp:90-143 | successive combine calls add up to one call over the concatenated partners |
| HeClusterModel.HePartnersExact | branches/dissociation_branch/xolotl/xolotlCore/reactants/psiclusters/HeCluster.cpp:90-143 | the partners are He, V, I clusters within their maxima, plus HeV and HeI clusters within theirs only when those counts are positive |
| HeClusterModel.CombineAll | branches/dissociation_branch/xolotl/xolotlCore/reactants/psiclusters/HeCluster.cpp:90-143 | the five combine passes add exactly the partners to the combining list and their ids to the connectivity |
| HeClusterModel.BuildReactionBook | branches/dissociation_branch/xolotl/xolotlCore/reactants/psiclusters/HeCluster.cpp:42-146 | the reaction pass connects the cluster to itself, records the split pairs and combines with every partner |
| HeClusterModel.CreateReactionConnectivity | branches/dissociation_branch/xolotl/xolotlCore/reactants/psiclusters/HeCluster.cpp:42-146 | only this cluster's bookkeeping changes, to the reaction book; the network stays valid |
| HeClusterModel.MixedDissociations | branches/dissociation_branch/xolotl/xolotlCore/reactants/psiclusters/HeCluster.cpp:158-170 | one dissociating pair per mixed cluster |
| HeClusterModel.MixedDissociationsAt | branches/dissociation_branch/xolotl/xolotlCore/reactants/psiclusters/HeCluster.cpp:158-170 | pair k is the k-th mixed cluster with the compound one helium smaller |
| HeClusterModel.MixedDissociationsAppend | branches/dissociation_branch/xolotl/xolotlCore/reactants/psiclusters/HeCluster.cpp:158-187 | dissociating two lists in turn is dissociating their concatenation |
| HeClusterModel.MixedDissociationsConserve | branches/dissociation_branch/xolotl/xolotlCore/reactants/psiclusters/HeCluster.cpp:156-173 | each found product plus He_1 has the dissociating cluster's composition |
| HeClusterModel.DissociateFamily | branches/dissociation_branch/xolotl/xolotlCore/reactants/psiclusters/HeCluster.cpp:158-170 | the loop appends exactly the dissociations of the family |
| HeClusterModel.HeDissociationBookShape | branches/dissociation_branch/xolotl/xolotlCore/reactants/psiclusters/HeCluster.cpp:148-191 | for size ≠ 1 the book is the base result; for He_1 the HeV then the HeI dissociations and their ids are appended, and nothing else changes |
| HeClusterModel.CreateDissociationConnectivity | branches/dissociation_branch/xolotl/xolotlCore/reactants/psiclusters/HeCluster.cpp:148-191 | corrected: only this cluster's bookkeeping changes, to that dissociation book |
| HeClusterModel.HeIDissociationsAsWritten | branches/dissociation_branch/xolotl/xolotlCore/reactants/psiclusters/HeCluster.cpp:175-187 | as written: one pair per HeI cluster visited, with the HeV cluster at the same position as the dissociating one |
| HeClusterModel.HeIDissociationAsWritten | branches/dissociation_branch/xolotl/xolotlCore/reactants/psiclusters/HeCluster.cpp:175-187 | as written: the loop reads out of range iff there are more HeI than HeV clusters; otherwise it records HeV clusters as dissociating |
| HeClusterModel.HeIDissociationMisattributed | branches/dissociation_branch/xolotl/xolotlCore/reactants/psiclusters/HeCluster.cpp:186 | with He_1V_1 and He_2I_1, He_1I_1: the as-written pair does not conserve, while the corrected pair does |
| HeClusterModel.NewMixed | branches/sectional_branch/xolotl/xolotlCore/reactants/psiclusters/PSIClusterReactionNetwork.cpp:251-265 | a mixed cluster of the given type and composition |
| BubbleBursting.BurstIdsMembers | branches/tutorial_branch/xolotl/xolotlCore/modifiedreaction/bubblebursting/BubbleBurstingHandler.cpp:21-31 | an id is connected iff it is an HeV bubble with the V cluster's vacancy count |
| BubbleBursting.Connected | branches/tutorial_branch/xolotl/xolotlCore/modifiedreaction/bubblebursting/BubbleBurstingHandler.cpp:16-32 | only V clusters gain connections |
| BubbleBursting.ConnectedStep | branches/tutorial_branch/xolotl/xolotlCore/modifiedreaction/bubblebursting/BubbleBurstingHandler.cpp:16-32 | each outer step joins one V cluster to its bubbles |
| BubbleBursting.ConnectedPointwise | branches/tutorial_branch/xolotl/xolotlCore/modifiedreaction/bubblebursting/BubbleBurstingHandler.cpp:16-32 | that step, cluster by cluster |
| BubbleBursting.ConnectBubbles | branches/tutorial_branch/xolotl/xolotlCore/modifiedreaction/bubblebursting/BubbleBurstingHandler.cpp:22-31 | the inner loop adds exactly the ids of the bubbles with that vacancy count |
| BubbleBursting.ConnectVacancies | branches/tutorial_branch/xolotl/xolotlCore/modifiedreaction/bubblebursting/BubbleBurstingHandler.cpp:16-32 | every V cluster is connected to every HeV bubble of equal vacancy count, and nothing else changes |
| BubbleBursting.BurstList | branches/tutorial_branch/xolotl/xolotlCore/modifiedreaction/bubblebursting/BubbleBurstingHandler.cpp:66-79 | a bubble index is listed iff He ≥ 3·V and its radius exceeds the depth; listed in order |
| BubbleBursting.BurstListStep | branches/tutorial_branch/xolotl/xolotlCore/modifiedreaction/bubblebursting/BubbleBurstingHandler.cpp:66-79 | one step appends the bubble exactly when it bursts |
| BubbleBursting.BurstingAt | branches/tutorial_branch/xolotl/xolotlCore/modifiedreaction/bubblebursting/BubbleBurstingHandler.cpp:66-79 | the loop lists exactly the bursting bubbles |
| BubbleBursting.MaxRateIsMaximum | branches/tutorial_branch/xolotl/xolotlCore/modifiedreaction/bubblebursting/BubbleBurstingHandler.cpp:88-102 | the maximum is ≥ 0, bounds every bubble's rate and is 0 or one of the rates |
| BubbleBursting.Transfers | branches/tutorial_branch/xolotl/xolotlCore/modifiedreaction/bubblebursting/BubbleBurstingHandler.cpp:117-137 | each transfer moves k·conc from a bubble with non-zero concentration |
| BubbleBursting.MoveOf | branches/tutorial_branch/xolotl/xolotlCore/modifiedreaction/bubblebursting/BubbleBurstingHandler.cpp:119-136 | the transfer goes from the bubble's slot to its V partner's slot with amount k·conc |
| BubbleBursting.Move | branches/tutorial_branch/xolotl/xolotlCore/modifiedreaction/bubblebursting/BubbleBurstingHandler.cpp:135-136 | the move keeps the array length |
| BubbleBursting.Added | branches/tutorial_branch/xolotl/xolotlCore/modifiedreaction/bubblebursting/BubbleBurstingHandler.cpp:135-136 | adding to one slot keeps the array length |
| BubbleBursting.ApplyTransfers | branches/tutorial_branch/xolotl/xolotlCore/modifiedreaction/bubblebursting/BubbleBurstingHandler.cpp:117-137 | applying the transfers keeps the array length |
| BubbleBursting.ApplyStep | branches/tutorial_branch/xolotl/xolotlCore/modifiedreaction/bubblebursting/BubbleBurstingHandler.cpp:117-137 | transfers apply one after another in list order |
| BubbleBursting.MoveConserves | branches/tutorial_branch/xolotl/xolotlCore/modifiedreaction/bubblebursting/BubbleBurstingHandler.cpp:134-136 | a single move keeps the total concentration |
| BubbleBursting.BurstingConserves | branches/tutorial_branch/xolotl/xolotlCore/modifiedreaction/bubblebursting/BubbleBurstingHandler.cpp:117-137 | bursting keeps the total concentration |
| BubbleBursting.UntouchedSlot | branches/tutorial_branch/xolotl/xolotlCore/modifiedreaction/bubblebursting/BubbleBurstingHandler.cpp:117-137 | a slot no transfer names keeps its value |
| BubbleBursting.TransfersStep | branches/tutorial_branch/xolotl/xolotlCore/modifiedreaction/bubblebursting/BubbleBurstingHandler.cpp:117-137 | a bubble with zero concentration is skipped; otherwise its move is appended |
| BubbleBursting.MoveConcentration | branches/tutorial_branch/xolotl/xolotlCore/modifiedreaction/bubblebursting/BubbleBurstingHandler.cpp:135-136 | the two array updates perform exactly that move |
| BubbleBursting.WritePartials | branches/tutorial_branch/xolotl/xolotlCore/modifiedreaction/bubblebursting/BubbleBurstingHandler.cpp:157-169 | slots 2i and 2i+1 receive bubble index, −k and V index, +k; every other slot is unchanged |
| BubbleBursting.BubbleBurstingHandler.Initialize | branches/tutorial_branch/xolotl/xolotlCore/modifiedreaction/bubblebursting/BubbleBurstingHandler.cpp:6-41 | V clusters are connected to their bubbles, there is one bursting list per grid point, and the rate is 1000 times the maximum bubble rate |
| BubbleBursting.BubbleBurstingHandler.InitializeIndex | branches/tutorial_branch/xolotl/xolotlCore/modifiedreaction/bubblebursting/BubbleBurstingHandler.cpp:43-86 | one list per grid point: empty at and left of the surface, otherwise the bubbles that burst at that depth |
| BubbleBursting.BubbleBurstingHandler.UpdateBurstingRate | branches/tutorial_branch/xolotl/xolotlCore/modifiedreaction/bubblebursting/BubbleBurstingHandler.cpp:88-107 | the rate is 1000 times the largest bubble rate |
| BubbleBursting.BubbleBurstingHandler.ComputeBursting | branches/tutorial_branch/xolotl/xolotlCore/modifiedreaction/bubblebursting/BubbleBurstingHandler.cpp:109-140 | the updated concentrations are the old ones with k·conc moved from every listed bubble whose concentration is not 0.0 to its V partner; bubbles at 0.0 are skipped and need no V partner |
| BubbleBursting.BubbleBurstingHandler.ComputePartialsForBursting | branches/tutorial_branch/xolotl/xolotlCore/modifiedreaction/bubblebursting/BubbleBurstingHandler.cpp:142-173 | returns the list length; for each listed bubble writes its index with −k and its V partner with +k; leaves the rest unchanged |
| Displacement.Interior | branches/desorption_branch/xolotl/xolotlCore/displacement/DisplacementHandler.cpp:46-54 | there are nx−2 interior values, each the factor times the fit at its point |
| Displacement.ProfileShape | branches/desorption_branch/xolotl/xolotlCore/displacement/DisplacementHandler.cpp:42-57 | the profile has max(nx, 2) entries, 0.0 at both ends and the normalised fit in between |
| Displacement.InteriorIntegral | branches/desorption_branch/xolotl/xolotlCore/displacement/DisplacementHandler.cpp:27-54 | the interior values integrate to the factor times the norm |
| Displacement.ProfileIntegratesToAmplitude | branches/desorption_branch/xolotl/xolotlCore/displacement/DisplacementHandler.cpp:25-57 | with a non-zero norm, the interior profile integrates exactly to the krypton fluence amplitude |
| Displacement.ComputeNormFactor | branches/desorption_branch/xolotl/xolotlCore/displacement/DisplacementHandler.cpp:27-36 | the loop sums fit(i·hx)·hx over the interior points |
| Displacement.InteriorValues | branches/desorption_branch/xolotl/xolotlCore/displacement/DisplacementHandler.cpp:45-54 | the loop produces the normalised interior values |
| Displacement.DisplacementHandler.constructor | branches/desorption_branch/xolotl/xolotlCore/displacement/DisplacementHandler.cpp:11-18 | all fields zero, no index (−1) and an empty profile |
| Displacement.DisplacementHandler.InitializeDisplacementHandler | branches/desorption_branch/xolotl/xolotlCore/displacement/DisplacementHandler.cpp:20-70 | records the step and norm and appends the profile; fails iff V_1 is absent, otherwise the index is V_1's id − 1 |
| Displacement.DisplacementHandler.GetInitialDisplacementVec | branches/desorption_branch/xolotl/xolotlCore/displacement/DisplacementHandler.cpp:72-75 | returns the stored profile vector and changes nothing; after an initialisation it is the earlier vector followed by the new profile (InitializeDisplacementHandler) |
| Displacement.DisplacementHandler.GetInitialDisplacementClusterIndex | branches/desorption_branch/xolotl/xolotlCore/displacement/DisplacementHandler.cpp:77-79 | returns the stored V_1 slot and changes nothing: -1 from the constructor, the id of V_1 minus one after a successful initialisation |
| Displacement.DisplacementHandler.GetKrFluenceAmplitude | branches/desorption_branch/xolotl/xolotlCore/displacement/DisplacementHandler.cpp:85-87 | returns the stored amplitude and changes nothing; it is the value last given to setKrFluenceAmplitude |
| Displacement.DisplacementHandler.GetDispEnergy | branches/desorption_branch/xolotl/xolotlCore/displacement/DisplacementHandler.cpp:93-95 | returns the stored threshold energy and changes nothing; it is the value last given to setDispEnergy |
| Displacement.DisplacementHandler.SetKrFluenceAmplitude | branches/desorption_branch/xolotl/xolotlCore/displacement/DisplacementHandler.cpp:81-87 | the getter then returns the new amplitude |
| Displacement.DisplacementHandler.SetDispEnergy | branches/desorption_branch/xolotl/xolotlCore/displacement/DisplacementHandler.cpp:89-95 | the getter then returns the new threshold energy |
| PerfRegistry.EventCounter.constructor | xolotl/xolotlPerf/standard/StdHandlerRegistry.cpp:51 | a counter carries its name |
| PerfRegistry.StdHandlerRegistry.constructor | xolotl/xolotlPerf/standard/StdHandlerRegistry.cpp:14-17 | a new registry has no event counters |
| PerfRegistry.StdHandlerRegistry.GetEventCounter | xolotl/xolotlPerf/standard/StdHandlerRegistry.cpp:33-55 | a known name returns its existing counter with nothing changed; an unknown one creates a fresh counter of that name and files it |
| PerfRegistry.PackedLength | xolotl/xolotlPerf/standard/StdHandlerRegistry.cpp:79-84 | the packed buffer has exactly the computed byte count |
| PerfRegistry.PackedSplit | xolotl/xolotlPerf/standard/StdHandlerRegistry.cpp:91-97 | packing two name lists in turn is packing their concatenation |
| PerfRegistry.PackedSizeOf | xolotl/xolotlPerf/standard/StdHandlerRegistry.cpp:79-84 | the loop counts each name's length plus its NUL |
| PerfRegistry.CopyName | xolotl/xolotlPerf/standard/StdHandlerRegistry.cpp:95 | `strcpy` writes the name and a NUL at the position and leaves the rest of the buffer |
| PerfRegistry.PackNames | xolotl/xolotlPerf/standard/StdHandlerRegistry.cpp:90-98 | the buffer holds the names back to back, each NUL-terminated, filling it exactly |
| PerfRegistry.PrefixStep | xolotl/xolotlPerf/standard/StdHandlerRegistry.cpp:93-97 | each step advances by the name's length plus one and stays within nBytes |
| PerfRegistry.ComputeDisplacements | xolotl/xolotlPerf/standard/StdHandlerRegistry.cpp:111-118 | each displacement is the sum of the counts before it |
| PerfRegistry.OffsetPrefix | xolotl/xolotlPerf/standard/StdHandlerRegistry.cpp:111-118 | a displacement depends only on the counts before it |
| PerfRegistry.ConcatLength | xolotl/xolotlPerf/standard/StdHandlerRegistry.cpp:121-129 | the gathered buffer's length is the sum of the counts |
| PerfRegistry.GatherPlacesBuffer | xolotl/xolotlPerf/standard/StdHandlerRegistry.cpp:110-129 | process i's bytes sit at its displacement in the gathered buffer |
| PerfRegistry.GatherPlacesEachBuffer | xolotl/xolotlPerf/standard/StdHandlerRegistry.cpp:110-129 | every process's bytes sit at its displacement |
| PerfRegistry.NameEnd | xolotl/xolotlPerf/standard/StdHandlerRegistry.cpp:147 | the end of a name is the first NUL at or after its start |
| PerfRegistry.NameEndAt | xolotl/xolotlPerf/standard/StdHandlerRegistry.cpp:147 | a NUL preceded only by non-NULs is the end of the name |
| PerfRegistry.PackedHolds | xolotl/xolotlPerf/standard/StdHandlerRegistry.cpp:90-98 | a packed buffer holds its names one after another, each NUL-terminated |
| PerfRegistry.NamesFromCons | xolotl/xolotlPerf/standard/StdHandlerRegistry.cpp:136-148 | reading from a name's start gives that name and then the names after its NUL |
| PerfRegistry.PackedTerminated | xolotl/xolotlPerf/standard/StdHandlerRegistry.cpp:98 | a packed buffer is empty or ends in NUL |
| PerfRegistry.UnpackFrom | xolotl/xolotlPerf/standard/StdHandlerRegistry.cpp:135-149 | reading a buffer that holds NUL-free names gives back exactly those names |
| PerfRegistry.UnpackStep | xolotl/xolotlPerf/standard/StdHandlerRegistry.cpp:146-147 | one unpack step reads the first name and moves past its NUL |
| PerfRegistry.UnpackPack | xolotl/xolotlPerf/standard/StdHandlerRegistry.cpp:90-149 | unpacking a packed list of NUL-free names gives the same list |
| PerfRegistry.GatheredPacked | xolotl/xolotlPerf/standard/StdHandlerRegistry.cpp:110-129 | the root's gathered buffer is the packing of every process's names in rank order |
| PerfRegistry.FlattenNulFree | xolotl/xolotlPerf/standard/StdHandlerRegistry.cpp:131-149 | names that are NUL-free on every process stay NUL-free once gathered, so each one ends at its own terminator |
| PerfRegistry.GatherUnpack | xolotl/xolotlPerf/standard/StdHandlerRegistry.cpp:90-149 | end to end: pack on each process, gather, then read name by name on the root, and the result is every process's names in rank order |
| PerfRegistry.StrLen | xolotl/xolotlPerf/standard/StdHandlerRegistry.cpp:147 | `strlen` returns the distance to the name's NUL |
| PerfRegistry.RecordStep | xolotl/xolotlPerf/standard/StdHandlerRegistry.cpp:138-144 | a name that is not yet a key is inserted with fresh statistics, and existing entries are kept |
| PerfRegistry.CollectStep | xolotl/xolotlPerf/standard/StdHandlerRegistry.cpp:136-148 | one walk step keeps the collection invariant |
| PerfRegistry.CollectNames | xolotl/xolotlPerf/standard/StdHandlerRegistry.cpp:131-150 | the keys become the old keys plus every gathered name; old entries are untouched and new ones hold fresh statistics |

## Left out

- MPI (`MPI_Reduce`, `MPI_Gather`, `MPI_Gatherv`, `MPI_Comm_size`, ranks) is out of scope; the gathered counts and buffers are inputs. `AggregateStatistics`, `reportStatistics`, `PerfObjStatistics::outputTo` and the timer and hardware-counter registries are not modelled.
- PerfRegistry.PackedSizeOf: `nBytes` is an `unsigned int` in the code and can wrap; the model counts with unbounded integers.
- PerfRegistry.PackNames: requires NUL-free names. A C++ `std::string` may hold a NUL, and `strcpy` would then truncate it.
- PerfRegistry.CollectNames: the statistics type and its constructor come from a header that is not part of this model; they are a type parameter and a function parameter.
- Displacement.DisplacementHandler.InitializeDisplacementHandler: a zero norm factor is a floating-point division by zero in the code (infinity or NaN); the model uses 0.0 instead. All floating-point values are modelled as reals, so rounding is not modelled.
- The physical inputs are parameters: the vacancy fit function, the reaction radius, the biggest rate and all rate constants. `setTemperature`, `computeRateConstants`, `calculateDissociationConstant` and the reaction-radius formula are not modelled.
- The bodies of `PSICluster::combineClusters`, `dissociateCluster`, `emitClusters` and the base `createDissociationConnectivity` are not part of this model. They are modelled from their documented effect: an entry is added to the list and the id to the connectivity set, with the product-existence check left out. The base dissociation pass is an input (`afterBase`).
- HeClusterModel.MixedDissociations: the code calls `dissociateCluster` even when the smaller compound is not found, passing a null cluster. The model follows the code and records a `NullRef` second cluster.
- The HeV and HeI `createReactionConnectivity` bodies, and the tester's connectivity expectations, are not part of this model.
- HeVClusterModel.HeVMixedAgrees: `isMixed()` always returns true in the headers. The network files a cluster by its composition, and the lemma states how the two agree, rather than modelling the virtual call.
- `reinitializeConnectivities` is not modelled.
- The flux getters (`getTotalFlux`, `getProductionFlux`, `getCombinationFlux`, `getDissociationFlux`, `getEmissionFlux`), `getLeftSideRate` and the partial-derivative methods are only declared in PSICluster.h; their bodies are not part of this model, so no flux formula is stated. Reactions only proves that summing any term over the effective lists equals summing it over the full lists when zero-rate entries contribute nothing.
- `getPartialDerivatives` returns a vector of length `size()` whose entry j belongs to the cluster with id j + 1 (the j-th of `getAll()`). The model does not state this shape; it only proves that ids are 1..n in the order of the all-reactants list (`DenseIds`).
- C++ `int` overflow in the counters, sizes and ids is not modelled.
- `shared_ptr` ownership, `clone()` and raw pointers are not modelled; clusters are handles into the network's pool.
- Network.ReactionNetwork.Add: `add` ignores a null reactant (PSIClusterReactionNetwork.cpp:240) without any change; a handle-based model has no null cluster, so this no-op is not modelled.
- NetworkCopy.CopyNetwork: the base-class copy `ReactionNetwork(other)` (PSIClusterReactionNetwork.cpp:81) is not part of this model; the copy starts from a fresh network, so whatever the base class copies besides the table reset by `setDefaultPropsAndNames` is not stated.
- BubbleBursting.BubbleBurstingHandler.Initialize and BubbleBursting.BubbleBurstingHandler.InitializeIndex require `surfacePos >= 0`: for a negative surface position the code reads `grid[surfacePos]` out of bounds as soon as a grid point lies right of the surface.
- BubbleBursting.BubbleBurstingHandler.ComputeBursting requires the two concentration arrays to be distinct, so aliasing of `concOffset` and `updatedConcOffset` is not modelled. It also requires every listed bubble whose concentration is not 0.0 to have a V partner with a slot: for such a bubble the code dereferences `get(vType, …)` without a null check. Bubbles at 0.0 are skipped first and need no partner.
- HeClusterModel.HeIDissociationAsWritten: the out-of-range `at()` throws `std::out_of_range` in the code; the model reports it as a flag.

## Findings

| source | as written | input that shows it | evidently intended | confidence | as-written member | corrected member |
|---|---|---|---|---|---|---|
| branches/dissociation_branch/xolotl/xolotlCore/reactants/psiclusters/HeCluster.cpp:186 | the HeI loop passes `allHeVReactants.at(i)` as the dissociating cluster | HeV list [He_1V_1], HeI list [He_2I_1, He_1I_1]: the recorded pair is (He_1V_1, He_1I_1), which does not conserve helium; with more HeI than HeV clusters `at(i)` is out of range | `allHeIReactants.at(i)`, so that (He_2I_1, He_1I_1) is recorded | not executed | HeClusterModel.HeIDissociationMisattributed | HeClusterModel.CreateDissociationConnectivity |
| branches/sectional_branch/xolotl/xolotlCore/reactants/psiclusters/PSIClusterReactionNetwork.cpp:106-108 | the copy constructor re-adds super clusters with `add` | a source network whose super cluster's composition is also a mixed cluster: `add` throws a duplicate error; otherwise the super cluster is filed as mixed and the super count stays 0 | re-add them with `addSuper`, so that the copy has the source's super clusters | not executed | NetworkCopy.CopyNetwork | NetworkCopy.CopyNetworkCorrected |
