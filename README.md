# tf-pwa decay topology and configuration helpers, in Dafny

This project models the combinatorial core of tf-pwa, a partial-wave analysis package:

- the particle, decay and decay-chain bookkeeping of `tf_pwa/particle.py`;
- the dictionary-normalisation helpers of `tf_pwa/config_loader.py`.

The model covers particle identity and names of the form `name:id`, the per-particle decay lists, `cross_combine` and `chain_decay`, and the (L, S) coupling list of a two-body decay. For chains it covers particle classification, the topology-independent table of a chain (`sorted_table`) and the reconstruction of a chain from such a table (`from_sorted_table`). It also covers the enumeration of every binary decay tree (`from_particles` with `_Chain_Graph`), topology fingerprints, comparison and mapping, and decay groups with their topology classes. On the configuration side it models how decay and particle sections of an already parsed YAML document are flattened, included, renamed and combined.

Python values become Dafny values:

- A particle is the pair (name, id) that Python's `__eq__`, `__hash__` and `__lt__` compare.
- A decay is a core and an ordered list of daughters. Python's decay equality (core, sorted daughters) is the predicate `DecayEq`.
- A Python `dict` is `PyDicts.Dict`: a key sequence in insertion order plus a map. Iterating a dict follows insertion order, re-assigning a key keeps its place, and deleting a key removes it.
- A parsed YAML value is the datatype `Yaml` (None, bool, int, str, list, dict).
- Mutable objects (`BaseParticle`, `_Chain_Graph`) are classes whose methods update their fields.
- Loops that fill lists or dictionaries are methods with loop invariants. Each is proved equal to a specification function, and the promised properties are lemmas about that function.

Files:

| file | module | models |
|---|---|---|
| wrappers.dfy | Wrappers | `Option`, `Result` and the Python exception kinds |
| ordering.dfy | Ordering | Python's sequence order, `sorted`, uniqueness of a sorted permutation |
| mixed_radix.dfy | MixedRadix | the index arithmetic behind cartesian products |
| py_dict.dfy | PyDicts | insertion-ordered dictionaries |
| particle.dfy | Particles | particle names, ids and ordering; decay identity |
| particle_graph.dfy | ParticleGraph | `BaseParticle`, `cross_combine`, `chain_decay` |
| spin_coupling.dfy | SpinCoupling | `GetA2BC_LS_list` and the `Decay` coupling helpers |
| topology.dfy | Topology | `split_particle_type`, `split_len`, `DecayChain`, `sorted_table` |
| from_sorted_table.dfy | ChainFromTable | `DecayChain.from_sorted_table` |
| topology_compare.dfy | TopologyCompare | `topology_id`, `topology_same`, `topology_map` |
| chain_graph.dfy | ChainGraphs | `_Chain_Graph`, `DecayChain.from_particles` |
| decay_group.dfy | DecayGroups | `DecayGroup`, `topology_structure` |
| config_loader.dfy | ConfigLoader | the `ConfigLoader` dictionary helpers, `validate_file_name` |

## Model

| member | source | states |
|---|---|---|
| Particles.ParticleOrder | tf_pwa/particle.py:103-114 | particle `<` (the (name, id) tuple order) is irreflexive, transitive and total, so particle equality and order agree |
| Particles.LastColon | tf_pwa/particle.py:63-75 | finds the last `:` of a name (the split point of `name.split(":")[:-1]`), or reports there is none |
| Particles.ParseIntToString | tf_pwa/particle.py:63-75 | `int()` applied to the printed id gives the id back, for every integer |
| Particles.NatToStringInjective | tf_pwa/particle.py:98-101 | different ids print differently |
| Particles.SetNameOfRepr | tf_pwa/particle.py:98-101 | `set_name(repr(p))` gives back `p` whenever the id is not 0 or the name has no colon |
| Particles.SetNameExamples | tf_pwa/particle.py:63-75 | `D0` is (D0, 0), `R:2` is (R, 2), `a:b:-3` is (a:b, -3), a non-integer suffix keeps the whole string with id 0, and an explicit id is taken as given |
| Particles.DecayEqIff | tf_pwa/particle.py:222-236 | two decays are equal exactly when their cores are equal and their daughters are the same multiset, whatever their order |
| ParticleGraph.SpinRange | tf_pwa/particle.py:55-57 | the default spins are the 2J+1 values -J..J in order |
| ParticleGraph.BaseParticle.constructor | tf_pwa/particle.py:48-61 | the new particle has the parsed name and id, the given J and P, the given or default spins, and no decays or creators |
| ParticleGraph.BaseParticle.AddDecay | tf_pwa/particle.py:77-82 | appends the decay unless an equal one is listed, so the list never holds two equal decays |
| ParticleGraph.BaseParticle.RemoveDecay | tf_pwa/particle.py:84-88 | removes the first equal decay, and fails (ValueError) exactly when there is none |
| ParticleGraph.BaseParticle.AddCreator | tf_pwa/particle.py:90-96 | appends the decay to the creators and changes nothing else |
| ParticleGraph.FirstEqualSpec | tf_pwa/particle.py:84-88 | the index found is the first decay equal to the argument, and none is found exactly when no listed decay is equal |
| ParticleGraph.CombineAt | tf_pwa/particle.py:13-33 | the inner product has one entry per (head, other) pair, in head-major order, each the concatenation of the two |
| ParticleGraph.CrossCombineAt | tf_pwa/particle.py:13-33 | over non-empty lists, the result has the product of the lengths as its length, and entry k concatenates the picks numbered by k in mixed radix |
| ParticleGraph.CrossCombineElement | tf_pwa/particle.py:13-33 | every combination is the concatenation of one pick from each list, in list order |
| MixedRadix.UnrankIncreasing | tf_pwa/particle.py:13-33 | later combinations have lexicographically larger picks, so the enumeration is in lexicographic order and has no repeats |
| ParticleGraph.ChainDecayChains | tf_pwa/particle.py:116-130 | every chain of a particle starts with one of its own decays and contains only registered decays, and there are none exactly when the particle has no decays |
| ParticleGraph.ChainsOfDecaysChains | tf_pwa/particle.py:116-130 | the chains of a list of decays start with one of those decays, and there are none only for an empty list |
| ParticleGraph.CrossCombineChains | tf_pwa/particle.py:120-128 | combining a decay with its daughters' chains gives at least one chain, each starting with that decay |
| ParticleGraph.OutChainsChains | tf_pwa/particle.py:122-126 | only daughters with chains contribute, and each contributes a non-empty list of registered chains |
| SpinCoupling.GetA2BCLSList | tf_pwa/particle.py:142-173 | the result is the list of (l, s) with abs(jb-jc) <= s <= jb+jc and abs(ja-s) <= l <= ja+s, filtered by the parity rule when all parities are known and parity is not broken, sorted by s and then l, without repeats |
| SpinCoupling.LSListUnique | tf_pwa/particle.py:142-173 | that description fixes the list: two lists meeting it are equal |
| SpinCoupling.ParityRule | tf_pwa/particle.py:157-159 | the rule `l % 2 == 0 iff pa*pb*pc == 1` is parity conservation `pa == pb*pc*(-1)^l` |
| SpinCoupling.LSListExamples | tf_pwa/particle.py:142-173 | the 1 -> 0 0 couplings: none with parity (-,-,+), l = 1 with (+,-,+), and l = 1 when parity may be broken |
| SpinCoupling.DecayLSList | tf_pwa/particle.py:245-257 | a decay with fewer than two daughters fails; otherwise the list is the coupling list of the core and the first two daughters |
| SpinCoupling.LList | tf_pwa/particle.py:259-264 | the l values of the coupling list, in order |
| SpinCoupling.MinL | tf_pwa/particle.py:266-270 | the smallest l of the list, and an error for an empty list |
| SpinCoupling.GenerateParams | tf_pwa/particle.py:272-289 | one (real, imaginary) name pair per coupling, in coupling order |
| SpinCoupling.ParamNameInjective | tf_pwa/particle.py:272-289 | different couplings or parts get different parameter names |
| SpinCoupling.CouplingParamsDistinct | tf_pwa/particle.py:272-289 | all parameter names generated for a coupling list are pairwise distinct |
| SpinCoupling.HelicityOfRowRange | tf_pwa/particle.py:291-320 | each matrix row stands for a distinct helicity pair (lb, lc) within -jb..jb and -jc..jc |
| SpinCoupling.CgMatrix | tf_pwa/particle.py:291-320 | the matrix has (2jb+1)(2jc+1) rows and one column per coupling, and each cell holds its row's helicities and its column's (l, s) |
| Topology.SplitParticleType | tf_pwa/particle.py:336-354 | top is cores minus daughters, inner is cores that are also daughters, and finals are daughters that never decay |
| Topology.RolesPartition | tf_pwa/particle.py:336-354 | the three roles are pairwise disjoint and together cover every particle mentioned; no daughter is a top and no core is final |
| Topology.NewDecayChain | tf_pwa/particle.py:388-394 | a chain is accepted exactly when it has one top particle; the accepted chain records that top, the sorted finals and the inner particles |
| Topology.ValidChainDetermined | tf_pwa/particle.py:388-394 | the top, finals and inner particles of a chain are determined by its decays |
| Topology.WithLengthMember | tf_pwa/particle.py:357-379 | the entries of length n are exactly the table entries whose list has n elements |
| Topology.SplitLen | tf_pwa/particle.py:357-379 | an empty table fails; otherwise there is one slot per length up to the maximum, and slot n holds the entries of length n in table order (None if there are none) |
| Topology.MaxLength | tf_pwa/particle.py:357-379 | the maximum entry length, attained by some entry |
| Topology.FillSlots | tf_pwa/particle.py:375-378 | the filling loop puts each entry in the slot of its length, so slot n ends as the entries of length n in table order |
| Topology.Resolve | tf_pwa/particle.py:410-420 | a decay whose daughters all have entries gives its core the sorted concatenation of those entries and changes no other entry |
| Topology.TablePass | tf_pwa/particle.py:408-427 | one pass over the pending decays keeps the table invariant; a pass that resolves nothing leaves the table unchanged, and then no pending decay was ready |
| Topology.FinalsTable | tf_pwa/particle.py:405-407 | every final particle starts with the entry `[itself]` |
| Topology.TableComplete | tf_pwa/particle.py:403-427 | once nothing is pending, every particle of the chain has an entry and every decay is resolved |
| Topology.SortedTable | tf_pwa/particle.py:403-427 | for a chain built level by level, the table is produced; its keys are the particles of the chain, finals map to themselves, each decay's core maps to the sorted finals below it, and the top maps to the sorted finals |
| Topology.SortedTableDetermined | tf_pwa/particle.py:403-427 | for a layered chain whose particles decay once, any two tables meeting what `sorted_table` promises hold the same entries |
| Topology.SortedOuts | tf_pwa/particle.py:392-394 | the recorded finals are already sorted |
| ChainFromTable.SelectionsCount | tf_pwa/particle.py:455-467 | the size-k selections of n keys number n choose k |
| ChainFromTable.SelectionsMembers | tf_pwa/particle.py:455-467 | each selection has k elements, all taken from the keys |
| ChainFromTable.SelectionsUnique | tf_pwa/particle.py:455-467 | selections of distinct keys have distinct elements |
| ChainFromTable.SortedEqIff | tf_pwa/particle.py:461 | `sorted(a) == sorted(b)` exactly when a and b are the same multiset |
| ChainFromTable.FirstMatchSpec | tf_pwa/particle.py:458-462 | the first matching selection is a matching member of the list, and there is none exactly when nothing matches |
| ChainFromTable.SearchFound | tf_pwa/particle.py:455-467 | a found selection has at least 2 and at most len(base) keys, matches the entry, and no smaller selection size has a match |
| ChainFromTable.SearchNone | tf_pwa/particle.py:455-467 | the search fails exactly when no selection of any size from 2 to len(base) matches |
| ChainFromTable.DeepSearch | tf_pwa/particle.py:455-467 | the loop returns the first match of the smallest size, or nothing |
| ChainFromTable.RemoveAll | tf_pwa/particle.py:475-476 | deleting the found keys removes exactly those keys and keeps every other entry |
| ChainFromTable.DeleteAll | tf_pwa/particle.py:475-476 | the deletion loop computes that dictionary |
| ChainFromTable.FoldErrStays | tf_pwa/particle.py:469-478 | once a search has failed, later entries do not change the outcome |
| ChainFromTable.MaxLenFacts | tf_pwa/particle.py:357-379 | the maximum entry length bounds every entry and is attained |
| ChainFromTable.PendingFacts | tf_pwa/particle.py:469-472 | the entries processed are exactly those of length 2 up to the maximum, in nondecreasing length |
| ChainFromTable.AddSlot | tf_pwa/particle.py:471-477 | processing one length slot extends the decays and dictionary as the specification does |
| ChainFromTable.FromSortedTable | tf_pwa/particle.py:440-478 | empty table: ValueError; no entry of length 1 or more: IndexError; no entry of length 1: TypeError; a failed search: its error; a result with other than one top: AssertionError; otherwise the chain of rebuilt decays |
| ChainFromTable.StepFits | tf_pwa/particle.py:471-477 | one step adds a decay of the entry's particle whose daughters are distinct table keys whose entries concatenate to a permutation of the entry, and keeps the dictionary consistent with the table |
| ChainFromTable.BuildFits | tf_pwa/particle.py:469-478 | every rebuilt decay is the decay of its entry's particle and fits the table in that way |
| ChainFromTable.TableDecaysFit | tf_pwa/particle.py:440-478 | the rebuilt decays are one per particle with an entry of two or more finals, in nondecreasing entry length, each fitting the table |
| TopologyCompare.TopologyIdOrderFree | tf_pwa/particle.py:510-522 | the fingerprint depends only on the table's contents, not on its key order |
| TopologyCompare.TopologySameIff | tf_pwa/particle.py:582-592 | with identical set to false, two chains have the same topology exactly when their tables hold the same multiset of entries |
| TopologyCompare.TopologySameRefines | tf_pwa/particle.py:510-522 | same topology with identical set to false implies the same with it set to true (names only) |
| TopologyCompare.TopologySameEquivalence | tf_pwa/particle.py:582-592 | topology sameness is reflexive, symmetric and transitive |
| TopologyCompare.FirstEntry | tf_pwa/particle.py:570-573 | finds the first key of the other table whose entry equals the given entry, or reports that there is none |
| TopologyCompare.FirstDecay | tf_pwa/particle.py:576-579 | finds the first decay of the other chain equal to the mapped decay, or reports that there is none |
| TopologyCompare.MapDecay | tf_pwa/particle.py:575 | the mapped decay maps the core and each daughter, in order |
| TopologyCompare.MapDecayEq | tf_pwa/particle.py:575-579 | mapping respects decay equality |
| TopologyCompare.MapDecayIdentity | tf_pwa/particle.py:575-579 | the identity mapping leaves a decay unchanged |
| TopologyCompare.MapParticles | tf_pwa/particle.py:566-573 | each particle of the first table is mapped to the first particle of the second table with an equal entry, and particles without one are left out |
| TopologyCompare.CanMapIff | tf_pwa/particle.py:575 | a decay can be mapped exactly when its core and all its daughters have images |
| TopologyCompare.MapDecays | tf_pwa/particle.py:574-579 | a decay whose particles lack images raises KeyError; otherwise each decay is keyed by its identity and maps to the first equal decay of the other chain, if any |
| TopologyCompare.TopologyMap | tf_pwa/particle.py:559-580 | the particle map and decay map described above, and KeyError exactly when some decay cannot be mapped |
| TopologyCompare.SelfParticleMap | tf_pwa/particle.py:559-580 | mapping a chain with distinct entries onto itself maps every particle to itself |
| TopologyCompare.SelfDecayMap | tf_pwa/particle.py:559-580 | and maps every decay to an equal decay |
| ChainGraphs.ChainGraph.constructor | tf_pwa/particle.py:596-599 | a new graph has no nodes, no edges and a zero count |
| ChainGraphs.ChainGraph.AddEdge | tf_pwa/particle.py:601-602 | appends the edge and changes nothing else |
| ChainGraphs.ChainGraph.AddNode | tf_pwa/particle.py:604-612 | removes the edge (ValueError when it is absent), appends the three new edges, adds the node and increments the count, so the edge count grows by 2 |
| ChainGraphs.ChainGraph.Copy | tf_pwa/particle.py:614-619 | a fresh graph with the same nodes, edges and count |
| ChainGraphs.InsertCounts | tf_pwa/particle.py:604-612 | inserting a final into a tree keeps the top with one child and every inner node with two children and one parent |
| ChainGraphs.PlacementsProduct | tf_pwa/particle.py:492-502 | the number of graphs grown from e edges by placing m finals is (e)(e+2)...(e+2m-2), a product of odd numbers from one edge |
| ChainGraphs.PlacementsFromOneEdge | tf_pwa/particle.py:481-507 | from one edge there are 1*3*...*(2n-3) graphs for n finals: 1, 3 and 15 for 2, 3 and 4 finals |
| ChainGraphs.GetGraphs | tf_pwa/particle.py:492-502 | returns that many graphs, each grown by inserting the remaining finals in order |
| ChainGraphs.InnerParticles | tf_pwa/particle.py:625-626 | every node k gets the particle named `{head}node_{k}`, and there is no other entry |
| ChainGraphs.ReadEdges | tf_pwa/particle.py:627-633 | the keys are exactly the particles of the edge sources, each listing its products in edge order |
| ChainGraphs.MergeTop | tf_pwa/particle.py:634-641 | the top takes over the products of its only product, that product is dropped, and the remaining keys become the decays |
| ChainGraphs.GetDecayChain | tf_pwa/particle.py:621-642 | a top without edges raises KeyError, a top with other than one child raises AssertionError, a child without children raises KeyError, and a failure past those checks is an AssertionError; otherwise the decays read off the edges, with the top taking its child's daughters; for a well-formed tree the chain has that top, the leaves as finals and two daughters per decay |
| ChainGraphs.TreeChain | tf_pwa/particle.py:621-642 | the chain read from a grown tree has exactly one top, the leaves as its finals, and two daughters in each decay |
| ChainGraphs.FromParticles | tf_pwa/particle.py:481-507 | no finals: AssertionError; one final other than the top: KeyError; the top as its only final: AssertionError; when it succeeds, 1*3*...*(2n-3) valid chains; for two or more finals that exclude the top and do not clash with the generated node names it succeeds and each chain is a binary chain from the top to exactly those finals |
| ChainGraphs.GraphsFromParticles | tf_pwa/particle.py:504-506 | the graphs grown from the edge top -> first final are 1*3*...*(2n-3) in number, and each is grown by placing the remaining finals |
| ChainGraphs.ChainsOfGraphs | tf_pwa/particle.py:507 | one chain per graph, in order, failing with the first graph that fails: KeyError for one final other than the top, AssertionError for the top as its only final |
| DecayGroups.DedupElements | tf_pwa/particle.py:661-666 | first-occurrence deduplication keeps exactly the elements of the list, without repeats |
| DecayGroups.DedupIdempotent | tf_pwa/particle.py:661-666 | deduplicating twice is deduplicating once |
| DecayGroups.NewDecayGroup | tf_pwa/particle.py:650-667 | no chains: IndexError; chains with different tops or finals: AssertionError; otherwise a group with the first chain's top and finals and the resonances of all chains |
| DecayGroups.CollectResonances | tf_pwa/particle.py:661-666 | the resonance loop keeps the first occurrence of each inner particle |
| DecayGroups.DedupAppend | tf_pwa/particle.py:664-667 | adding one chain's inner particles to the deduplicated list gives the deduplication of the whole sequence so far |
| DecayGroups.Resonances | tf_pwa/particle.py:661-666 | the group's resonances are distinct and are exactly the inner particles of its chains |
| DecayGroups.DecayGroupFromDecays | tf_pwa/particle.py:650-667 | no lists: IndexError; it succeeds exactly when every list has a single top and all lists share the first one's top and final particles, and any other failure is an AssertionError (a list without a single top, or a differing top or finals); the group keeps one chain per list |
| DecayGroups.ChainsOfLists | tf_pwa/particle.py:652-654 | each list becomes a chain with the same decays, and the conversion fails with AssertionError exactly when some list has no single top |
| DecayGroups.SameEndsIff | tf_pwa/particle.py:658-660 | two chains' recorded top and sorted finals agree exactly when their decays have the same top and final particles |
| DecayGroups.FindSame | tf_pwa/particle.py:680-683 | finds a kept chain with the same fingerprint, or reports that none is kept |
| DecayGroups.KeepDistinct | tf_pwa/particle.py:679-685 | keeps the first chain of each fingerprint class, in order |
| DecayGroups.TopologyStructure | tf_pwa/particle.py:676-692 | a single chain is returned as it is; with two or more, `ts` are the chains' sorted tables (`IsSortedTableOf`, one per chain, in order) and the result keeps, in order, each chain with no earlier topology-same chain, starting with the first chain; no two kept chains have the same topology |
| DecayGroups.KeepTopologies | tf_pwa/particle.py:683-690 | over the chains' tables, the kept positions are the first of each fingerprint, no two kept chains have the same topology, and a chain is kept exactly when no earlier chain has its topology |
| DecayGroups.KeptTopologies | tf_pwa/particle.py:676-692 | for tables with the kept positions (those of TopologyStructure), no two kept chains have the same topology, and every chain has the topology of a kept one; KeepTopologies applies it to the chains' own sorted tables (`IsSortedTableOf`) |
| DecayGroups.KeptFirst | tf_pwa/particle.py:676-692 | for those tables, a chain is kept exactly when no earlier chain has its topology; KeepTopologies applies it to the chains' own sorted tables |
| DecayGroups.SameTopologyDetermined | tf_pwa/particle.py:582-592 | for a layered chain whose particles decay once, which sorted table is taken does not change any topology comparison, so the kept chains depend only on the chains |
| ConfigLoader.LoadConfig | tf_pwa/config_loader.py:51-57 | a dict is returned as given; a file name gives that file's parsed content or FileNotFoundError |
| ConfigLoader.Iterate | tf_pwa/config_loader.py:101-112 | iterating a list gives its items, a string its characters, a dict its keys, and anything else raises TypeError |
| ConfigLoader.ListToDecay | tf_pwa/config_loader.py:88-98 | the record has the core, the non-dict entries in order, and the dict entries merged |
| ConfigLoader.NonDictsMembers | tf_pwa/config_loader.py:88-98 | the daughters are exactly the non-dict entries |
| ConfigLoader.MergeParamsLastWins | tf_pwa/config_loader.py:88-98 | a parameter is present exactly when some dict entry sets it, and then it has the value of the last entry that sets it |
| ConfigLoader.CoreRecords | tf_pwa/config_loader.py:104-111 | a core whose entries are all lists gives one record per list, in order, and otherwise one record |
| ConfigLoader.DecayItem | tf_pwa/config_loader.py:101-112 | the records of all cores in order; TypeError exactly when some value cannot be iterated |
| ConfigLoader.DecayRecordsErr | tf_pwa/config_loader.py:101-112 | the flattening fails exactly when some value cannot be iterated, and only with TypeError |
| ConfigLoader.DecayRecordsCores | tf_pwa/config_loader.py:101-112 | every record's core is a key of the decay section, and records only ever grow from core to core |
| ConfigLoader.Update | tf_pwa/config_loader.py:160-169 | `dict.update`: each key of the update takes its value there, and every other key keeps its old value |
| ConfigLoader.IncludeDict | tf_pwa/config_loader.py:115-119 | including adds only the missing keys: existing keys and their values are kept, and the original keys stay first |
| ConfigLoader.IncludeIdempotent | tf_pwa/config_loader.py:115-119 | including the same dictionary twice is including it once |
| ConfigLoader.IncludeFrom | tf_pwa/config_loader.py:115-119 | a loaded dictionary is included, a loading error is passed on, and existing keys are never overwritten |
| ConfigLoader.IncludeAll | tf_pwa/config_loader.py:153-161 | a falsy include does nothing, an include that is not a string or list raises ValueError, a string naming a missing file raises FileNotFoundError, existing keys are never overwritten, and the result is that of including the string's file, or the list's files one after the other (`IncludeResult`) |
| ConfigLoader.IncludeList | tf_pwa/config_loader.py:153-156 | the loop over a list include stops at the first failing file with its error and otherwise includes the files one after the other (`IncludeFold`); existing keys are never overwritten |
| ConfigLoader.IncludeFoldErr | tf_pwa/config_loader.py:153-156 | a list include fails exactly when some listed file does not load to a mapping, and then with the error of the first such file |
| ConfigLoader.IncludeFoldContents | tf_pwa/config_loader.py:114-119 | after a list include every file loaded to a mapping, and the section has its own keys with their own values plus every key of an included file, a key it lacked taking the value of the first file that has it (`IncludedInOrder`) |
| ConfigLoader.IncludedInOrderSnoc | tf_pwa/config_loader.py:114-119 | including one more mapping under a section that holds the first-file-wins merge of the earlier ones gives the first-file-wins merge of them all |
| ConfigLoader.MergeMap | tf_pwa/config_loader.py:134-136 | a nested particle map is merged by appending its lists to the lists already there |
| ConfigLoader.ParticleItemList | tf_pwa/config_loader.py:122-146 | ValueError exactly when some value is neither a list nor a dict, or a list holds something other than a string or dict; otherwise the particle map and property map the section describes |
| ConfigLoader.ListEntry | tf_pwa/config_loader.py:125-141 | a list value appends its strings, maps an empty list to `[]` and merges nested dicts |
| ConfigLoader.ListItem | tf_pwa/config_loader.py:130-141 | a string entry is appended, a dict entry is merged recursively, and anything else raises ValueError |
| ConfigLoader.ListedNames | tf_pwa/config_loader.py:122-146 | in a section of name lists and dicts, each list value maps its key to exactly its names |
| ConfigLoader.PropsNames | tf_pwa/config_loader.py:122-146 | and each dict value becomes its key's properties |
| ConfigLoader.SectionOfNames | tf_pwa/config_loader.py:122-146 | both facts over the whole section |
| ConfigLoader.StrippedFacts | tf_pwa/config_loader.py:149-152 | popping `$top`, `$finals` and `$include` removes exactly those keys, keeps every other entry and reads the popped values from the original dict |
| ConfigLoader.ReadSection | tf_pwa/config_loader.py:162-169 | the particle map and property map of the remaining section, with a dict `$top` and then a dict `$finals` laid over the properties |
| ConfigLoader.ParticleItem | tf_pwa/config_loader.py:149-169 | pops the three special keys, includes files without overwriting keys, raises ValueError for a bad include, and returns the maps, the top and the finals; a failed include is its error, and otherwise `rest` is the popped section after the include rule and the call succeeds exactly when that section is well formed |
| ConfigLoader.RenameParams | tf_pwa/config_loader.py:171-180 | every key of the result is a renamed key of the key map, and each holds the value of the last source key renamed to it |
| ConfigLoader.RenamedLast | tf_pwa/config_loader.py:171-180 | a renamed key is present exactly when some source key maps to it, with the value of the last such key |
| ConfigLoader.RenamedFromOnly | tf_pwa/config_loader.py:171-180 | a target with one possible source takes that source's value |
| ConfigLoader.ParticleRenames | tf_pwa/config_loader.py:29-38 | particle parameters: `m0` becomes `mass`, `g0` becomes `width`, `J` and `spins` stay, `P` or `Par` becomes `P`, `model` or `bw` becomes `model`, and nothing else is kept |
| ConfigLoader.DecayRenames | tf_pwa/config_loader.py:39-41 | decay parameters: only `model` is kept |
| ConfigLoader.AllCombine | tf_pwa/config_loader.py:202-208 | the product has as many entries as the product of the list lengths (one, the empty list, for no lists) |
| ConfigLoader.AllCombineAt | tf_pwa/config_loader.py:202-208 | entry k takes the picks numbered by k in mixed radix |
| ConfigLoader.AllCombineOrder | tf_pwa/config_loader.py:202-208 | each entry takes one element from each list in order, and entries come in lexicographic order of their picks |
| ConfigLoader.AllCombineEmptyList | tf_pwa/config_loader.py:202-208 | an empty list anywhere yields nothing |
| ConfigLoader.ValidateFileName | tf_pwa/config_loader.py:740-743 | each of the nine characters slash, backslash, colon, star, question mark, double quote, less-than, greater-than and vertical bar becomes `_`, every other character and the length are kept, and no forbidden character is left |
| ConfigLoader.ValidateIdempotent | tf_pwa/config_loader.py:740-743 | validating twice is validating once |
| ConfigLoader.ValidateKeepsValid | tf_pwa/config_loader.py:740-743 | a name without forbidden characters is unchanged |
| PyDicts.Put | tf_pwa/config_loader.py:115-119 | assignment keeps a key's position, appends a new key, and keeps the keys distinct |
| PyDicts.Get | tf_pwa/config_loader.py:132-133 | `dict.get` returns the value of a present key and nothing otherwise |
| Ordering.SortSorted | tf_pwa/particle.py:392-394 | `sorted` returns an ordered permutation of its input |
| Ordering.SortPermutes | tf_pwa/particle.py:392-394 | `sorted` keeps exactly the elements of its input, with their multiplicities |
| Ordering.InsertSorted | tf_pwa/particle.py:392-394 | inserting an element into an ordered list keeps it ordered |
| Ordering.SortedUnique | tf_pwa/particle.py:392-394 | an ordered permutation is unique, so `sorted` depends only on the multiset of its input |

## Left out

- Values of `Decay.get_cg_matrix` and `Decay.barrier_factor`: they need `sqrt` and the Clebsch-Gordan and barrier functions of modules outside this model. Each matrix cell records only its helicities and its (l, s).
- `tf_pwa/model.py` (likelihoods, gradients, constraints) and the driver scripts: floating-point numerics and calls into TensorFlow, SciPy and the file system.
- YAML parsing and file reading: a file is a given map from file names to parsed values. An included file that parses to something other than a dict is reported as a TypeError. Python differs there: `_do_include_dict` iterates whatever was loaded, so an empty list or empty string includes nothing and raises nothing, a list whose items are all keys already present also passes silently, and a list of integers adds integer keys. Only dict files are modelled as includable.
- YAML scalars other than None, bool, int and str (floats, dates) are not modelled. They only ever occur as opaque values.
- `ConfigLoader.get_decay_struct` apart from its local `all_combine`: it depends on the particle and decay registry of `tf_pwa.amp`, which is not part of this model. The same holds for `get_data`, `fit`, `cal_error`, the plotting helpers and `MultiConfig`.
- `deep_ordered_iter` comes from `tf_pwa.utils`, which is not part of this model. It is modelled as listing the size-k selections of the dictionary's keys in key order, the first key varying slowest.
- `DecayChain.standard_topology`, `topology_structure(standard=True)` and `DecayGroup.get_chains_map`: they rename particles by printed strings and build fresh objects. The model returns the kept chains, as with `standard=False`.
- `DecayChain.sorted_table_layers`, `get_resonances`, `__repr__` and `__iter__`: printing and iteration helpers.
- `functools.lru_cache` and `simple_cache_fun`: caching does not change results.
- `BaseDecay` registration of itself with its core and daughters (`disable=False`): `from_sorted_table` and `from_particles` pass `disable=True`. `topology_map` builds each test decay with `disable=False`, so in Python every call also adds the test decay to the decays of a particle of the other chain (unless an equal one is listed) and appends it to the creators of each of its daughters. TopologyCompare.TopologyMap does not model that side effect; it returns only the two maps.
- Half-integer spins: `range` over spins restricts the code to integer spins, so J is a natural number.
- Keyword arguments of `BaseParticle` (`mass`, `width`, extra attributes): they are stored and never read by the modelled code.
- Topology.SortedTable: returns None where Python's worklist loop would never end (a pass that resolves no decay). The model proves the result is produced for every chain built level by level.
- ParticleGraph.ChainDecayChains: `chain_decay` recursion is bounded by a depth, and RecursionError stands in for Python's recursion limit on cyclic decay graphs.
- ChainGraphs.FromParticles: the binary-tree property of each chain is proved when there are at least two finals, none is the top, and none clashes with the generated `chain{i}_node_{k}` names. For other inputs only the error kinds, the count and the validity of the chains are stated.
- ChainGraphs.GetDecayChain: the order of the decays in the chain is the order of the dictionary's keys, which is stated through `ChainFrom` rather than as a list.
- DecayGroups.TopologyStructure: with two or more chains, returns None where building some chain's table would not finish (see Topology.SortedTable); Python would compare that chain and never return. All tables are built before the comparisons, which gives the same result because Python compares every chain with at least the first one.
- ConfigLoader.RenameParams: the key order of the result dictionary is not stated, only its contents.
- ConfigLoader.ParticleItem: the caller's dictionary is changed in place by `pop` and by includes; the model returns the changed dictionary as `rest` instead. The key order of the particle map and property map is not stated, only their contents.
- Particles.ParseInt: accepts an optional sign followed by the ASCII digits 0-9. Python's `int()` also accepts surrounding spaces, underscores between digits and the decimal digits of other scripts (such as Arabic-Indic digits), and these are not modelled.
- ChainFromTable.FromSortedTable: the round trip (rebuilding a chain from its own sorted table gives a chain of the same topology) is not proved. The model proves each rebuilt decay fits the table (ChainFromTable.TableDecaysFit), but not that the smallest matching selection is the original daughters.
- ChainGraphs.FromParticles: that the 1*3*...*(2n-3) chains (3, 15 and 105 for 3, 4 and 5 finals) have pairwise different topologies is not proved. Only their number and the binary shape of each chain are stated.
- SpinCoupling.GenerateParams: the name is a required argument. The `name=None` default, which takes the decay's own name, is not modelled.
- ConfigLoader.LoadConfig: a value that is neither a string nor a mapping is a TypeError. Python's `open` would take an integer as a file descriptor; file descriptors are not modelled.
- ParticleGraph: particles are identified by (name, id), as Python's `__eq__` and `__hash__` do. The model assumes one `BaseParticle` object per identity, so two distinct Python objects with the same name and id, each with its own decay list, are not modelled.
