# CoopGA population-genetics engine in Dafny

CoopGA simulates the evolution of altruism with agent-based models built on
Mesa. This project models the engine those simulations share, with every
random draw taken as an input:

- **Genealogy DAG** (`IBDFamilyTree` in hamilton/utils.py, `IDBFamilyTree` in
  hamilton/nx_script.py), in `genealogy.dfy`. Nodes are `"gen#id"` keys, kept
  as (generation, id) pairs; a lemma shows the text keys are injective.
  `add_child`, `remove_generation` and `update_ig` are methods of the class
  `FamilyTree`. The recursive `rLCA` and `ig_ibd_coeff` are functions, whose
  termination measure is the number of nodes in older generations.
- **Genotype codec** `FloatBinHandler` (hamilton/utils.py,
  hamilton_basic/utils.py), in `float_bin.dfy`, on the scaled integer
  `int(f * const)`. It rests on `numerals.dfy`, which models Python's
  `bin`, `str` and `int`.
- **Mesa scheduler**, in `mesa.dfy`. Its observable state is the agents by
  id in insertion order, plus `steps` and `time`.
- **Shared reproduction steps**, in `mating.dfy`: (i, i + N // 2) pairing,
  neighbour pairing and the 0/1 mutation.
- **Family models**:
  - hamilton/model.py in `hamilton.dfy`;
  - hamilton_basic/model.py in `hamilton_basic.dfy`;
  - hamilton/multigene_model.py in `multigene.dfy`;
  - kinship/ibd_model.py, whose altruists weigh their relatedness read from
    the DAG, in `kinship.dfy`.
  Each `*Model` is a class holding its scheduler. Its methods (`AddAgents`,
  `AltruisticAction`, `Activate`, `Reproduce`, `Step`) update the schedule
  in place. Their contracts tie the new state to specification functions
  over the old state (`Activation`, `NewGeneration`, `KinActivation`,
  `NextDag`), and lemmas state what those functions mean.
- **Green-beard models** of green_beard_basic/model.py and
  green_beard_advanced/model.py. The shared danger rooms, numbering and
  breeding loops are in `green_beard.dfy`; each variant has its own file.
- **Genetic-algorithm operators** of selfish_herd/GeneticAlg.py and
  Predator/GeneticAlg.py, in `genetic_alg.dfy`. Crossover and mutation work
  in place on `array<int>`. `gen_offspring` works on a sequence of arrays, so
  the aliasing of its returned children is part of the model.

Randomness is an input throughout:

- `random.random()` is a `real` draw;
- `random.choice` is a position or a boolean;
- `random.sample`, a shuffle, and `np.random.choice` without replacement are
  sequences of distinct ids.

`random.sample` raising `ValueError` when too few agents are alive is
modelled: the `Reproduce`, `Interact` and `Step` methods return
`raised` and leave the state as the exception leaves it.

On these points the code behaves otherwise than one might expect, and the
model follows the code:

- `ig_ibd_coeff(a, a)` is 0.5, not 1.0. A node's parents are common to both
  sides of the query (`Genealogy.SelfIsHalf`).
- `add_edges_from` creates missing parent nodes rather than skipping the edge
  (`Genealogy.AddChildExact`).
- The benefit threshold is strict, `b > 1`. A benefit of exactly 1.0 makes
  the altruist stay and its room-mates die (`Kinship.KinVictims`).
- A population too small to sample raises `ValueError` rather than being a
  no-op.
- green_beard_basic creates N + 1 founders (`GreenBeardBasic.InitialBeardsCount`).
- The comment at kinship/ibd_model.py:141 says at least N agents survive
  every step. That holds for N >= 2 (`Kinship.KinSurvivorsAtLeastN`). For
  N = 1 a generation has 20 * (1 // 2) = 0 agents, so the first step's
  `reproduce` raises.

## Model

| member | source | states |
|---|---|---|
| Numerals.Digits | hamilton/utils.py:26 | the digits of `bin(n)` are below the base, at least one, with no leading zero |
| Numerals.ValueOfDigits | hamilton/utils.py:26-36 | the value of the digits of `n` is `n`: `int(bin(n)[2:], 2) == n` |
| Numerals.LeadingZeros | hamilton/utils.py:27 | leading zeros (what `zfill` adds) do not change the value |
| Numerals.DigitsCountMono | hamilton/utils.py:18-27 | a larger number never has fewer binary digits, so `length` bounds every smaller value's digits |
| Numerals.IntToString | hamilton/utils.py:151 | `str(i)` is non-empty and holds no '#' |
| Numerals.IntToStringRoundTrip | hamilton/utils.py:139 | parsing `str(i)` back gives `i` |
| Numerals.IntToStringInjective | hamilton/utils.py:151 | distinct integers have distinct decimal texts |
| Numerals.Trunc | hamilton/model.py:111 | `int(x)` of a non-negative real is the integer part: `t <= x < t + 1` |
| Numerals.TruncRatio | hamilton/model.py:111-116 | `int(N * r)` lies in 0 .. N for r in [0, 1] |
| Seqs.Range | hamilton/model.py:111 | `range(lo, hi)`: its length and element i is lo + i |
| Mesa.Scheduler.constructor | hamilton/model.py:88 | a new scheduler is empty with both counters at 0 |
| Mesa.Scheduler.Add | hamilton/model.py:113 | `add` appends the new id to the key order, maps it to the agent, and keeps the counters |
| Mesa.Scheduler.Remove | hamilton/model.py:57 | `remove` deletes the id from the map and from the order, keeping the others' order |
| Mesa.Scheduler.Tick | hamilton/model.py:29-30 | `steps` and `time` each rise by exactly 1; the agents are unchanged; the same logic is at green_beard_basic/model.py:25-26, green_beard_advanced/model.py:16-25 |
| Mesa.Scheduler.RemoveAll | hamilton/model.py:135 | removing every agent of the buffer snapshot never raises and empties the schedule |
| Mesa.Scheduler.AddNumbered | hamilton/model.py:136-137 | child i is added under id i: the order is 0 .. n-1 and id i maps to `xs[i]` |
| Mesa.Scheduler.CountIsKeys | hamilton/model.py:93-94 | `get_agent_count()` equals the number of ids in the order |
| Mesa.NumberedCard | hamilton/model.py:136-137 | a generation of n children holds exactly n ids |
| Mating.MatingPairsPartition | hamilton/model.py:124-127 | the pairs of a distinct sample are disjoint and use every sampled id except an odd last one |
| Mating.MatingPairsDisjoint | kinship/ibd_model.py:110-113 | no id is in two pairs of a distinct sample, nor twice in one |
| Mating.MatingPairsCover | hamilton_basic/model.py:82-83 | the paired ids are exactly the first 2 * (N // 2) sampled ids |
| Mating.AdjacentPairsPartition | green_beard_basic/model.py:120-124 | neighbour pairs of a shuffle are disjoint and use every id except an odd last one |
| Mating.MutateFacts | hamilton/model.py:132 | a 0/1 allele stays 0/1 and changes exactly when the draw is at most mr |
| FloatBin.NewHandler | hamilton/utils.py:14-18 | the handler keeps its precision and its `const` is at least 1, so `bin2float` never divides by zero; its `length` is the subject of `UniformWidth` |
| FloatBin.BasicConstIsPow | hamilton_basic/utils.py:11 | `int("1" + "0" * precision)` is 10^precision, the same constant as hamilton/utils.py |
| FloatBin.BinDigits | hamilton/utils.py:26-27 | `bin(n)[2:]` of a natural number is its binary digits |
| FloatBin.EncodeShape | hamilton/utils.py:26-28 | `float2bin` is "0b", then zeros up to `length`, then all binary digits of `int(f * const)`: the padding never cuts a digit; the same logic is at hamilton_basic/utils.py:20-23 |
| FloatBin.RoundTrip | hamilton/utils.py:26-36 | `int(float2bin(f), 2) == int(f * const)` for a non-negative scaled value; the same logic is at hamilton_basic/utils.py:20-31 |
| FloatBin.Bin2FloatOfFloat2Bin | hamilton/utils.py:36 | `bin2float(float2bin(f))` is `int(f * const) / const` |
| FloatBin.NegativeNotDecodable | hamilton/utils.py:26-36 | a negative scaled value encodes to a string that `int(_, 2)` rejects |
| FloatBin.UniformWidth | hamilton/utils.py:9-27 | every value scaling to at most `int(max_value * const)` encodes to exactly 2 + `length` characters; the same logic is at hamilton_basic/utils.py:5-22 |
| FloatBin.MultigeneHandler | hamilton/multigene_model.py:33 | `FloatBinHandler(3, 1)` has const 1000 and writes 10 bits |
| Genealogy.HeadBeforeHash | hamilton/utils.py:139 | `s.split("#")[0]` is a prefix of `s` |
| Genealogy.SplitHash | hamilton/utils.py:139 | splitting `a + "#" + b` at the first '#' gives back `a` when `a` has no '#' |
| Genealogy.KeyPrefix | hamilton/utils.py:139 | the prefix before '#' of the key of (gen, id) is `str(gen)` |
| Genealogy.KeyInjective | hamilton/utils.py:151-152 | distinct (gen, id) nodes have distinct "gen#id" keys |
| Genealogy.KeepOtherGenerations | hamilton/utils.py:139 | the kept nodes are exactly those outside generation `gen`, order kept |
| Genealogy.PredsIn | hamilton/utils.py:123 | the predecessors are exactly the graph's nodes with an edge into the node |
| Genealogy.Common | hamilton/utils.py:124 | `[v for v in p1 if v in p2]` holds exactly the elements of both lists |
| Genealogy.OlderShrinks | hamilton/utils.py:128-130 | each recursion of `rLCA` strictly shrinks the set of older-generation nodes, so it terminates |
| Genealogy.RLca | hamilton/utils.py:116-130 | a non-None result is a non-empty list of graph nodes older than v1 |
| Genealogy.Half | hamilton/utils.py:96 | `0.5 ** d` is positive and at most 1 |
| Genealogy.NxIbdCoeff | hamilton/nx_script.py:17-23 | 0 without an ancestor, else 0.5 to the path length from the ancestor to n1; the same logic is at hamilton/utils.py:56-76 |
| Genealogy.FamilyTree.constructor | hamilton/utils.py:44-53 | the DAG and its igraph copy start empty |
| Genealogy.FamilyTree.RemoveGen | hamilton/utils.py:132-140 | `G` becomes `RemoveGeneration(G, gen)`, stays well formed, and `ig` is untouched; the same logic is at hamilton/nx_script.py:25-27 |
| Genealogy.FamilyTree.AddChild | hamilton/utils.py:142-152 | `G` gets the child's parent edges through `add_edges_from` and stays well formed; the same logic is at hamilton/nx_script.py:29-31 |
| Genealogy.FamilyTree.UpdateIg | hamilton/utils.py:154-158 | the igraph copy becomes `G`; `G` is unchanged |
| Genealogy.RemoveGenerationWellFormed | hamilton/utils.py:139-140 | removing a generation keeps the DAG well formed |
| Genealogy.RemoveGenerationExact | hamilton/utils.py:139-140 | exactly the nodes whose key prefix differs from str(gen) stay, with exactly the edges between them; the same logic is at hamilton/nx_script.py:25-27 |
| Genealogy.RemoveGenerationIdempotent | hamilton/nx_script.py:26-27 | a second `remove_generation` with the same id changes nothing |
| Genealogy.RemoveOldest | kinship/ibd_model.py:122 | removing the oldest generation of the window [lo, hi] leaves the window [lo + 1, hi] |
| Genealogy.AddEdgesMembers | hamilton/utils.py:152 | `add_edges_from` holds the old nodes and edges, the endpoints and edges given, and nothing else |
| Genealogy.AddChildExact | hamilton/utils.py:151-152 | `add_child` adds one edge per parent id, creates the missing endpoints after the existing nodes, and changes nothing else |
| Genealogy.AddChildEdgeSet | hamilton/nx_script.py:30-31 | the edges after `add_child` are the old ones plus one from each parent to the child |
| Genealogy.AddChildNode | hamilton/utils.py:152 | every old node stays, and a child with a parent gets its node |
| Genealogy.AddChildWellFormed | hamilton/utils.py:151-152 | every added edge joins consecutive generations, so the graph stays well formed |
| Genealogy.AddChildWindow | kinship/ibd_model.py:131 | adding children of generation `steps` keeps the DAG inside a window that reaches steps - 1 |
| Genealogy.PathLength | hamilton/utils.py:94-95 | a path from u to v has length gen(v) - gen(u) |
| Genealogy.ReachableIsOlder | hamilton/utils.py:94-95 | the start of a path is no younger than its end |
| Genealogy.AllPathsOneLength | hamilton/utils.py:94-95 | all paths between two nodes have one length, so `get_shortest_paths` gives that length |
| Genealogy.RLcaAncestor | hamilton/utils.py:116-130 | every node `rLCA` returns has a path to v1 and a path to v2 |
| Genealogy.PathSnoc | hamilton/utils.py:94 | a path extended by an edge out of its end is a path |
| Genealogy.IgIbdCoeffMeaning | hamilton/utils.py:90-114 | the coefficient is 0 exactly when `ig_LCA` finds nothing; otherwise it is 0.5 to the length of every path from that common ancestor to n1 |
| Genealogy.SiblingsHalf | hamilton/utils.py:90-126 | the coefficient is 0.5 exactly when the two nodes share a parent |
| Genealogy.SelfIsHalf | hamilton/utils.py:123-126 | a node queried against itself gets 0.5 when it has parents and 0 otherwise, never 1 |
| Genealogy.FirstCousinsQuarter | hamilton/utils.py:128-130 | nodes with no common parent whose first-listed parents share a parent get 0.25 |
| Genealogy.RLcaSymmetric | hamilton/utils.py:116-130 | for nodes of one generation, `rLCA(v1, v2)` is defined exactly when `rLCA(v2, v1)` is, and both find ancestors of the same generation |
| Genealogy.IgIbdCoeffSymmetric | hamilton/utils.py:90-96 | for nodes of one generation, the coefficient does not depend on the order of the question |
| Hamilton.FamilyMembers | hamilton/model.py:146-147 | the room of family f holds exactly the scheduled agents of family f, each once |
| Hamilton.Rooms | hamilton/model.py:146-147 | one room per sampled family: x is in room k iff x is scheduled and of family `danger_fam[k]`; for distinct families the rooms are duplicate-free and pairwise disjoint |
| Hamilton.Actors | hamilton/model.py:148 | one actor per room, drawn from that room |
| Hamilton.IndexOf | kinship/ibd_model.py:27 | `list.index(x)` is the first position of x |
| Hamilton.ActedOnce | hamilton/model.py:25-27 | the activation calls `step()` only on listed actors, each at most once |
| Hamilton.ActivationSubtracts | hamilton/model.py:25-27 | with one actor per family, walking the shuffle removes exactly the union of the actors' victims |
| Hamilton.KinAll | hamilton/model.py:59-60 | walking the whole buffer finds every other agent of the family |
| Hamilton.VictimsSpareOtherActors | hamilton/model.py:53-60 | no actor's action removes an actor of another family |
| Hamilton.ActivationOutcome | hamilton/model.py:53-60 | an altruist actor dies exactly when its draw is at most dr; a non-altruist actor's family loses everyone but the actor; nobody else is removed; the same logic, keyed on `genotype[0] == 1`, is at hamilton/multigene_model.py:17-25 |
| Hamilton.MatingPairsIn | hamilton/model.py:126-127 | both members of every pair are in the population |
| Hamilton.NewGeneration | hamilton/model.py:133-134 | three children per mating pair |
| Hamilton.NewGenerationFacts | hamilton/model.py:132-134 | child 3i + c has pair i's first parent as family and one parent's allele, flipped exactly when its draw is at most mr; 0/1 stays 0/1 |
| Hamilton.InitialAltruists | hamilton/model.py:110-118 | `add_agents` creates exactly k = int(N * r) carriers of allele 1 among its N founders, for every k <= N |
| Hamilton.AddAgents | hamilton/model.py:100-118 | ids 0 .. k-1 carry allele 1 and ids k .. N-1 allele 0, with k = int(N * r); each agent is its own family |
| Hamilton.AddInitial | hamilton/model.py:96-118 | with r in [0, 1] the schedule holds exactly ids 0 .. N-1 in order; the same logic is at kinship/ibd_model.py:80-97 |
| Hamilton.AddRun | hamilton/model.py:111-113 | one loop adds ids lo .. hi-1 in order after the existing ones |
| Hamilton.InitialNumbered | hamilton/model.py:110-118 | the two loops together number `InitialPopulation` 0 .. N-1 |
| Hamilton.InitialIds | hamilton/model.py:111-116 | `range(0, k)` then `range(k, N)` is `range(0, N)` |
| Hamilton.FamilyModel.constructor | hamilton/model.py:88-92 | an empty `SocialActivation` schedule with the given N, dr and mr |
| Hamilton.FamilyModel.AltruisticAction | hamilton/model.py:49-60 | the agents become the old agents minus `Victims`: an altruist removes itself unless its draw exceeds dr; a non-altruist removes its other family members; the same logic, keyed on `genotype[0] == 1`, is at hamilton/multigene_model.py:13-25 |
| Hamilton.FamilyModel.RemoveKin | hamilton/model.py:59-60 | every other agent of the family in the buffer snapshot leaves, order of the rest kept |
| Hamilton.FamilyModel.Activate | hamilton/model.py:20-30 | the agents become `Activation(old agents, shuffle, actors)`, and `steps` and `time` each rise by 1 |
| Hamilton.FamilyModel.Interact | hamilton/model.py:142-150 | raises exactly when fewer than N // 4 families exist; otherwise activates one actor per sampled family |
| Hamilton.FamilyModel.Reproduce | hamilton/model.py:120-137 | raises exactly when fewer than N agents are alive; otherwise the agents become `NewGeneration` numbered 0, 1, ... |
| Hamilton.FamilyModel.Step | hamilton/model.py:139-152 | raised iff the family sample or `reproduce` raises; a failed family sample changes nothing; a failed `reproduce` leaves the survivors with both counters +1; otherwise the survivors' children, with both counters +1 |
| Hamilton.NewFamilyModel | hamilton/model.py:73-98 | `add_agents` then `reproduce`: ids 0 .. 3 * (N // 2) - 1 holding the first generation of children |
| HamiltonBasic.AltruisticAction | hamilton_basic/model.py:45-49 | `action` iff the genotype is truthy; `survival` iff the genotype is 0 or the draw exceeds 0.95 |
| HamiltonBasic.BasicGeneration | hamilton_basic/model.py:86-87 | four children per mating pair |
| HamiltonBasic.BasicGenerationFacts | hamilton_basic/model.py:86-87 | child j belongs to pair j // 4: family the first parent's id, genotype exactly one parent's |
| HamiltonBasic.BreedsTrue | hamilton_basic/model.py:86-87 | without mutation, a sample all of genotype g has only children of genotype g |
| HamiltonBasic.BasicFamilyModel.constructor | hamilton_basic/model.py:57-75 | int(N * r) altruists and the rest non-altruists, then `reproduce`: ids 0 .. 4 * (N // 2) - 1 |
| HamiltonBasic.BasicFamilyModel.Reproduce | hamilton_basic/model.py:78-89 | raises exactly when fewer than N agents are alive; otherwise the old agents are replaced by `BasicGeneration` numbered 0, 1, ... |
| Multigene.FlipBit | hamilton/multigene_model.py:65 | a bit character flips to the other bit character |
| Multigene.Crossed | hamilton/multigene_model.py:60-62 | the crossover has one character per pick, the length of the zip of the two parents |
| Multigene.Trait2Computation | hamilton/multigene_model.py:58-70 | the two loops build exactly `Trait2(p1, p2)` |
| Multigene.Trait2Facts | hamilton/multigene_model.py:60-70 | the child keeps "0b" and the zipped length; each later character is the picked parent's, changed exactly when its draw is at most mr; bits stay bits; with no flip every bit is a parent's |
| Multigene.Trait2Encoded | hamilton/multigene_model.py:58-70 | two parents encoded at one width have a child encoded at that width |
| Multigene.TraitCodeEncoded | hamilton/multigene_model.py:43-48 | a founder's trait `float2bin(random())` is "0b" and 10 bits |
| Multigene.InitialMultigene | hamilton/multigene_model.py:41-50 | N founders: ids below k altruists, the rest not, each with its own trait draw |
| Multigene.InitialMultigeneEncoded | hamilton/multigene_model.py:41-50 | every founder carries a 0/1 allele and a trait of the uniform width |
| Multigene.MultigeneAgentEncoded | hamilton/multigene_model.py:44-49 | one founder carries a 0/1 allele and a well-encoded trait |
| Multigene.AddMultigeneAgents | hamilton/multigene_model.py:41-50 | the schedule holds `InitialMultigene` under ids 0 .. N-1 |
| Multigene.AddMultigeneLoops | hamilton/multigene_model.py:42-50 | the two loops add ids 0 .. k-1 and k .. N-1 in order |
| Multigene.MultigeneGeneration | hamilton/multigene_model.py:86-89 | three children per mating pair |
| Multigene.MultigeneGenerationFacts | hamilton/multigene_model.py:81-89 | child 3i + c: family the first parent's id, allele one parent's flipped exactly when its draw is at most mr, trait `trait2_computation` of the two parents; the generation stays well encoded |
| Multigene.MultigeneChildFacts | hamilton/multigene_model.py:87-89 | the same facts for one child |
| Multigene.MultigeneGenerationEncoded | hamilton/multigene_model.py:86-89 | children of well-encoded parents are well encoded |
| Multigene.MultigeneModel.constructor | hamilton/multigene_model.py:32-34 | the handler's width, then the agents are the first reproduction of the numbered founders `MultigeneFounders`, with ids 0 .. 3 * (N // 2) - 1 |
| Multigene.MultigeneModel.Reproduce | hamilton/multigene_model.py:72-93 | raises exactly when fewer than N agents are alive; otherwise the agents become `MultigeneGeneration` numbered 0, 1, ... |
| Multigene.MultigeneModel.Step | hamilton/model.py:139-152 | the inherited step: raised iff the family sample or this variant's `reproduce` raises; a failed family sample changes nothing; a failed `reproduce` leaves the survivors with both counters +1; otherwise the survivors' children |
| Kinship.BenefitBounds | kinship/ibd_model.py:35-36 | the benefit lies between 0 and half the number of room-mates |
| Kinship.SacrificeNeedsThree | kinship/ibd_model.py:38 | `b > 1` needs at least three room-mates |
| Kinship.BenefitOfSiblings | kinship/ibd_model.py:35-36 | room-mates that share a parent with the actor count 0.5 each |
| Kinship.KinVictims | kinship/ibd_model.py:32-48 | the actor dies exactly when it is an altruist with b > 1 and its draw is at most dr; a room-mate dies exactly when the actor is not such an altruist; nobody outside the room dies |
| Kinship.KinAct | kinship/ibd_model.py:27-48 | the actor acts on the room at its position in `active`, an altruist first leaving that room list |
| Kinship.KinActivation | kinship/ibd_model.py:146 | the shuffled ids are visited in turn; present listed actors act |
| Kinship.KinActivationOutcome | kinship/ibd_model.py:142-146 | whatever the shuffle, the interaction removes exactly the victims of every room, each judged on its room as drawn |
| Kinship.KinVictimsBound | kinship/ibd_model.py:32-48 | one action removes at most 29 agents of a room of 30 |
| Kinship.KinSurvivorsAtLeastN | kinship/ibd_model.py:141-142 | when the population is 20 * (N // 2) agents and N >= 2, at least N survive the interaction, so `reproduce` does not raise |
| Kinship.KinActUntouched | kinship/ibd_model.py:32-48 | an action leaves every later actor's room as it was |
| Kinship.ActorsDistinct | kinship/ibd_model.py:144 | actors chosen from disjoint rooms are distinct |
| Kinship.RoomsDisjoint | kinship/ibd_model.py:142 | rooms drawn without replacement are duplicate-free and pairwise disjoint |
| Kinship.RoomsInGraph | kinship/ibd_model.py:142-144 | rooms and actors are nodes of the current generation |
| Kinship.KinGeneration | kinship/ibd_model.py:116-119 | twenty children per mating pair |
| Kinship.KinGenerationFacts | kinship/ibd_model.py:116-119 | child j belongs to pair j // 20: one parent's allele flipped exactly when its draw is at most mr, family the first parent, parents both ids |
| Kinship.KinGenerationParents | kinship/ibd_model.py:119 | every child records its two parents |
| Kinship.AddChildrenWellFormed | kinship/ibd_model.py:128-131 | recording children keeps the DAG well formed |
| Kinship.AddChildrenWindow | kinship/ibd_model.py:128-131 | recording children keeps the DAG within generations steps - 2 .. steps |
| Kinship.AddChildrenNodes | kinship/ibd_model.py:128-131 | every recorded child with a parent has its node "steps#i" |
| Kinship.AddChildrenEdges | kinship/ibd_model.py:128-131 | recording the children adds exactly the edges from each child's parents one generation up |
| Kinship.GenerationValid | kinship/ibd_model.py:122-133 | after `reproduce` the DAG ends at the current step and holds every agent |
| Kinship.BroodSiblingsHalf | kinship/ibd_model.py:119-131 | two children with a common parent have relatedness 0.5 |
| Kinship.IBDModel.constructor | kinship/ibd_model.py:59-73 | the empty DAG, the founders, then the first reproduction: ids 0 .. 20 * (N // 2) - 1 holding `KinGeneration` of the founders |
| Kinship.IBDModel.Reproduce | kinship/ibd_model.py:99-133 | raises exactly when fewer than N agents are alive; otherwise the agents become `KinGeneration` numbered 0, 1, ... and the DAG becomes `NextDag` |
| Kinship.IBDModel.Renew | kinship/ibd_model.py:121-133 | prune, empty the schedule, add each child to schedule and DAG, rebuild the igraph copy |
| Kinship.IBDModel.AddGeneration | kinship/ibd_model.py:128-131 | child i joins the schedule as id i and the DAG below its parents |
| Kinship.IBDModel.RemoveMembers | kinship/ibd_model.py:45-48 | every listed agent but the actor leaves the schedule |
| Kinship.IBDModel.AltruisticAction | kinship/ibd_model.py:17-48 | the agents lose exactly `KinVictims`; the actor's room list loses the altruist |
| Kinship.IBDModel.Activate | kinship/ibd_model.py:146 | the agents become `KinActivation`, and `steps` and `time` each rise by 1 |
| Kinship.IBDModel.Interact | kinship/ibd_model.py:142-146 | rooms and actors are stored, then activated |
| Kinship.IBDModel.Step | kinship/ibd_model.py:135-148 | both counters +1; raised iff fewer than N survived, leaving the survivors and the DAG; otherwise the children with ids 0 .. 20 * (N // 2) - 1 and the DAG `NextDag`; never raised when N >= 2 and the population is a full generation |
| GreenBeard.DangerRooms | green_beard_basic/model.py:167-178 | `danger_dict` has one room per index 0 .. D - 1; what the rooms hold is `DangerRoomsFacts` |
| GreenBeard.AssignRooms | green_beard_basic/model.py:169-178 | the assignment loop builds exactly `DangerRooms`; the same logic is at green_beard_advanced/model.py:202-213 |
| GreenBeard.DangerRoomsFacts | green_beard_basic/model.py:166-178 | at most two distinct agents per room, room 0 empty, every member scheduled, no agent in two rooms, and an agent left out of the room it drew found it full |
| GreenBeard.DrawnZero | green_beard_basic/model.py:171 | no draw of `randint(1, n)` is 0, so nobody enters room 0 |
| GreenBeard.RoomsOfPopulation | green_beard_advanced/model.py:203-213 | each room holds at most 2 agents, all alive, none in two rooms |
| GreenBeard.Cull | green_beard_basic/model.py:181-199 | the victims the rooms name leave the schedule; the order of the others is kept; the same logic is at green_beard_advanced/model.py:216-231 |
| GreenBeard.OwnVictimsOneEach | green_beard_basic/model.py:181-199 | victims drawn from their own disjoint rooms are never named twice |
| GreenBeard.CulledInRoom | green_beard_basic/model.py:181-199 | a member of room k leaves exactly when it is room k's victim |
| GreenBeard.AddFrom | green_beard_advanced/model.py:115-118 | agents join one by one, each under the next counter value, appended in order |
| GreenBeard.BreedPair | green_beard_basic/model.py:128-141 | each child takes the next id and joins; then both parents leave |
| GreenBeard.BreedPairs | green_beard_basic/model.py:122-141 | children get ids c + 1, c + 2, ...; the parents leave; the unpaired agents stay first in their order |
| GreenBeard.UnpairedLeftover | green_beard_basic/model.py:120-141 | of a shuffle paired neighbour by neighbour, only an odd last agent stays |
| GreenBeard.AdjacentPlan | green_beard_advanced/model.py:155-160 | the adjacent pairs of a shuffle are disjoint pairs of living agents |
| GreenBeard.FlattenSize | green_beard_basic/model.py:125 | 2 to max_child children per pair |
| GreenBeard.BornKeys | green_beard_basic/model.py:129-134 | children numbered from c take ids c + 1 .. c + n |
| GreenBeardBasic.InitialBeardsCount | green_beard_basic/model.py:99-107 | N + 1 founders, exactly int(N * r) of them altruists, all 0/1 |
| GreenBeardBasic.InitialBeardsBorn | green_beard_basic/model.py:100-107 | the two loops together build `InitialBeards` |
| GreenBeardBasic.AddAgents | green_beard_basic/model.py:89-107 | ids 0 .. k-1 get genotype 1, ids k .. N genotype 0, in that order |
| GreenBeardBasic.BeardChild | green_beard_basic/model.py:130-133 | one parent's genotype on the pick, then `mutate`; 0/1 stays 0/1 |
| GreenBeardBasic.BinaryChildren | green_beard_basic/model.py:130-133 | 0/1 genotypes are closed under the child rule |
| GreenBeardBasic.BredTrue | green_beard_basic/model.py:130-133 | with no mutation draw at or below mr, a population of one genotype breeds true |
| GreenBeardBasic.Broods | green_beard_basic/model.py:125-133 | one brood per pair, with one child per draw |
| GreenBeardBasic.BredShape | green_beard_basic/model.py:120-141 | only an odd last agent of the shuffle stays; the other ids give way to children c + 1 .. c + n, 2 to 4 per pair |
| GreenBeardBasic.BredWithin | green_beard_basic/model.py:120-141 | a genotype set holding the population and every child holds after `reproduce` |
| GreenBeardBasic.BredValid | green_beard_basic/model.py:77-134 | `reproduce` keeps genotypes 0/1 and every id at most the advanced `tot_N` |
| GreenBeardBasic.BreedShuffle | green_beard_basic/model.py:120-141 | the schedule becomes `Bred`, the counter advances by the number of children, and the order is the leftover then the children |
| GreenBeardBasic.Victim | green_beard_basic/model.py:181-199 | a lone agent dies; the second of two never dies; the first dies unless both are green beards and the draw is at least dr |
| GreenBeardBasic.Victims | green_beard_basic/model.py:181-199 | each room's victim is one of its own members |
| GreenBeardBasic.DangerRule | green_beard_basic/model.py:181-199 | room by room: a lone agent dies; agent2 survives; agent1 dies exactly when one of them is not a green beard or the draw is below dr |
| GreenBeardBasic.DangerOnlyInRooms | green_beard_basic/model.py:180-199 | nobody outside the rooms dies, and each room gives up at most one agent |
| GreenBeardBasic.BeardModel.constructor | green_beard_basic/model.py:61-87 | N + 1 founders, int(N * r) of them green beards, then `reproduce`, whose children are numbered from N + 1 |
| GreenBeardBasic.BeardModel.Reproduce | green_beard_basic/model.py:109-141 | the schedule becomes `Bred` with fresh ids numbered on from `tot_N` |
| GreenBeardBasic.BeardModel.Step | green_beard_basic/model.py:143-205 | rooms, culling, a scheduler tick, then `reproduce` of the survivors |
| GreenBeardAdvanced.BinariesExactly | green_beard_advanced/model.py:135-145 | a genotype is in `Binaries` exactly when both alleles are 0/1, and in `Linked` exactly when they also agree |
| GreenBeardAdvanced.Crossover | green_beard_advanced/model.py:56-72 | [agent1's altruism allele, agent2's beard allele]; a parent's genotype when the parents share that allele; 0/1 kept |
| GreenBeardAdvanced.Flip | green_beard_advanced/model.py:174-178 | an allele flips exactly on a draw below mr; 0/1 stays 0/1 |
| GreenBeardAdvanced.AdvChild | green_beard_advanced/model.py:162-180 | crossover on a draw below cr, else one parent's genotype; then each locus flips on its own draw; 0/1 kept |
| GreenBeardAdvanced.Founders | green_beard_advanced/model.py:113-145 | N + 1 founders with linkage; 3k and then max(0, N + 1 - 3k) without it |
| GreenBeardAdvanced.Carriers | green_beard_advanced/model.py:101-110 | the count of genotypes carrying allele 1 at a locus is at most the population |
| GreenBeardAdvanced.FoundersAlleles | green_beard_advanced/model.py:113-145 | each allele starts in 2k founders without linkage and k with it; with linkage every founder's alleles agree |
| GreenBeardAdvanced.AddRun | green_beard_advanced/model.py:115-118 | one founder loop: ids c + 1 .. c + n from `next_id()`, appended in order |
| GreenBeardAdvanced.AddFounders | green_beard_advanced/model.py:113-145 | founder i + 1 has genotype `Founders(N, k, linkage)[i]`, ids 1, 2, ... in order |
| GreenBeardAdvanced.Broods | green_beard_advanced/model.py:160-180 | one brood per pair, with one child per draw |
| GreenBeardAdvanced.BredWithin | green_beard_advanced/model.py:155-184 | a genotype set holding the population and every child holds after `reproduce` |
| GreenBeardAdvanced.BredValid | green_beard_advanced/model.py:171-181 | `reproduce` keeps alleles 0/1 and every id at most `current_id` |
| GreenBeardAdvanced.BredLinked | green_beard_advanced/model.py:164-180 | with no crossover or mutation draw, linkage disequilibrium survives reproduction |
| GreenBeardAdvanced.BreedShuffle | green_beard_advanced/model.py:155-184 | the schedule becomes `Bred`, `current_id` advances by the number of children, the order is the leftover then the children |
| GreenBeardAdvanced.Victim | green_beard_advanced/model.py:216-231 | a lone agent dies; agent1 dies only when altruist with a bearded agent2, on a draw below dr; otherwise agent2 dies |
| GreenBeardAdvanced.Victims | green_beard_advanced/model.py:216-231 | each room's victim is one of its own members |
| GreenBeardAdvanced.DangerRule | green_beard_advanced/model.py:216-231 | room by room the exact outcome of the rule, at most one death per room |
| GreenBeardAdvanced.BeardModelAdv.constructor | green_beard_advanced/model.py:80-145 | the founders of k = int(N * r) numbered 1, 2, ... by `next_id()`; `tot_N` runs N ahead of `current_id` |
| GreenBeardAdvanced.BeardModelAdv.Reproduce | green_beard_advanced/model.py:147-184 | the schedule becomes `Bred` numbered by `next_id()`; `tot_N` and `current_id` advance together |
| GreenBeardAdvanced.BeardModelAdv.Step | green_beard_advanced/model.py:186-236 | `n_steps` rises by 1, rooms, culling, a scheduler tick, then `reproduce` |
| GreenBeardAdvanced.FoundersValid | green_beard_advanced/model.py:116-145 | founders numbered from 0 have ids 1 .. n and keep 0/1 genotypes |
| GeneticAlg.Crossed | selfish_herd/GeneticAlg.py:22-27 | both lists keep their lengths |
| GeneticAlg.CrossedPositions | selfish_herd/GeneticAlg.py:22-27 | at every position the pair of genes is the same multiset; a position changes only where the draw is at most the rate; the second list's tail is untouched; the same logic is at Predator/GeneticAlg.py:9-14 |
| GeneticAlg.CrossedTwice | selfish_herd/GeneticAlg.py:25-27 | crossing again with the same draws gives back the parents |
| GeneticAlg.Crossover | selfish_herd/GeneticAlg.py:21-29 | the lists change in place into `Crossed` of their old contents, and the same two lists are returned; the same logic, with the rate as first argument, is at Predator/GeneticAlg.py:8-16 |
| GeneticAlg.FlipGene | selfish_herd/GeneticAlg.py:37-41 | the gene is always 0 or 1 afterwards; a 0/1 gene flips |
| GeneticAlg.Mutated | selfish_herd/GeneticAlg.py:34-41 | the length is kept |
| GeneticAlg.MutatedFacts | selfish_herd/GeneticAlg.py:34-41 | a 0/1 list stays 0/1, changes exactly where the draw is at most the rate, and the same draws undo it |
| GeneticAlg.Mutation | selfish_herd/GeneticAlg.py:32-41 | the list changes in place into `Mutated` of its old contents, and the same list is returned; the same logic, with the rate as first argument, is at Predator/GeneticAlg.py:19-28 |
| GeneticAlg.CouplesCount | selfish_herd/GeneticAlg.py:45 | `combinations(range(n), 2)` is every pair i < j, and there are n(n - 1) / 2 of them, so 15 individuals give the 105 couples the comment at line 5 counts |
| GeneticAlg.CouplesFromMembers | selfish_herd/GeneticAlg.py:45 | the couples from i on are exactly the pairs i <= p < q < n |
| GeneticAlg.CouplesFromSize | selfish_herd/GeneticAlg.py:45 | there are (n - i)(n - i - 1) / 2 couples from i on |
| GeneticAlg.BreedCouple | selfish_herd/GeneticAlg.py:46-51 | one couple's crossover and mutations keep every list's length |
| GeneticAlg.BreedAll | selfish_herd/GeneticAlg.py:46-51 | the couples in turn keep every list's length |
| GeneticAlg.BreedAllBinary | selfish_herd/GeneticAlg.py:46-51 | a 0/1 population stays 0/1 |
| GeneticAlg.Children | selfish_herd/GeneticAlg.py:52-53 | two children per couple |
| GeneticAlg.ChildrenAt | selfish_herd/GeneticAlg.py:47-53 | child 2t is couple t's first list and child 2t + 1 its second: the population's own lists, not copies |
| GeneticAlg.GenOffspring | selfish_herd/GeneticAlg.py:43-55 | two children per couple, which are the couples' own lists; the lists end as `BreedAll` of their old contents |

## Left out

- Plotting, batch runners, Mesa visualisation servers, `main.py` files, `print` calls, `__main__` blocks and the `DataCollector` reporters are I/O.
- The spatial predator/prey and selfish-herd models are outside this engine. Their grid movement and distances are floating point on a Mesa grid.
- hamilton/ibd_model.py holds only stubs.
- Random number generation is outside the model. Every draw, choice, sample and shuffle is an input, and the preconditions say which draws are well formed (distinct ids, positions in range, one draw per decision).
- Mesa's internals are outside the model. `BaseScheduler`, `agent_buffer` and `next_id` appear only through their observable effect: the id map in insertion order, the counters, and `current_id + 1`. The agents' own `step` in the green-beard models is Mesa's empty default, so activating them changes nothing but the counters.
- networkx's `lowest_common_ancestor` and `shortest_path_length` are foreign code. `Genealogy.NxIbdCoeff` takes the ancestor and the path as inputs and requires them to be what networkx guarantees.
- igraph's `from_networkx` is modelled as an exact copy of the graph, with vertex order equal to the networkx node insertion order.
- Floating point is out of scope. The codec works on the integer `int(f * const)`, and `Trunc` is exact truncation of a real. `bin2float`'s division is a real division.
- The danger-room count `num_agents // 1.87` (1.893 or 1.9 in the advanced model) is float floor division. The models take the resulting count D as an input.
- The fitness-weighted sampling of hamilton/multigene_model.py (`reproductive_fitness`, `np.exp`, the probability vector) is floating point. The model takes the drawn sample as an input, as a draw without replacement.
- `tot_N` of green_beard_advanced/model.py only counts. It is kept as a field and its relation to `current_id` is proved.
- hamilton_basic/model.py's `step` builds an empty dict and does nothing else. It is not modelled.
- GreenBeardBasic.Victim and GreenBeardAdvanced.Victim: each room draws one real for its decision, and the draw is used only in the case the source consumes it.
- Hamilton.AddInitial, Hamilton.NewFamilyModel, Multigene.AddMultigeneAgents, HamiltonBasic.BasicFamilyModel.constructor, Kinship.IBDModel.constructor, Multigene.MultigeneModel.constructor, GreenBeardBasic.BeardModel.constructor and GreenBeardAdvanced.BeardModelAdv.constructor require r in [0, 1]. For other ratios, `int(N * r)` falls outside 0 .. N and the Python loops would build a different population.
- GeneticAlg.GenOffspring requires the population's lists to be distinct objects. Python accepts a population holding one list twice. The aliasing between two couples' children that the model captures comes from the couples, not from a repeated list.
- GeneticAlg.Crossover requires the second list to be at least as long as the first. Otherwise Python's indexing raises `IndexError` part-way through, after some swaps, and that partial effect is not modelled.
- Kinship.IBDModel.AltruisticAction requires the actor's room-mates to be present. Rooms are disjoint and an action only shrinks the acting room, so `Kinship.IBDModel.Activate` meets this for every actor of a step.
