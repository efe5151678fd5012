/**
 * The family-altruism engine of hamilton/model.py: agents carry an allele
 * and a family id; each step a few families are put in danger, one member
 * of each acts, and the whole population is then replaced by the children
 * of sampled pairs. hamilton/multigene_model.py and kinship/ibd_model.py
 * reuse its datatypes and its scheduler step.
 */
module Hamilton {
  import opened Seqs
  import opened Numerals
  import opened Mesa
  import opened Mating

  /** An agent's genotype: one 0/1 allele, or that allele and an encoded second trait (multigene variant). */
  datatype Genotype = Allele(allele: int) | Multigene(allele: int, trait2: string)

  /** `FamilyAgent`: the agent's unique id is its key in the schedule. */
  datatype FamilyAgent = FamilyAgent(genotype: Genotype, family: int)

  type Population = map<int, FamilyAgent>

  /** `if self.genotype:` for a plain allele; `if self.genotype[0] == 1:` for the multigene variant. */
  predicate Altruist(g: Genotype)
  {
    match g
    case Allele(a) => a != 0
    case Multigene(a, _) => a == 1
  }

  predicate AllAllele(m: Population)
  {
    forall id :: id in m ==> m[id].genotype.Allele?
  }

  /** The family ids present: `set([a.family for a in schedule.agent_buffer()])`. */
  function Families(m: Population): set<int>
  {
    set id | id in m :: m[id].family
  }

  /** `[x for x in schedule.agent_buffer() if x.family == f]`: the family's members in schedule order. */
  function FamilyMembers(order: seq<int>, m: Population, f: int): (r: seq<int>)
    requires forall id :: id in order ==> id in m
    ensures forall id :: id in r <==> id in order && m[id].family == f
    ensures Distinct(order) ==> Distinct(r)
  {
    if order == [] then []
    else
      var head := order[0];
      assert head in order;
      var rest := FamilyMembers(order[1..], m, f);
      DistinctTail(order);
      if m[order[0]].family == f then [order[0]] + rest else rest
  }

  /** The danger rooms of `step`: one per sampled family, holding its members. */
  function Rooms(order: seq<int>, m: Population, dangerFam: seq<int>): (rooms: seq<seq<int>>)
    requires forall id :: id in order ==> id in m
    ensures |rooms| == |dangerFam|
    ensures forall k :: 0 <= k < |rooms| ==> rooms[k] == FamilyMembers(order, m, dangerFam[k])
    ensures forall k, x :: 0 <= k < |rooms| ==> (x in rooms[k] <==> x in order && m[x].family == dangerFam[k])
    ensures Distinct(order) && Distinct(dangerFam) ==>
      && (forall k :: 0 <= k < |rooms| ==> Distinct(rooms[k]))
      && (forall k1, k2, x :: 0 <= k1 < k2 < |rooms| && x in rooms[k1] ==> x !in rooms[k2])
  {
    seq(|dangerFam|, k requires 0 <= k < |dangerFam| => FamilyMembers(order, m, dangerFam[k]))
  }

  /** `[random.choice(r).unique_id for r in rooms]` with `picks[k]` the position chosen in room k. */
  function Actors(rooms: seq<seq<int>>, picks: seq<nat>): (active: seq<int>)
    requires |picks| == |rooms| && forall k :: 0 <= k < |rooms| ==> picks[k] < |rooms[k]|
    ensures |active| == |rooms|
    ensures forall k :: 0 <= k < |rooms| ==> active[k] in rooms[k]
  {
    seq(|rooms|, k requires 0 <= k < |rooms| => rooms[k][picks[k]])
  }

  /** The first position of `x` in `s`: Python's `s.index(x)`. */
  function IndexOf(s: seq<int>, x: int): (i: nat)
    requires x in s
    ensures i < |s| && s[i] == x && x !in s[..i]
  {
    if s[0] == x then 0 else 1 + IndexOf(s[1..], x)
  }

  // ---------------------------------------------------------------------------
  // The altruistic action and the activation step

  /**
   * The agents `altruistic_action` removes when agent `id` acts on `draw`:
   * an altruist removes itself unless the draw exceeds the death rate; a
   * non-altruist removes every other member of its family.
   */
  function Victims(m: Population, id: int, draw: real, dr: real): set<int>
    requires id in m
  {
    if Altruist(m[id].genotype) then (if draw > dr then {} else {id})
    else set x | x in m && m[x].family == m[id].family && x != id
  }

  /** The draw of an actor: the one at its position in the actor list. */
  function DrawOf(actors: seq<int>, draws: seq<real>, id: int): real
    requires |draws| == |actors| && id in actors
  {
    draws[IndexOf(actors, id)]
  }

  /**
   * `SocialActivation.step(actors)` on the agents: the shuffled ids are
   * visited in turn, and an id still present and listed among the actors acts.
   */
  function Activation(m: Population, shuffle: seq<int>, actors: seq<int>, draws: seq<real>, dr: real): Population
    requires |draws| == |actors|
    decreases |shuffle|
  {
    if shuffle == [] then m
    else
      var id := shuffle[0];
      var next := if id in m && id in actors then m - Victims(m, id, DrawOf(actors, draws, id), dr) else m;
      Activation(next, shuffle[1..], actors, draws, dr)
  }

  /** The ids whose `step()` the activation calls, in call order. */
  function Acted(m: Population, shuffle: seq<int>, actors: seq<int>, draws: seq<real>, dr: real): seq<int>
    requires |draws| == |actors|
    decreases |shuffle|
  {
    if shuffle == [] then []
    else
      var id := shuffle[0];
      if id in m && id in actors then
        [id] + Acted(m - Victims(m, id, DrawOf(actors, draws, id), dr), shuffle[1..], actors, draws, dr)
      else Acted(m, shuffle[1..], actors, draws, dr)
  }

  /** Everyone some actor's action removes. */
  ghost function Doomed(m: Population, actors: seq<int>, draws: seq<real>, dr: real): set<int>
    requires |draws| == |actors| && forall a :: a in actors ==> a in m
  {
    set a, x | a in actors && x in Victims(m, a, DrawOf(actors, draws, a), dr) :: x
  }

  ghost function DoomedAlong(m: Population, shuffle: seq<int>, actors: seq<int>, draws: seq<real>, dr: real): set<int>
    requires |draws| == |actors| && forall a :: a in actors ==> a in m
  {
    set a, x | a in shuffle && a in actors && x in Victims(m, a, DrawOf(actors, draws, a), dr) :: x
  }

  /** What `step` asks of its random inputs for the interaction. */
  ghost predicate InteractionDraws(order: seq<int>, m: Population, N: int, dangerFam: seq<int>, picks: seq<nat>, shuffle: seq<int>, draws: seq<real>)
    requires forall id :: id in order ==> id in m
  {
    && IsSample(dangerFam, Families(m), N / 4)
    && |picks| == N / 4 && |draws| == N / 4
    && (forall k :: 0 <= k < N / 4 ==> picks[k] < |Rooms(order, m, dangerFam)[k]|)
    && IsShuffle(shuffle, order)
  }

  /** The agents left after the interaction. */
  ghost function Survivors(order: seq<int>, m: Population, N: int, dangerFam: seq<int>, picks: seq<nat>, shuffle: seq<int>, draws: seq<real>, dr: real): Population
    requires forall id :: id in order ==> id in m
    requires InteractionDraws(order, m, N, dangerFam, picks, shuffle, draws)
  {
    var active := Actors(Rooms(order, m, dangerFam), picks);
    m - Doomed(m, active, draws, dr)
  }

  /** The ids among `ids` of agents of family `fam` other than `id`. */
  ghost function KinIn(m: Population, ids: seq<int>, fam: int, id: int): set<int>
  {
    set x | x in ids && x in m && m[x].family == fam && x != id
  }

  lemma KinSnoc(m: Population, ids: seq<int>, j: int, fam: int, id: int)
    requires 0 <= j < |ids|
    ensures var x := ids[j];
      KinIn(m, ids[..j + 1], fam, id)
        == KinIn(m, ids[..j], fam, id) + (if x in m && m[x].family == fam && x != id then {x} else {})
  {
    assert ids[..j + 1] == ids[..j] + [ids[j]];
  }

  /** Walking every id of the population finds all of the family but `id`: the set `Victims` names. */
  lemma KinAll(m: Population, order: seq<int>, fam: int, id: int)
    requires forall x :: x in order <==> x in m
    ensures KinIn(m, order, fam, id) == set x | x in m && m[x].family == fam && x != id
  {
  }

  /** `m` holds some of the agents of `m0`, unchanged. */
  ghost predicate SubPopulation(m: Population, m0: Population)
  {
    forall id :: id in m ==> id in m0 && m[id] == m0[id]
  }

  /** One actor per family: the shape of the danger rooms. */
  ghost predicate OnePerFamily(m: Population, actors: seq<int>)
  {
    forall i, j :: 0 <= i < j < |actors| ==> actors[i] in m && actors[j] in m && m[actors[i]].family != m[actors[j]].family
  }

  /** Every id is visited at most once, and only listed actors act. */
  lemma {:induction false} ActedOnce(m: Population, shuffle: seq<int>, actors: seq<int>, draws: seq<real>, dr: real)
    requires |draws| == |actors| && Distinct(shuffle)
    ensures var r := Acted(m, shuffle, actors, draws, dr);
      Distinct(r) && forall id :: id in r ==> id in actors && id in shuffle
    decreases |shuffle|
  {
    if shuffle != [] {
      var id := shuffle[0];
      var next := if id in m && id in actors then m - Victims(m, id, DrawOf(actors, draws, id), dr) else m;
      ActedOnce(next, shuffle[1..], actors, draws, dr);
      DistinctTail(shuffle);
      if id in m && id in actors {
        DistinctCons(id, Acted(next, shuffle[1..], actors, draws, dr));
      }
    }
  }

  /** The action of an actor present in a sub-population removes what it would remove from the whole. */
  lemma VictimsWithin(m0: Population, m: Population, id: int, draw: real, dr: real)
    requires SubPopulation(m, m0) && id in m
    ensures m - Victims(m, id, draw, dr) == m - Victims(m0, id, draw, dr)
  {
  }

  /** An actor's action never removes an actor of another family. */
  lemma VictimsSpareOtherActors(m0: Population, actors: seq<int>, id: int, a: int, draw: real, dr: real)
    requires forall x :: x in actors ==> x in m0
    requires OnePerFamily(m0, actors)
    requires id in actors && a in actors && a != id
    ensures a !in Victims(m0, id, draw, dr)
  {
    var i, j := IndexOf(actors, id), IndexOf(actors, a);
    if i < j {
      assert m0[actors[i]].family != m0[actors[j]].family;
    } else {
      assert m0[actors[j]].family != m0[actors[i]].family;
    }
  }

  lemma {:induction false} ActivationSubtracts(m0: Population, m: Population, shuffle: seq<int>, actors: seq<int>, draws: seq<real>, dr: real)
    requires |draws| == |actors| && Distinct(shuffle)
    requires SubPopulation(m, m0)
    requires forall a :: a in actors ==> a in m0
    requires OnePerFamily(m0, actors)
    requires forall a :: a in shuffle && a in actors ==> a in m
    ensures Activation(m, shuffle, actors, draws, dr) == m - DoomedAlong(m0, shuffle, actors, draws, dr)
    decreases |shuffle|
  {
    if shuffle == [] {
      assert DoomedAlong(m0, shuffle, actors, draws, dr) == {};
    } else {
      var id, rest := shuffle[0], shuffle[1..];
      DistinctTail(shuffle);
      var along := DoomedAlong(m0, rest, actors, draws, dr);
      if id in actors {
        var v := Victims(m0, id, DrawOf(actors, draws, id), dr);
        VictimsWithin(m0, m, id, DrawOf(actors, draws, id), dr);
        var next := m - v;
        forall a | a in rest && a in actors ensures a in next {
          VictimsSpareOtherActors(m0, actors, id, a, DrawOf(actors, draws, id), dr);
        }
        ActivationSubtracts(m0, next, rest, actors, draws, dr);
        assert DoomedAlong(m0, shuffle, actors, draws, dr) == v + along;
        assert next - along == m - (v + along);
      } else {
        ActivationSubtracts(m0, m, rest, actors, draws, dr);
        assert DoomedAlong(m0, shuffle, actors, draws, dr) == along;
      }
    }
  }

  /**
   * The outcome of a step whose actors come from distinct families and all
   * appear in the shuffle: an altruist actor dies exactly when its draw is
   * at most the death rate, a non-altruist actor's family loses everyone
   * but the actor, and nobody else is removed; survivors are unchanged.
   */
  lemma ActivationOutcome(m: Population, shuffle: seq<int>, actors: seq<int>, draws: seq<real>, dr: real)
    requires |draws| == |actors| && Distinct(shuffle)
    requires forall a :: a in actors ==> a in m && a in shuffle
    requires OnePerFamily(m, actors)
    ensures Activation(m, shuffle, actors, draws, dr) == m - Doomed(m, actors, draws, dr)
    ensures forall x :: x in Doomed(m, actors, draws, dr) <==>
      (x in actors && Altruist(m[x].genotype) && DrawOf(actors, draws, x) <= dr)
      || (x in m && exists a :: a in actors && !Altruist(m[a].genotype) && m[a].family == m[x].family && a != x)
  {
    ActivationSubtracts(m, m, shuffle, actors, draws, dr);
    assert DoomedAlong(m, shuffle, actors, draws, dr) == Doomed(m, actors, draws, dr);
    forall x ensures x in Doomed(m, actors, draws, dr) <==>
      (x in actors && Altruist(m[x].genotype) && DrawOf(actors, draws, x) <= dr)
      || (x in m && exists a :: a in actors && !Altruist(m[a].genotype) && m[a].family == m[x].family && a != x)
    {
      if x in Doomed(m, actors, draws, dr) {
        var a :| a in actors && x in Victims(m, a, DrawOf(actors, draws, a), dr);
      }
      if x in actors && Altruist(m[x].genotype) && DrawOf(actors, draws, x) <= dr {
        assert x in Victims(m, x, DrawOf(actors, draws, x), dr);
      }
      if x in m && exists a :: a in actors && !Altruist(m[a].genotype) && m[a].family == m[x].family && a != x {
        var a :| a in actors && !Altruist(m[a].genotype) && m[a].family == m[x].family && a != x;
        assert x in Victims(m, a, DrawOf(actors, draws, a), dr);
      }
    }
  }

  // ---------------------------------------------------------------------------
  // Reproduction

  /** The child a pair has with the parent choice `pick` (true: the first) and the mutation draw. */
  function Child(m: Population, p: (int, int), pick: bool, draw: real, mr: real): FamilyAgent
    requires p.0 in m && p.1 in m
  {
    var parent := if pick then m[p.0] else m[p.1];
    FamilyAgent(Allele(Mutate(parent.genotype.allele, draw, mr)), p.0)
  }

  /** Both members of every mating pair of a sample drawn from `m` are in `m`. */
  lemma MatingPairsIn(m: Population, sample: seq<int>)
    requires forall x :: x in sample ==> x in m
    ensures forall i :: 0 <= i < |sample| / 2 ==> MatingPairs(sample)[i].0 in m && MatingPairs(sample)[i].1 in m
  {
    forall i | 0 <= i < |sample| / 2 ensures MatingPairs(sample)[i].0 in m && MatingPairs(sample)[i].1 in m {
      var a, b := sample[i], sample[i + |sample| / 2];
      assert a in sample;
      assert b in sample;
    }
  }

  /** `newgen` of hamilton/model.py: three children per mating pair of the sample, in pair order. */
  function NewGeneration(m: Population, sample: seq<int>, picks: seq<bool>, draws: seq<real>, mr: real): (xs: seq<FamilyAgent>)
    requires forall x :: x in sample ==> x in m
    requires |picks| == 3 * (|sample| / 2) && |draws| == 3 * (|sample| / 2)
    ensures |xs| == 3 * (|sample| / 2)
  {
    var ps := MatingPairs(sample);
    MatingPairsIn(m, sample);
    seq(3 * |ps|, j requires 0 <= j < 3 * |ps| => Child(m, ps[j / 3], picks[j], draws[j], mr))
  }

  /** A 0/1 allele everywhere. */
  predicate Binary(m: Population)
  {
    forall id :: id in m ==> m[id].genotype.allele == 0 || m[id].genotype.allele == 1
  }

  /**
   * Children 3i, 3i+1 and 3i+2 belong to pair i: their family is the first
   * parent's id and their allele is one parent's, flipped exactly when the
   * mutation draw is at most the rate; 0/1 alleles stay 0/1.
   */
  lemma NewGenerationFacts(m: Population, sample: seq<int>, picks: seq<bool>, draws: seq<real>, mr: real, i: int, c: int)
    requires forall x :: x in sample ==> x in m
    requires |picks| == 3 * (|sample| / 2) && |draws| == 3 * (|sample| / 2)
    requires 0 <= i < |sample| / 2 && 0 <= c < 3 && Binary(m)
    ensures sample[i] in m && sample[i + |sample| / 2] in m
    ensures var x := NewGeneration(m, sample, picks, draws, mr)[3 * i + c];
      var parent := if picks[3 * i + c] then m[sample[i]] else m[sample[i + |sample| / 2]];
      && x.family == sample[i]
      && x.genotype.Allele?
      && (x.genotype.allele == 0 || x.genotype.allele == 1)
      && (x.genotype.allele != parent.genotype.allele <==> draws[3 * i + c] <= mr)
  {
    var j := 3 * i + c;
    assert j / 3 == i;
    var a, b := sample[i], sample[i + |sample| / 2];
    assert a in sample;
    assert b in sample;
    var pid := if picks[j] then a else b;
    var parent := m[pid];
    assert parent.genotype.allele == 0 || parent.genotype.allele == 1;
    MutateFacts(parent.genotype.allele, draws[j], mr);
  }

  /** What `reproduce` asks of its random inputs when the sample can be drawn. */
  ghost predicate ReproductionDraws(m: Population, N: int, sample: seq<int>, picks: seq<bool>, draws: seq<real>, perPair: nat)
  {
    IsSample(sample, m.Keys, N) && |picks| == perPair * (N / 2) && |draws| == perPair * (N / 2)
  }

  // ---------------------------------------------------------------------------
  // add_agents

  /** The agent `add_agents` creates with id `id` when the first k ids are altruists. */
  function InitialAgent(id: int, k: int): FamilyAgent
  {
    FamilyAgent(Allele(if id < k then 1 else 0), id)
  }

  /** The population of `add_agents` when 0 <= k <= N: ids 0 .. N-1. */
  function InitialPopulation(N: nat, k: int): (xs: seq<FamilyAgent>)
    ensures |xs| == N && forall i :: 0 <= i < N ==> xs[i] == InitialAgent(i, k)
  {
    seq(N, i requires 0 <= i < N => InitialAgent(i, k))
  }

  /** The number of agents carrying the altruistic allele 1. */
  function AltruistCount(xs: seq<FamilyAgent>): nat
  {
    if xs == [] then 0
    else AltruistCount(xs[..|xs| - 1]) + (if xs[|xs| - 1].genotype == Allele(1) then 1 else 0)
  }

  /** The first n founders hold min(n, k) altruists. */
  lemma {:induction false} InitialAltruistsPrefix(n: nat, k: nat)
    ensures AltruistCount(InitialPopulation(n, k)) == if n <= k then n else k
  {
    if n > 0 {
      InitialAltruistsPrefix(n - 1, k);
      assert InitialPopulation(n, k)[..n - 1] == InitialPopulation(n - 1, k);
    }
  }

  /** `add_agents` creates exactly k = int(N * r) carriers of allele 1 among its N founders. */
  lemma InitialAltruists(N: nat, k: nat)
    requires k <= N
    ensures AltruistCount(InitialPopulation(N, k)) == k
  {
    InitialAltruistsPrefix(N, k);
  }

  /**
   * `add_agents(N, r)`: ids 0 .. k-1 get allele 1 and ids k .. N-1 allele
   * 0, with k = int(N * r); every agent is its own family.
   */
  method AddAgents(s: Scheduler<FamilyAgent>, N: int, r: real) returns (k: int)
    requires s.Valid() && s.order == [] && s.agents == map[]
    modifies s
    ensures k == Trunc(N as real * r)
    ensures s.Valid()
    ensures s.order == Range(0, k) + Range(k, N)
    ensures forall id :: id in s.agents <==> 0 <= id < k || k <= id < N
    ensures forall id :: id in s.agents ==> s.agents[id] == InitialAgent(id, k)
    ensures s.steps == old(s.steps) && s.time == old(s.time)
  {
    k := Trunc(N as real * r);
    AddRun(s, 0, k, k);
    AddRun(s, k, N, k);
  }

  /**
   * `add_agents(N, r)` on an empty schedule, as a whole: the schedule holds
   * the population `InitialPopulation(N, int(N * r))` under ids 0 .. N-1.
   */
  method AddInitial(s: Scheduler<FamilyAgent>, N: nat, r: real) returns (k: int)
    requires 0.0 <= r <= 1.0
    requires s.Valid() && s.order == [] && s.agents == map[]
    modifies s
    ensures k == Trunc(N as real * r) && 0 <= k <= N
    ensures s.Valid() && s.order == Range(0, N)
    ensures s.agents == Numbered(InitialPopulation(N, k))
    ensures s.agents.Keys == IdsBelow(N) && |s.agents.Keys| == N
    ensures s.steps == old(s.steps) && s.time == old(s.time)
  {
    k := AddAgents(s, N, r);
    TruncRatio(N, r);
    InitialIds(N, k);
    ghost var xs := InitialPopulation(N, k);
    InitialNumbered(s.agents, N, k);
    NumberedCard(xs);
  }

  lemma InitialNumbered(m: Population, N: nat, k: int)
    requires 0 <= k <= N
    requires forall id :: id in m <==> 0 <= id < k || k <= id < N
    requires forall id :: id in m ==> m[id] == InitialAgent(id, k)
    ensures m == Numbered(InitialPopulation(N, k)) && m.Keys == IdsBelow(N)
  {
    var n := Numbered(InitialPopulation(N, k));
    assert forall id :: id in m <==> id in n;
    assert m.Keys == n.Keys;
    assert forall id :: id in m.Keys <==> id in IdsBelow(N);
  }

  /** One loop of `add_agents`: ids lo .. hi-1 are added in order (none when hi <= lo). */
  method AddRun(s: Scheduler<FamilyAgent>, lo: int, hi: int, k: int)
    requires s.Valid() && forall id :: id in s.agents ==> id < lo
    requires forall id :: id in s.agents ==> s.agents[id] == InitialAgent(id, k)
    modifies s
    ensures s.Valid() && s.order == old(s.order) + Range(lo, hi)
    ensures forall id :: id in s.agents <==> id in old(s.agents) || lo <= id < hi
    ensures forall id :: id in s.agents ==> s.agents[id] == InitialAgent(id, k)
    ensures s.steps == old(s.steps) && s.time == old(s.time)
  {
    var i := lo;
    while i < hi
      invariant lo <= i && (lo <= hi ==> i <= hi) && (hi < lo ==> i == lo)
      invariant s.Valid() && s.order == old(s.order) + Range(lo, i)
      invariant forall id :: id in s.agents <==> id in old(s.agents) || lo <= id < i
      invariant forall id :: id in s.agents ==> s.agents[id] == InitialAgent(id, k)
      invariant s.steps == old(s.steps) && s.time == old(s.time)
    {
      RangeSnoc(lo, i);
      s.Add(i, InitialAgent(i, k));
      i := i + 1;
    }
  }

  /** With 0 <= int(N*r) <= N, `add_agents` creates exactly the ids 0 .. N-1. */
  lemma InitialIds(N: int, k: int)
    requires 0 <= k <= N
    ensures Range(0, k) + Range(k, N) == Range(0, N)
  {
    var a, b := Range(0, k) + Range(k, N), Range(0, N);
    assert |a| == |b|;
    forall i | 0 <= i < |a| ensures a[i] == b[i] {
      if i >= k {
        assert a[i] == Range(k, N)[i - k];
      }
    }
  }

  // ---------------------------------------------------------------------------
  // The model

  /** `FamilyModel` of hamilton/model.py. */
  class FamilyModel {
    const schedule: Scheduler<FamilyAgent>
    const N: int
    /** The death rate of a sacrificing altruist. */
    const dr: real
    /** The mutation rate. */
    const mr: real

    ghost predicate Valid()
      reads schedule
    {
      schedule.Valid()
    }

    /** The part of `__init__` that every variant shares: an empty `SocialActivation` schedule. */
    constructor (N: int, dr: real, mr: real)
      ensures Valid() && fresh(schedule)
      ensures schedule.order == [] && schedule.agents == map[] && schedule.steps == 0 && schedule.time == 0
      ensures this.N == N && this.dr == dr && this.mr == mr
    {
      this.N := N;
      this.dr := dr;
      this.mr := mr;
      schedule := new Scheduler();
    }

    /** `FamilyAgent.altruistic_action` of agent `id` with the draw `draw`. */
    method AltruisticAction(id: int, draw: real)
      requires Valid() && id in schedule.agents
      modifies schedule
      ensures Valid()
      ensures schedule.agents == old(schedule.agents) - Victims(old(schedule.agents), id, draw, dr)
      ensures schedule.order == Restrict(old(schedule.order), schedule.agents.Keys)
      ensures schedule.steps == old(schedule.steps) && schedule.time == old(schedule.time)
    {
      ghost var m0, o0 := schedule.agents, schedule.order;
      RestrictAll(o0, m0.Keys);
      var me := schedule.agents[id];
      if Altruist(me.genotype) {
        if draw > dr {
          return;
        } else {
          WithoutRestrict(o0, m0.Keys, id);
          schedule.Remove(id);
        }
      } else {
        RemoveKin(id, me.family);
        KinAll(m0, o0, me.family, id);
      }
    }

    /**
     * The non-altruist's path: every other agent of family `fam` is
     * removed, in the order the schedule held them when the loop began.
     */
    method RemoveKin(id: int, fam: int)
      requires Valid()
      modifies schedule
      ensures Valid()
      ensures schedule.agents == old(schedule.agents) - KinIn(old(schedule.agents), old(schedule.order), fam, id)
      ensures schedule.order == Restrict(old(schedule.order), schedule.agents.Keys)
      ensures schedule.steps == old(schedule.steps) && schedule.time == old(schedule.time)
    {
      ghost var m0, o0 := schedule.agents, schedule.order;
      RestrictAll(o0, m0.Keys);
      var snapshot := schedule.order;
      assert KinIn(m0, snapshot[..0], fam, id) == {} && m0 - {} == m0;
      for j := 0 to |snapshot|
        invariant schedule.Valid()
        invariant schedule.agents == m0 - KinIn(m0, snapshot[..j], fam, id)
        invariant schedule.order == Restrict(o0, schedule.agents.Keys)
        invariant schedule.steps == old(schedule.steps) && schedule.time == old(schedule.time)
      {
        RemoveKinStep(m0, o0, snapshot, j, id, fam);
      }
      assert snapshot[..|snapshot|] == snapshot;
    }

    /** One turn of `RemoveKin`: the j-th id of the snapshot goes if it is still present and kin. */
    method RemoveKinStep(ghost m0: Population, ghost o0: seq<int>, snapshot: seq<int>, j: int, id: int, fam: int)
      requires 0 <= j < |snapshot| && schedule.Valid()
      requires schedule.agents == m0 - KinIn(m0, snapshot[..j], fam, id)
      requires schedule.order == Restrict(o0, schedule.agents.Keys)
      modifies schedule
      ensures schedule.Valid()
      ensures schedule.agents == m0 - KinIn(m0, snapshot[..j + 1], fam, id)
      ensures schedule.order == Restrict(o0, schedule.agents.Keys)
      ensures schedule.steps == old(schedule.steps) && schedule.time == old(schedule.time)
    {
      var x := snapshot[j];
      ghost var kin := KinIn(m0, snapshot[..j], fam, id);
      KinSnoc(m0, snapshot, j, fam, id);
      if x in schedule.agents && schedule.agents[x].family == fam && x != id {
        WithoutRestrict(o0, schedule.agents.Keys, x);
        MapMinusMinus(m0, kin, x);
        assert schedule.agents.Keys - {x} == (m0 - (kin + {x})).Keys;
        schedule.Remove(x);
      } else {
        assert kin == KinIn(m0, snapshot[..j + 1], fam, id);
      }
    }

    /**
     * `SocialActivation.step(actors)`: a shuffled snapshot of the ids is
     * walked; an agent still present and listed among the actors acts with
     * the draw at its position in the actor list; then `steps` and `time`
     * each rise by one. `acted` lists the agents whose `step()` ran.
     */
    method Activate(actors: seq<int>, shuffle: seq<int>, draws: seq<real>) returns (ghost acted: seq<int>)
      requires Valid() && IsShuffle(shuffle, schedule.order) && |draws| == |actors|
      modifies schedule
      ensures Valid()
      ensures schedule.agents == Activation(old(schedule.agents), shuffle, actors, draws, dr)
      ensures acted == Acted(old(schedule.agents), shuffle, actors, draws, dr)
      ensures schedule.order == Restrict(old(schedule.order), schedule.agents.Keys)
      ensures schedule.steps == old(schedule.steps) + 1 && schedule.time == old(schedule.time) + 1
    {
      ghost var m0, o0 := schedule.agents, schedule.order;
      RestrictAll(o0, m0.Keys);
      acted := [];
      var i := 0;
      while i < |shuffle|
        invariant 0 <= i <= |shuffle|
        invariant schedule.Valid()
        invariant Activation(m0, shuffle, actors, draws, dr) == Activation(schedule.agents, shuffle[i..], actors, draws, dr)
        invariant Acted(m0, shuffle, actors, draws, dr) == acted + Acted(schedule.agents, shuffle[i..], actors, draws, dr)
        invariant schedule.agents.Keys <= m0.Keys
        invariant schedule.order == Restrict(o0, schedule.agents.Keys)
        invariant schedule.steps == old(schedule.steps) && schedule.time == old(schedule.time)
      {
        acted := Visit(m0, o0, shuffle, actors, draws, i, acted);
        i := i + 1;
      }
      schedule.Tick();
    }

    /** One visit of the activation loop: the i-th id of the shuffle acts if it is present and listed. */
    method Visit(ghost m0: Population, ghost o0: seq<int>, shuffle: seq<int>, actors: seq<int>, draws: seq<real>, i: int,
                 ghost acted: seq<int>) returns (ghost acted': seq<int>)
      requires 0 <= i < |shuffle| && |draws| == |actors| && Valid()
      requires Activation(m0, shuffle, actors, draws, dr) == Activation(schedule.agents, shuffle[i..], actors, draws, dr)
      requires Acted(m0, shuffle, actors, draws, dr) == acted + Acted(schedule.agents, shuffle[i..], actors, draws, dr)
      requires schedule.agents.Keys <= m0.Keys && schedule.order == Restrict(o0, schedule.agents.Keys)
      modifies schedule
      ensures Valid()
      ensures Activation(m0, shuffle, actors, draws, dr) == Activation(schedule.agents, shuffle[i + 1..], actors, draws, dr)
      ensures Acted(m0, shuffle, actors, draws, dr) == acted' + Acted(schedule.agents, shuffle[i + 1..], actors, draws, dr)
      ensures schedule.agents.Keys <= m0.Keys && schedule.order == Restrict(o0, schedule.agents.Keys)
      ensures schedule.steps == old(schedule.steps) && schedule.time == old(schedule.time)
    {
      var id := shuffle[i];
      ghost var m := schedule.agents;
      assert shuffle[i..][0] == id && shuffle[i..][1..] == shuffle[i + 1..];
      acted' := acted;
      if id in schedule.agents && id in actors {
        acted' := acted + [id];
        AltruisticAction(id, DrawOf(actors, draws, id));
        assert schedule.agents == m - Victims(m, id, DrawOf(actors, draws, id), dr);
        RestrictRestrict(o0, m.Keys, schedule.agents.Keys);
        assert Acted(m, shuffle[i..], actors, draws, dr) == [id] + Acted(schedule.agents, shuffle[i + 1..], actors, draws, dr);
      }
    }

    /**
     * The interaction part of `step`: N // 4 families are sampled from the
     * families present (ValueError when there are fewer), each family is a
     * room, `picks[k]` chooses the room's actor, and the schedule steps with
     * those actors.
     */
    method Interact(dangerFam: seq<int>, picks: seq<nat>, shuffle: seq<int>, draws: seq<real>) returns (raised: bool, active: seq<int>)
      requires Valid()
      requires !SampleRaises(N / 4, |Families(schedule.agents)|) ==>
        InteractionDraws(schedule.order, schedule.agents, N, dangerFam, picks, shuffle, draws)
      modifies schedule
      ensures Valid()
      ensures raised <==> SampleRaises(N / 4, |Families(old(schedule.agents))|)
      ensures raised ==> (schedule.agents == old(schedule.agents) && schedule.order == old(schedule.order)
        && schedule.steps == old(schedule.steps) && schedule.time == old(schedule.time))
      ensures !raised ==>
        && active == Actors(Rooms(old(schedule.order), old(schedule.agents), dangerFam), picks)
        && (forall k :: 0 <= k < N / 4 ==> active[k] in old(schedule.agents) && old(schedule.agents)[active[k]].family == dangerFam[k])
        && schedule.agents == Survivors(old(schedule.order), old(schedule.agents), N, dangerFam, picks, shuffle, draws, dr)
        && schedule.order == Restrict(old(schedule.order), schedule.agents.Keys)
        && schedule.steps == old(schedule.steps) + 1 && schedule.time == old(schedule.time) + 1
    {
      if SampleRaises(N / 4, |Families(schedule.agents)|) {
        return true, [];
      }
      ghost var m0 := schedule.agents;
      var rooms := Rooms(schedule.order, schedule.agents, dangerFam);
      active := Actors(rooms, picks);
      forall k | 0 <= k < N / 4 ensures active[k] in m0 && m0[active[k]].family == dangerFam[k] {
        assert active[k] in rooms[k];
      }
      assert OnePerFamily(m0, active) by {
        forall i, j | 0 <= i < j < |active| ensures m0[active[i]].family != m0[active[j]].family {
          assert dangerFam[i] != dangerFam[j];
        }
      }
      forall a | a in active ensures a in m0 && a in shuffle {
        var k :| 0 <= k < |active| && active[k] == a;
      }
      ActivationOutcome(m0, shuffle, active, draws, dr);
      ghost var acted := Activate(active, shuffle, draws);
      raised := false;
    }

    /**
     * `reproduce`: N agents are sampled (ValueError when fewer are alive),
     * paired (i, i + N // 2), each pair has three children, and the old
     * population is replaced by the children with ids 0, 1, ...
     */
    method Reproduce(sample: seq<int>, picks: seq<bool>, draws: seq<real>) returns (raised: bool)
      requires Valid() && AllAllele(schedule.agents)
      requires !SampleRaises(N, |schedule.agents.Keys|) ==> ReproductionDraws(schedule.agents, N, sample, picks, draws, 3)
      modifies schedule
      ensures Valid() && AllAllele(schedule.agents)
      ensures raised <==> SampleRaises(N, |old(schedule.agents).Keys|)
      ensures raised ==> schedule.agents == old(schedule.agents) && schedule.order == old(schedule.order)
      ensures !raised ==> (schedule.agents == Numbered(NewGeneration(old(schedule.agents), sample, picks, draws, mr))
        && schedule.order == Range(0, 3 * (N / 2)))
      ensures schedule.steps == old(schedule.steps) && schedule.time == old(schedule.time)
    {
      if SampleRaises(N, schedule.Count()) {
        return true;
      }
      var newgen := NewGeneration(schedule.agents, sample, picks, draws, mr);
      schedule.RemoveAll();
      schedule.AddNumbered(newgen);
      raised := false;
    }

    /** `step`: the interaction, then reproduction; an exception in either ends the step there. */
    method Step(dangerFam: seq<int>, picks: seq<nat>, shuffle: seq<int>, draws: seq<real>,
                sample: seq<int>, childPicks: seq<bool>, childDraws: seq<real>) returns (raised: bool)
      requires Valid() && AllAllele(schedule.agents)
      requires !SampleRaises(N / 4, |Families(schedule.agents)|) ==>
        && InteractionDraws(schedule.order, schedule.agents, N, dangerFam, picks, shuffle, draws)
        && var survivors := Survivors(schedule.order, schedule.agents, N, dangerFam, picks, shuffle, draws, dr);
           !SampleRaises(N, |survivors.Keys|) ==> ReproductionDraws(survivors, N, sample, childPicks, childDraws, 3)
      modifies schedule
      ensures Valid() && AllAllele(schedule.agents)
      ensures raised <==> (SampleRaises(N / 4, |Families(old(schedule.agents))|)
        || SampleRaises(N, |Survivors(old(schedule.order), old(schedule.agents), N, dangerFam, picks, shuffle, draws, dr).Keys|))
      ensures SampleRaises(N / 4, |Families(old(schedule.agents))|) ==>
        && schedule.agents == old(schedule.agents) && schedule.order == old(schedule.order)
        && schedule.steps == old(schedule.steps) && schedule.time == old(schedule.time)
      ensures raised && !SampleRaises(N / 4, |Families(old(schedule.agents))|) ==>
        var survivors := Survivors(old(schedule.order), old(schedule.agents), N, dangerFam, picks, shuffle, draws, dr);
        && schedule.agents == survivors && schedule.order == Restrict(old(schedule.order), survivors.Keys)
        && schedule.steps == old(schedule.steps) + 1 && schedule.time == old(schedule.time) + 1
      ensures !raised ==>
        var survivors := Survivors(old(schedule.order), old(schedule.agents), N, dangerFam, picks, shuffle, draws, dr);
        && schedule.agents == Numbered(NewGeneration(survivors, sample, childPicks, childDraws, mr))
        && schedule.order == Range(0, 3 * (N / 2))
        && schedule.steps == old(schedule.steps) + 1 && schedule.time == old(schedule.time) + 1
    {
      var active;
      raised, active := Interact(dangerFam, picks, shuffle, draws);
      if raised {
        return;
      }
      raised := Reproduce(sample, childPicks, childDraws);
    }
  }

  /**
   * `FamilyModel(N, r, dr, mr)`: the schedule is filled by `add_agents` and
   * at once replaced by the first generation of children.
   */
  method NewFamilyModel(N: int, r: real, dr: real, mr: real, sample: seq<int>, picks: seq<bool>, draws: seq<real>)
    returns (model: FamilyModel)
    requires 0.0 <= r <= 1.0 && N >= 0
    requires ReproductionDraws(Numbered(InitialPopulation(N, Trunc(N as real * r))), N, sample, picks, draws, 3)
    ensures fresh(model) && fresh(model.schedule) && model.Valid()
    ensures model.N == N && model.schedule.steps == 0
    ensures model.schedule.order == Range(0, 3 * (N / 2))
    ensures model.schedule.agents == Numbered(NewGeneration(Numbered(InitialPopulation(N, Trunc(N as real * r))), sample, picks, draws, mr))
  {
    model := new FamilyModel(N, dr, mr);
    var k := AddInitial(model.schedule, N, r);
    var raised := model.Reproduce(sample, picks, draws);
  }
}
