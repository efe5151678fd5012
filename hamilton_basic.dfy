/**
 * hamilton_basic/model.py: the first version of the family model. Agents
 * carry a single allele and their founder's family id; reproduction pairs
 * a sample (i, i + N // 2), gives each pair four children that copy one
 * parent's genotype without mutation, and replaces the whole population.
 * The agents' action only reports an outcome and changes nothing.
 */
module HamiltonBasic {
  import opened Seqs
  import opened Numerals
  import opened Mesa
  import opened Mating
  import opened Hamilton

  /** The dict `altruistic_action` returns: whether the agent acts, and whether it lives. */
  datatype Outcome = Outcome(action: bool, survival: bool)

  /**
   * `altruistic_action`: an agent acts exactly when its genotype is
   * truthy; an acting agent lives only on a draw above 0.95, and an agent
   * that does not act always lives.
   */
  function AltruisticAction(genotype: int, draw: real): (r: Outcome)
    ensures r.action <==> genotype != 0
    ensures r.survival <==> genotype == 0 || draw > 0.95
  {
    Outcome(genotype != 0, if genotype != 0 then draw > 0.95 else true)
  }

  /** The number of children of each mating pair. */
  const Litter := 4

  /** `{"genotype": random.choice([a.genotype for a in p]), "family": p[0].unique_id}`. */
  function BasicChild(m: Population, p: (int, int), pick: bool): FamilyAgent
    requires p.0 in m && p.1 in m
  {
    FamilyAgent((if pick then m[p.0] else m[p.1]).genotype, p.0)
  }

  /** `newgen`: four children per mating pair of the sample, in pair order. */
  function BasicGeneration(m: Population, sample: seq<int>, picks: seq<bool>): (xs: seq<FamilyAgent>)
    requires forall x :: x in sample ==> x in m
    requires |picks| == Litter * (|sample| / 2)
    ensures |xs| == Litter * (|sample| / 2)
  {
    var ps := MatingPairs(sample);
    MatingPairsIn(m, sample);
    seq(Litter * |ps|, j requires 0 <= j < Litter * |ps| => BasicChild(m, ps[j / Litter], picks[j]))
  }

  /**
   * Child j belongs to pair i = j // 4: its family is the first parent's
   * id, and its genotype is exactly that of one of the two parents.
   */
  lemma BasicGenerationFacts(m: Population, sample: seq<int>, picks: seq<bool>, j: int)
    requires forall x :: x in sample ==> x in m
    requires |picks| == Litter * (|sample| / 2)
    requires 0 <= j < Litter * (|sample| / 2)
    ensures var i := j / Litter;
      var x := BasicGeneration(m, sample, picks)[j];
      && 0 <= i < |sample| / 2
      && sample[i] in m && sample[i + |sample| / 2] in m
      && x.family == sample[i]
      && (x.genotype == m[sample[i]].genotype || x.genotype == m[sample[i + |sample| / 2]].genotype)
  {
    MatingPairsIn(m, sample);
    var i := j / Litter;
    var a, b := sample[i], sample[i + |sample| / 2];
    assert a in sample && b in sample;
  }

  /**
   * Without mutation no genotype is new: when every sampled agent carries
   * `g`, so does every child.
   */
  lemma BreedsTrue(m: Population, sample: seq<int>, picks: seq<bool>, g: Genotype)
    requires forall x :: x in sample ==> x in m && m[x].genotype == g
    requires |picks| == Litter * (|sample| / 2)
    ensures forall x :: x in BasicGeneration(m, sample, picks) ==> x.genotype == g
  {
    var xs := BasicGeneration(m, sample, picks);
    forall x | x in xs ensures x.genotype == g {
      var j :| 0 <= j < |xs| && xs[j] == x;
      BasicGenerationFacts(m, sample, picks, j);
      var a, b := sample[j / Litter], sample[j / Litter + |sample| / 2];
      assert a in sample && b in sample;
    }
  }

  /** `FamilyModel` of hamilton_basic/model.py. */
  class BasicFamilyModel {
    const schedule: Scheduler<FamilyAgent>
    const N: int

    ghost predicate Valid()
      reads this, schedule
    {
      schedule.Valid()
    }

    /**
     * `FamilyModel(N, r)`: int(N * r) altruists and N - int(N * r) others,
     * each its own family, at once replaced by their children.
     */
    constructor (N: nat, r: real, sample: seq<int>, picks: seq<bool>)
      requires 0.0 <= r <= 1.0
      requires IsSample(sample, IdsBelow(N), N) && |picks| == Litter * (N / 2)
      ensures Valid() && fresh(schedule) && this.N == N
      ensures schedule.steps == 0 && schedule.order == Range(0, Litter * (N / 2))
      ensures schedule.agents == Numbered(BasicGeneration(Numbered(InitialPopulation(N, Trunc(N as real * r))), sample, picks))
    {
      this.N := N;
      schedule := new Scheduler();
      new;
      var k := AddInitial(schedule, N, r);
      var raised := Reproduce(sample, picks);
    }

    /**
     * `reproduce`: N agents are sampled (ValueError when fewer are alive),
     * paired (i, i + N // 2), each pair has four children, and the old
     * population is replaced by the children with ids 0, 1, ...
     */
    method Reproduce(sample: seq<int>, picks: seq<bool>) returns (raised: bool)
      requires Valid()
      requires !SampleRaises(N, |schedule.agents.Keys|) ==>
        IsSample(sample, schedule.agents.Keys, N) && |picks| == Litter * (N / 2)
      modifies schedule
      ensures Valid()
      ensures schedule.steps == old(schedule.steps) && schedule.time == old(schedule.time)
      ensures raised <==> SampleRaises(N, |old(schedule.agents).Keys|)
      ensures raised ==> schedule.agents == old(schedule.agents) && schedule.order == old(schedule.order)
      ensures !raised ==>
        && schedule.agents == Numbered(BasicGeneration(old(schedule.agents), sample, picks))
        && schedule.order == Range(0, Litter * (N / 2))
    {
      if SampleRaises(N, schedule.Count()) {
        return true;
      }
      var newgen := BasicGeneration(schedule.agents, sample, picks);
      schedule.RemoveAll();
      schedule.AddNumbered(newgen);
      raised := false;
    }
  }
}
