/**
 * The two-trait variant of hamilton/multigene_model.py. An agent's genotype
 * is the altruism allele and a second trait encoded by `FloatBinHandler(3, 1)`
 * as a 12-character string "0b" + 10 bits. Interaction is the family
 * variant's unchanged (an agent is an altruist when its allele is 1); the
 * variant replaces `add_agents` and `reproduce`, whose children cross the
 * parents' trait strings bit by bit.
 */
module Multigene {
  import opened Seqs
  import opened Numerals
  import opened Mesa
  import opened Mating
  import opened FloatBin
  import opened Hamilton
  import opened Wrappers

  // ---------------------------------------------------------------------------
  // trait2_computation

  /** The length of `zip(p1, p2)`. */
  function MinLen(a: string, b: string): (n: nat)
    ensures n <= |a| && n <= |b| && (n == |a| || n == |b|)
  {
    if |a| <= |b| then |a| else |b|
  }

  /** `str(1 - int(x))` on a binary digit. */
  function FlipBit(c: char): (d: char)
    requires IsBit(c)
    ensures IsBit(d) && d != c
  {
    if c == '0' then '1' else '0'
  }

  /** `lambda x: x if random.random() > mr else str(1 - int(x))`. */
  function MutateBit(c: char, draw: real, mr: real): char
    requires IsBit(c)
  {
    if draw > mr then c else FlipBit(c)
  }

  /**
   * The random inputs `trait2_computation` uses on two parent strings: one
   * parent choice per zipped position and one mutation draw per position
   * after the first two.
   */
  ghost predicate TraitDraws(p1: string, p2: string, picks: seq<bool>, draws: seq<real>)
  {
    && |picks| == MinLen(p1, p2)
    && |draws| == (if |picks| >= 2 then |picks| - 2 else 0)
    && forall i :: 2 <= i < |picks| ==> IsBit(p1[i]) && IsBit(p2[i])
  }

  /** The zipped crossover: position i comes from `p1` when `picks[i]`, else from `p2`. */
  function Crossed(p1: string, p2: string, picks: seq<bool>): (c: string)
    requires |picks| == MinLen(p1, p2)
    ensures |c| == |picks|
  {
    seq(|picks|, i requires 0 <= i < |picks| => if picks[i] then p1[i] else p2[i])
  }

  /** The string `trait2_computation` returns: "0b" and the mutated crossover after its first two characters. */
  function Trait2(p1: string, p2: string, picks: seq<bool>, draws: seq<real>, mr: real): string
    requires TraitDraws(p1, p2, picks, draws)
  {
    var c := Crossed(p1, p2, picks);
    "0b" + seq(|draws|, i requires 0 <= i < |draws| => MutateBit(c[i + 2], draws[i], mr))
  }

  /**
   * `trait2_computation(parent1, parent2)`: the first loop builds the
   * crossover over `zip`, the second mutates it after the "0b" prefix.
   */
  method Trait2Computation(p1: string, p2: string, picks: seq<bool>, draws: seq<real>, mr: real) returns (child: string)
    requires TraitDraws(p1, p2, picks, draws)
    ensures child == Trait2(p1, p2, picks, draws, mr)
  {
    ghost var crossed := Crossed(p1, p2, picks);
    var gene := "";
    var i := 0;
    while i < MinLen(p1, p2)
      invariant 0 <= i <= |picks|
      invariant gene == crossed[..i]
    {
      gene := gene + [if picks[i] then p1[i] else p2[i]];
      i := i + 1;
    }
    assert gene == crossed;
    var rest := if |gene| >= 2 then gene[2..] else "";
    child := "0b";
    var k := 0;
    while k < |rest|
      invariant 0 <= k <= |rest| == |draws|
      invariant child == "0b" + seq(k, j requires 0 <= j < k => MutateBit(crossed[j + 2], draws[j], mr))
    {
      assert rest[k] == crossed[k + 2];
      child := child + [MutateBit(rest[k], draws[k], mr)];
      k := k + 1;
    }
  }

  /**
   * The child string keeps the "0b" prefix and the zipped length; after
   * the prefix each character is a bit, the chosen parent's one, changed
   * exactly when its draw is at most the rate; with no such draw every bit
   * is a parent's bit at that position.
   */
  lemma Trait2Facts(p1: string, p2: string, picks: seq<bool>, draws: seq<real>, mr: real)
    requires TraitDraws(p1, p2, picks, draws) && MinLen(p1, p2) >= 2
    ensures var child := Trait2(p1, p2, picks, draws, mr);
      && |child| == MinLen(p1, p2)
      && child[..2] == "0b"
      && (forall i :: 2 <= i < |child| ==> IsBit(child[i]))
      && (forall i :: 2 <= i < |child| ==> (child[i] != (if picks[i] then p1[i] else p2[i]) <==> draws[i - 2] <= mr))
      && ((forall k :: 0 <= k < |draws| ==> draws[k] > mr) ==> forall i :: 2 <= i < |child| ==> child[i] == p1[i] || child[i] == p2[i])
  {
    var child := Trait2(p1, p2, picks, draws, mr);
    var c := Crossed(p1, p2, picks);
    forall i | 2 <= i < |child|
      ensures child[i] == MutateBit(c[i], draws[i - 2], mr)
      ensures IsBit(c[i]) && (c[i] == p1[i] || c[i] == p2[i])
    {
      var j := i - 2;
      assert child[i] == MutateBit(c[j + 2], draws[j], mr);
    }
  }

  /** Two parents encoded at the same width w >= 3 have a child encoded at width w. */
  lemma Trait2Encoded(p1: string, p2: string, picks: seq<bool>, draws: seq<real>, mr: real, w: int)
    requires IsBinString(p1) && IsBinString(p2) && |p1| == w && |p2| == w
    requires |picks| == w && |draws| == w - 2
    ensures TraitDraws(p1, p2, picks, draws)
    ensures IsBinString(Trait2(p1, p2, picks, draws, mr)) && |Trait2(p1, p2, picks, draws, mr)| == w
  {
    Trait2Facts(p1, p2, picks, draws, mr);
  }

  // ---------------------------------------------------------------------------
  // The population

  /** The second trait of a multigene genotype (empty for a plain allele). */
  function Trait(g: Genotype): string
  {
    match g
    case Multigene(_, t) => t
    case Allele(_) => ""
  }

  /** Every agent has a 0/1 allele and a second trait encoded as "0b" and w - 2 bits. */
  ghost predicate WellEncoded(m: Population, w: int)
  {
    forall id :: id in m ==>
      && m[id].genotype.Multigene?
      && (m[id].genotype.allele == 0 || m[id].genotype.allele == 1)
      && IsBinString(Trait(m[id].genotype))
      && |Trait(m[id].genotype)| == w
  }

  /** What `WellEncoded` says of one agent. */
  lemma EncodedAt(m: Population, w: int, id: int)
    requires WellEncoded(m, w) && id in m
    ensures m[id].genotype.Multigene? && (m[id].genotype.allele == 0 || m[id].genotype.allele == 1)
    ensures IsBinString(Trait(m[id].genotype)) && |Trait(m[id].genotype)| == w
  {
  }

  /** The width of every trait string: `FloatBinHandler(3, 1)` writes 10 bits after "0b". */
  const Width := 12

  /** The handler of `MultigeneFamilyModel`: `FloatBinHandler(3, 1)`, as `MultigeneHandler` computes it. */
  const Handler := FloatBinHandler(3, 1000, 10)

  /** `handler.float2bin(random.random())`: a draw in [0, 1) has 3 decimals kept and encodes at the uniform width. */
  function TraitCode(draw: real): string
  {
    Float2Bin(Handler, Trunc(draw * 1000.0))
  }

  lemma TraitCodeEncoded(draw: real)
    requires IsDraw(draw)
    ensures IsBinString(TraitCode(draw)) && |TraitCode(draw)| == Width
    ensures ParseBase2(TraitCode(draw)) == Some(Trunc(draw * 1000.0))
  {
    var n := Trunc(draw * 1000.0);
    assert 0 <= n <= 1000 by {
      assert n as real <= draw * 1000.0 < 1000.0;
    }
    MultigeneHandler();
    UniformWidth(3, 1000, n);
    EncodeShape(Handler, n);
    RoundTrip(Handler, n);
  }

  /** The agent `add_agents` makes from one trait draw. */
  function MultigeneAgent(id: int, allele: int, draw: real): FamilyAgent
  {
    FamilyAgent(Multigene(allele, TraitCode(draw)), id)
  }

  /**
   * The population `add_agents` makes when 0 <= k <= N: ids below k are
   * altruists drawing from `first`, the others drawing from `second`.
   */
  function InitialMultigene(N: nat, k: nat, first: seq<real>, second: seq<real>): (xs: seq<FamilyAgent>)
    requires k <= N && |first| == k && |second| == N - k
    ensures |xs| == N
  {
    seq(N, i requires 0 <= i < N => if i < k then MultigeneAgent(i, 1, first[i]) else MultigeneAgent(i, 0, second[i - k]))
  }

  /** The founders `add_agents` numbers 0 .. N-1, the first k = int(N * r) of them altruists. */
  ghost function MultigeneFounders(N: nat, r: real, first: seq<real>, second: seq<real>): (m: Population)
    requires 0.0 <= r <= 1.0
    requires |first| == Trunc(N as real * r) && |second| == N - Trunc(N as real * r)
    requires (forall i :: 0 <= i < |first| ==> IsDraw(first[i])) && (forall i :: 0 <= i < |second| ==> IsDraw(second[i]))
    ensures m.Keys == IdsBelow(N) && WellEncoded(m, Width)
  {
    TruncRatio(N, r);
    InitialMultigeneEncoded(N, Trunc(N as real * r), first, second);
    Numbered(InitialMultigene(N, Trunc(N as real * r), first, second))
  }

  lemma InitialMultigeneEncoded(N: nat, k: nat, first: seq<real>, second: seq<real>)
    requires k <= N && |first| == k && |second| == N - k
    requires forall i :: 0 <= i < k ==> IsDraw(first[i])
    requires forall i :: 0 <= i < N - k ==> IsDraw(second[i])
    ensures WellEncoded(Numbered(InitialMultigene(N, k, first, second)), Width)
  {
    var xs := InitialMultigene(N, k, first, second);
    var m := Numbered(xs);
    forall id | id in m
      ensures m[id].genotype.Multigene? && (m[id].genotype.allele == 0 || m[id].genotype.allele == 1)
      ensures IsBinString(Trait(m[id].genotype)) && |Trait(m[id].genotype)| == Width
    {
      var a, d := if id < k then 1 else 0, if id < k then first[id] else second[id - k];
      assert m[id] == xs[id] == MultigeneAgent(id, a, d);
      MultigeneAgentEncoded(id, a, d);
    }
  }

  /** A founder drawing `draw` carries a 0/1 allele and a trait of the uniform width. */
  lemma MultigeneAgentEncoded(id: int, allele: int, draw: real)
    requires IsDraw(draw) && (allele == 0 || allele == 1)
    ensures var g := MultigeneAgent(id, allele, draw).genotype;
      g.Multigene? && (g.allele == 0 || g.allele == 1) && IsBinString(Trait(g)) && |Trait(g)| == Width
  {
    TraitCodeEncoded(draw);
  }

  /**
   * `add_agents(N, r)` of the variant: the first loop makes int(N * r)
   * altruists, the second the rest; each agent draws its trait once.
   */
  method AddMultigeneAgents(s: Scheduler<FamilyAgent>, N: nat, r: real, first: seq<real>, second: seq<real>) returns (k: nat)
    requires 0.0 <= r <= 1.0
    requires |first| == Trunc(N as real * r) && |second| == N - Trunc(N as real * r)
    requires s.Valid() && s.order == [] && s.agents == map[]
    modifies s
    ensures k == Trunc(N as real * r) && k <= N
    ensures s.Valid() && s.order == Range(0, N)
    ensures s.agents == Numbered(InitialMultigene(N, k, first, second))
    ensures s.steps == old(s.steps) && s.time == old(s.time)
  {
    TruncRatio(N, r);
    k := Trunc(N as real * r);
    AddMultigeneLoops(s, N, k, first, second);
  }

  /** The two loops of the variant's `add_agents`, once k = int(N * r) is known. */
  method AddMultigeneLoops(s: Scheduler<FamilyAgent>, N: nat, k: nat, first: seq<real>, second: seq<real>)
    requires k <= N && |first| == k && |second| == N - k
    requires s.Valid() && s.order == [] && s.agents == map[]
    modifies s
    ensures s.Valid() && s.order == Range(0, N)
    ensures s.agents == Numbered(InitialMultigene(N, k, first, second))
    ensures s.steps == old(s.steps) && s.time == old(s.time)
  {
    ghost var xs := InitialMultigene(N, k, first, second);
    var i := 0;
    while i < k
      invariant 0 <= i <= k
      invariant s.Valid() && s.order == Range(0, i) && s.agents == Numbered(xs[..i])
      invariant s.steps == old(s.steps) && s.time == old(s.time)
    {
      s.AddNth(xs, i, MultigeneAgent(i, 1, first[i]));
      i := i + 1;
    }
    while i < N
      invariant k <= i <= N
      invariant s.Valid() && s.order == Range(0, i) && s.agents == Numbered(xs[..i])
      invariant s.steps == old(s.steps) && s.time == old(s.time)
    {
      s.AddNth(xs, i, MultigeneAgent(i, 0, second[i - k]));
      i := i + 1;
    }
    assert xs[..i] == xs;
  }

  // ---------------------------------------------------------------------------
  // reproduce

  /** What the variant's `reproduce` draws per child: a choice per bit and a mutation draw per bit after "0b". */
  ghost predicate ChildDraws(n: int, tpicks: seq<seq<bool>>, tdraws: seq<seq<real>>)
  {
    && |tpicks| == n && |tdraws| == n
    && forall j :: 0 <= j < n ==> |tpicks[j]| == Width && |tdraws[j]| == Width - 2
  }

  /**
   * A child of pair `p`: one parent's allele, possibly flipped; the trait
   * string `trait2_computation(p[0], p[1])`; the first parent's id as family.
   */
  function MultigeneChild(m: Population, p: (int, int), pick: bool, draw: real, tp: seq<bool>, td: seq<real>, mr: real): FamilyAgent
    requires p.0 in m && p.1 in m && WellEncoded(m, Width)
    requires |tp| == Width && |td| == Width - 2
  {
    var a, b := m[p.0], m[p.1];
    EncodedAt(m, Width, p.0);
    EncodedAt(m, Width, p.1);
    Trait2Encoded(Trait(a.genotype), Trait(b.genotype), tp, td, mr, Width);
    var parent := if pick then a else b;
    FamilyAgent(Multigene(Mutate(parent.genotype.allele, draw, mr), Trait2(Trait(a.genotype), Trait(b.genotype), tp, td, mr)), p.0)
  }

  /** `newgen` of the variant: three children per mating pair of the sample, in pair order. */
  function MultigeneGeneration(m: Population, sample: seq<int>, picks: seq<bool>, draws: seq<real>,
                               tpicks: seq<seq<bool>>, tdraws: seq<seq<real>>, mr: real): (xs: seq<FamilyAgent>)
    requires (forall x :: x in sample ==> x in m) && WellEncoded(m, Width)
    requires |picks| == 3 * (|sample| / 2) && |draws| == 3 * (|sample| / 2)
    requires ChildDraws(3 * (|sample| / 2), tpicks, tdraws)
    ensures |xs| == 3 * (|sample| / 2)
  {
    var ps := MatingPairs(sample);
    MatingPairsIn(m, sample);
    seq(3 * |ps|, j requires 0 <= j < 3 * |ps| => MultigeneChild(m, ps[j / 3], picks[j], draws[j], tpicks[j], tdraws[j], mr))
  }

  /**
   * Child 3i + c belongs to pair i: family the first parent's id, allele
   * one parent's flipped exactly when the draw is at most the rate, trait
   * the crossover of the two parents' traits; the child population is
   * again well encoded.
   */
  lemma MultigeneGenerationFacts(m: Population, sample: seq<int>, picks: seq<bool>, draws: seq<real>,
                                 tpicks: seq<seq<bool>>, tdraws: seq<seq<real>>, mr: real, i: int, c: int)
    requires (forall x :: x in sample ==> x in m) && WellEncoded(m, Width)
    requires |picks| == 3 * (|sample| / 2) && |draws| == 3 * (|sample| / 2)
    requires ChildDraws(3 * (|sample| / 2), tpicks, tdraws)
    requires 0 <= i < |sample| / 2 && 0 <= c < 3
    ensures sample[i] in m && sample[i + |sample| / 2] in m
    ensures var j := 3 * i + c;
      var x := MultigeneGeneration(m, sample, picks, draws, tpicks, tdraws, mr)[j];
      var a, b := m[sample[i]], m[sample[i + |sample| / 2]];
      var parent := if picks[j] then a else b;
      && x.family == sample[i]
      && x.genotype.Multigene?
      && (x.genotype.allele == 0 || x.genotype.allele == 1)
      && (x.genotype.allele != parent.genotype.allele <==> draws[j] <= mr)
      && TraitDraws(Trait(a.genotype), Trait(b.genotype), tpicks[j], tdraws[j])
      && Trait(x.genotype) == Trait2(Trait(a.genotype), Trait(b.genotype), tpicks[j], tdraws[j], mr)
  {
    var j := 3 * i + c;
    assert j / 3 == i;
    var p, q := sample[i], sample[i + |sample| / 2];
    assert p in sample;
    assert q in sample;
    assert MultigeneGeneration(m, sample, picks, draws, tpicks, tdraws, mr)[j]
      == MultigeneChild(m, (p, q), picks[j], draws[j], tpicks[j], tdraws[j], mr);
    MultigeneChildFacts(m, (p, q), picks[j], draws[j], tpicks[j], tdraws[j], mr);
  }

  /** One child, as `MultigeneGenerationFacts` states it for child 3i + c. */
  lemma MultigeneChildFacts(m: Population, p: (int, int), pick: bool, draw: real, tp: seq<bool>, td: seq<real>, mr: real)
    requires p.0 in m && p.1 in m && WellEncoded(m, Width)
    requires |tp| == Width && |td| == Width - 2
    ensures var x := MultigeneChild(m, p, pick, draw, tp, td, mr);
      var a, b := m[p.0], m[p.1];
      var parent := if pick then a else b;
      && x.family == p.0
      && x.genotype.Multigene?
      && (x.genotype.allele == 0 || x.genotype.allele == 1)
      && (x.genotype.allele != parent.genotype.allele <==> draw <= mr)
      && TraitDraws(Trait(a.genotype), Trait(b.genotype), tp, td)
      && Trait(x.genotype) == Trait2(Trait(a.genotype), Trait(b.genotype), tp, td, mr)
  {
    var a, b := m[p.0], m[p.1];
    EncodedAt(m, Width, p.0);
    EncodedAt(m, Width, p.1);
    var parent := if pick then a else b;
    MutateFacts(parent.genotype.allele, draw, mr);
    Trait2Encoded(Trait(a.genotype), Trait(b.genotype), tp, td, mr, Width);
  }

  /** The new generation keeps the encoding invariant. */
  lemma MultigeneGenerationEncoded(m: Population, sample: seq<int>, picks: seq<bool>, draws: seq<real>,
                                   tpicks: seq<seq<bool>>, tdraws: seq<seq<real>>, mr: real)
    requires (forall x :: x in sample ==> x in m) && WellEncoded(m, Width)
    requires |picks| == 3 * (|sample| / 2) && |draws| == 3 * (|sample| / 2)
    requires ChildDraws(3 * (|sample| / 2), tpicks, tdraws)
    ensures WellEncoded(Numbered(MultigeneGeneration(m, sample, picks, draws, tpicks, tdraws, mr)), Width)
  {
    var xs := MultigeneGeneration(m, sample, picks, draws, tpicks, tdraws, mr);
    forall id | id in Numbered(xs)
      ensures xs[id].genotype.Multigene? && (xs[id].genotype.allele == 0 || xs[id].genotype.allele == 1)
      ensures IsBinString(Trait(xs[id].genotype)) && |Trait(xs[id].genotype)| == Width
    {
      MatingPairsIn(m, sample);
      var p := MatingPairs(sample)[id / 3];
      assert xs[id] == MultigeneChild(m, p, picks[id], draws[id], tpicks[id], tdraws[id], mr);
      EncodedAt(m, Width, p.0);
      EncodedAt(m, Width, p.1);
      var a, b := m[p.0], m[p.1];
      Trait2Encoded(Trait(a.genotype), Trait(b.genotype), tpicks[id], tdraws[id], mr, Width);
      MutateFacts((if picks[id] then a else b).genotype.allele, draws[id], mr);
    }
  }

  /** What the variant's `reproduce` asks of its random inputs when the sample can be drawn. */
  ghost predicate MultigeneDraws(keys: set<int>, N: int, sample: seq<int>, picks: seq<bool>, draws: seq<real>,
                                 tpicks: seq<seq<bool>>, tdraws: seq<seq<real>>)
  {
    && IsSample(sample, keys, N)
    && |picks| == 3 * (N / 2) && |draws| == 3 * (N / 2)
    && ChildDraws(3 * (N / 2), tpicks, tdraws)
  }

  // ---------------------------------------------------------------------------
  // The model

  /** `MultigeneFamilyModel`: the family model with the trait handler and its own agents and reproduction. */
  class MultigeneModel {
    const family: FamilyModel
    const handler: FloatBinHandler

    ghost predicate Valid()
      reads family.schedule
    {
      family.Valid() && handler == Handler && WellEncoded(family.schedule.agents, Width)
    }

    /**
     * `__init__`: the handler, then the family model's initialisation with
     * this variant's `add_agents` and `reproduce`.
     */
    constructor (N: nat, r: real, dr: real, mr: real, first: seq<real>, second: seq<real>,
                 sample: seq<int>, picks: seq<bool>, draws: seq<real>, tpicks: seq<seq<bool>>, tdraws: seq<seq<real>>)
      requires 0.0 <= r <= 1.0
      requires |first| == Trunc(N as real * r) && |second| == N - Trunc(N as real * r)
      requires (forall i :: 0 <= i < |first| ==> IsDraw(first[i])) && (forall i :: 0 <= i < |second| ==> IsDraw(second[i]))
      requires MultigeneDraws(IdsBelow(N), N, sample, picks, draws, tpicks, tdraws)
      ensures Valid() && fresh(family) && fresh(family.schedule)
      ensures family.N == N && family.dr == dr && family.mr == mr
      ensures family.schedule.order == Range(0, 3 * (N / 2)) && family.schedule.steps == 0
      ensures family.schedule.agents ==
        Numbered(MultigeneGeneration(MultigeneFounders(N, r, first, second), sample, picks, draws, tpicks, tdraws, mr))
    {
      handler := Handler;
      var f := new FamilyModel(N, dr, mr);
      family := f;
      new;
      var k := AddMultigeneAgents(family.schedule, N, r, first, second);
      ghost var xs := InitialMultigene(N, k, first, second);
      InitialMultigeneEncoded(N, k, first, second);
      NumberedCard(xs);
      assert family.schedule.agents.Keys == IdsBelow(N);
      ghost var m := family.schedule.agents;
      assert !SampleRaises(family.N, |m.Keys|);
      var raised := Reproduce(sample, picks, draws, tpicks, tdraws);
      assert m == MultigeneFounders(N, r, first, second);
    }

    /**
     * The variant's `reproduce`: N agents are drawn without replacement
     * (ValueError when fewer are alive), paired (i, i + N // 2), each pair
     * has three children, and the old population is replaced by the
     * children with ids 0, 1, ...
     */
    method Reproduce(sample: seq<int>, picks: seq<bool>, draws: seq<real>, tpicks: seq<seq<bool>>, tdraws: seq<seq<real>>)
      returns (raised: bool)
      requires Valid()
      requires !SampleRaises(family.N, |family.schedule.agents.Keys|) ==>
        MultigeneDraws(family.schedule.agents.Keys, family.N, sample, picks, draws, tpicks, tdraws)
      modifies family.schedule
      ensures Valid()
      ensures raised <==> SampleRaises(family.N, |old(family.schedule.agents).Keys|)
      ensures raised ==> (family.schedule.agents == old(family.schedule.agents) && family.schedule.order == old(family.schedule.order))
      ensures !raised ==> (family.schedule.agents == Numbered(MultigeneGeneration(old(family.schedule.agents), sample, picks, draws, tpicks, tdraws, family.mr))
        && family.schedule.order == Range(0, 3 * (family.N / 2)))
      ensures family.schedule.steps == old(family.schedule.steps) && family.schedule.time == old(family.schedule.time)
    {
      var s := family.schedule;
      if SampleRaises(family.N, s.Count()) {
        return true;
      }
      ghost var m := s.agents;
      ghost var gen := MultigeneGeneration(m, sample, picks, draws, tpicks, tdraws, family.mr);
      var ps := MatingPairs(sample);
      MatingPairsIn(m, sample);
      var newgen: seq<FamilyAgent> := [];
      var j := 0;
      while j < 3 * |ps|
        invariant 0 <= j <= 3 * |ps|
        invariant newgen == gen[..j]
        invariant unchanged(s)
      {
        var p := ps[j / 3];
        assert p == MatingPairs(sample)[j / 3];
        assert p.0 in m && p.1 in m;
        var a, b := s.agents[p.0], s.agents[p.1];
        EncodedAt(m, Width, p.0);
        EncodedAt(m, Width, p.1);
        var parent := if picks[j] then a else b;
        var allele := Mutate(parent.genotype.allele, draws[j], family.mr);
        Trait2Encoded(Trait(a.genotype), Trait(b.genotype), tpicks[j], tdraws[j], family.mr, Width);
        var t := Trait2Computation(Trait(a.genotype), Trait(b.genotype), tpicks[j], tdraws[j], family.mr);
        newgen := newgen + [FamilyAgent(Multigene(allele, t), p.0)];
        j := j + 1;
      }
      assert newgen == gen;
      MultigeneGenerationEncoded(m, sample, picks, draws, tpicks, tdraws, family.mr);
      s.RemoveAll();
      s.AddNumbered(newgen);
      raised := false;
    }

    /** `step` as the variant inherits it: the family interaction, then this variant's reproduction. */
    method Step(dangerFam: seq<int>, picks: seq<nat>, shuffle: seq<int>, draws: seq<real>,
                sample: seq<int>, childPicks: seq<bool>, childDraws: seq<real>, tpicks: seq<seq<bool>>, tdraws: seq<seq<real>>)
      returns (raised: bool)
      requires Valid()
      requires !SampleRaises(family.N / 4, |Families(family.schedule.agents)|) ==>
        && InteractionDraws(family.schedule.order, family.schedule.agents, family.N, dangerFam, picks, shuffle, draws)
        && var survivors := Survivors(family.schedule.order, family.schedule.agents, family.N, dangerFam, picks, shuffle, draws, family.dr);
           !SampleRaises(family.N, |survivors.Keys|) ==> MultigeneDraws(survivors.Keys, family.N, sample, childPicks, childDraws, tpicks, tdraws)
      modifies family.schedule
      ensures Valid()
      ensures raised <==> (SampleRaises(family.N / 4, |Families(old(family.schedule.agents))|)
        || SampleRaises(family.N, |Survivors(old(family.schedule.order), old(family.schedule.agents), family.N, dangerFam, picks, shuffle, draws, family.dr).Keys|))
      ensures SampleRaises(family.N / 4, |Families(old(family.schedule.agents))|) ==>
        && family.schedule.agents == old(family.schedule.agents) && family.schedule.order == old(family.schedule.order)
        && family.schedule.steps == old(family.schedule.steps) && family.schedule.time == old(family.schedule.time)
      ensures raised && !SampleRaises(family.N / 4, |Families(old(family.schedule.agents))|) ==>
        var survivors := Survivors(old(family.schedule.order), old(family.schedule.agents), family.N, dangerFam, picks, shuffle, draws, family.dr);
        && family.schedule.agents == survivors && family.schedule.order == Restrict(old(family.schedule.order), survivors.Keys)
        && family.schedule.steps == old(family.schedule.steps) + 1 && family.schedule.time == old(family.schedule.time) + 1
      ensures !raised ==>
        var survivors := Survivors(old(family.schedule.order), old(family.schedule.agents), family.N, dangerFam, picks, shuffle, draws, family.dr);
        && family.schedule.agents == Numbered(MultigeneGeneration(survivors, sample, childPicks, childDraws, tpicks, tdraws, family.mr))
        && family.schedule.order == Range(0, 3 * (family.N / 2))
        && family.schedule.steps == old(family.schedule.steps) + 1 && family.schedule.time == old(family.schedule.time) + 1
    {
      ghost var m0 := family.schedule.agents;
      var active;
      raised, active := family.Interact(dangerFam, picks, shuffle, draws);
      if raised {
        return;
      }
      assert forall id :: id in family.schedule.agents ==> id in m0 && family.schedule.agents[id] == m0[id];
      raised := Reproduce(sample, childPicks, childDraws, tpicks, tdraws);
    }
  }
}
