/**
 * green_beard_advanced/model.py: `BeardModelAdv`, the green-beard
 * experiment with two loci. A genotype is an altruism allele and a beard
 * allele; founders either mix all four genotypes or, under linkage
 * disequilibrium, carry only [1, 1] and [0, 0]. Of two agents in a danger
 * room, an altruist first agent may die for a bearded second agent; in
 * every other pair the second agent dies. Children take a parent's
 * genotype or, on a crossover draw, the first parent's altruism allele and
 * the second parent's beard allele; each allele then mutates on its own.
 *
 * Every `random` call is an input, as in the one-gene model; the number of
 * danger rooms (`num_agents // 1.893`, or `// 1.9` under linkage) is the
 * input `D`.
 */
module GreenBeardAdvanced {
  import opened Seqs
  import opened Wrappers
  import opened Numerals
  import opened Mesa
  import opened Mating
  import opened GreenBeard

  /** `[allele1, allele2]`: 1 codes for altruism, resp. for the green beard. */
  datatype Genotype = Genotype(altruism: int, beard: int)

  /** Agents by id; a `BeardAgent` is its genotype. */
  type Beards = map<int, Genotype>

  /** The two loci of a genotype. */
  datatype Locus = Altruism | Beard

  function Allele(g: Genotype, l: Locus): int
  {
    match l
    case Altruism => g.altruism
    case Beard => g.beard
  }

  /** The four genotypes with 0/1 alleles. */
  const Binaries: set<Genotype> := {Genotype(0, 0), Genotype(0, 1), Genotype(1, 0), Genotype(1, 1)}

  /** The genotypes whose two alleles agree: what linkage disequilibrium keeps. */
  const Linked: set<Genotype> := {Genotype(0, 0), Genotype(1, 1)}

  lemma BinariesExactly(g: Genotype)
    ensures g in Binaries <==> (g.altruism == 0 || g.altruism == 1) && (g.beard == 0 || g.beard == 1)
    ensures g in Linked <==> g in Binaries && g.altruism == g.beard
  {
  }

  ghost predicate Binary(m: Beards)
  {
    forall id :: id in m ==> m[id] in Binaries
  }

  // ---------------------------------------------------------------------------
  // crossover and the child rule

  /**
   * `crossover(agent1, agent2)`: the altruism allele of the first parent
   * and the beard allele of the second. It gives back a parent's genotype
   * when the parents share that allele, and it keeps alleles 0/1.
   */
  function Crossover(g1: Genotype, g2: Genotype): (g: Genotype)
    ensures Allele(g, Altruism) == Allele(g1, Altruism) && Allele(g, Beard) == Allele(g2, Beard)
    ensures g == g1 <==> g1.beard == g2.beard
    ensures g == g2 <==> g1.altruism == g2.altruism
    ensures g1 in Binaries && g2 in Binaries ==> g in Binaries
  {
    Genotype(g1.altruism, g2.beard)
  }

  /** The draws each child takes: crossover, parent pick, and one mutation draw per allele. */
  datatype ChildDraw = ChildDraw(cross: real, pick: real, flip1: real, flip2: real)

  /** `if random.random() < self.mr: gen = 1 - gen`. */
  function Flip(x: int, draw: real, mr: real): (y: int)
    ensures y == x <==> draw >= mr || x + x == 1
    ensures (x == 0 || x == 1) ==> (y == 0 || y == 1)
  {
    if draw < mr then 1 - x else x
  }

  /**
   * A child's genotype: crossover on a draw below cr, otherwise the first
   * parent's genotype on a pick below 0.5 and the second's else; then each
   * allele flips on its own draw below mr.
   */
  function AdvChild(g1: Genotype, g2: Genotype, d: ChildDraw, cr: real, mr: real): (g: Genotype)
    ensures g1 in Binaries && g2 in Binaries ==> g in Binaries
    ensures d.flip1 >= mr && d.flip2 >= mr ==>
      (g.altruism == g1.altruism || g.altruism == g2.altruism) && (g.beard == g1.beard || g.beard == g2.beard)
    ensures d.cross >= cr && d.flip1 >= mr && d.flip2 >= mr ==> g == g1 || g == g2
  {
    var base := if d.cross < cr then Crossover(g1, g2) else if d.pick < 0.5 then g1 else g2;
    Genotype(Flip(base.altruism, d.flip1, mr), Flip(base.beard, d.flip2, mr))
  }

  // ---------------------------------------------------------------------------
  // The founders

  /**
   * The genotypes of the founders in the order `__init__` adds them, for
   * k = int(N * r): without linkage k each of [1, 1], [1, 0] and [0, 1]
   * and then [0, 0] for the ids left of range(3k, N + 1); with linkage k of
   * [1, 1] and N + 1 - k of [0, 0].
   */
  function Founders(N: nat, k: nat, linkage: bool): (xs: seq<Genotype>)
    requires k <= N
    ensures linkage ==> |xs| == N + 1
    ensures !linkage ==> |xs| == 3 * k + (if N + 1 > 3 * k then N + 1 - 3 * k else 0)
  {
    if linkage then
      Copies(k, Genotype(1, 1)) + Copies(N + 1 - k, Genotype(0, 0))
    else
      Copies(k, Genotype(1, 1)) + Copies(k, Genotype(1, 0)) + Copies(k, Genotype(0, 1)) +
      Copies(if N + 1 > 3 * k then N + 1 - 3 * k else 0, Genotype(0, 0))
  }

  /** How many genotypes of `xs` carry allele 1 at locus `l`. */
  function Carriers(xs: seq<Genotype>, l: Locus): (n: nat)
    ensures n <= |xs|
  {
    if xs == [] then 0 else (if Allele(xs[0], l) == 1 then 1 else 0) + Carriers(xs[1..], l)
  }

  lemma {:induction false} CarriersConcat(a: seq<Genotype>, b: seq<Genotype>, l: Locus)
    ensures Carriers(a + b, l) == Carriers(a, l) + Carriers(b, l)
  {
    if a == [] {
      assert a + b == b;
    } else {
      assert (a + b)[1..] == a[1..] + b;
      CarriersConcat(a[1..], b, l);
    }
  }

  lemma {:induction false} CarriersCopies(n: nat, g: Genotype, l: Locus)
    ensures Carriers(Copies(n, g), l) == if Allele(g, l) == 1 then n else 0
  {
    if n > 0 {
      assert Copies(n, g)[1..] == Copies(n - 1, g);
      CarriersCopies(n - 1, g, l);
    }
  }

  /**
   * r is the initial ratio of each allele: without linkage 2k founders
   * carry the altruism allele and 2k the beard allele; with linkage k carry
   * each, and every founder's two alleles agree. All founders are binary.
   */
  lemma FoundersAlleles(N: nat, k: nat, linkage: bool)
    requires k <= N
    ensures var xs := Founders(N, k, linkage);
      && Carriers(xs, Altruism) == (if linkage then k else 2 * k)
      && Carriers(xs, Beard) == (if linkage then k else 2 * k)
      && (forall i :: 0 <= i < |xs| ==> xs[i] in Binaries)
      && (linkage ==> forall i :: 0 <= i < |xs| ==> xs[i] in Linked)
  {
    var a, b, c := Copies(k, Genotype(1, 1)), Copies(k, Genotype(1, 0)), Copies(k, Genotype(0, 1));
    var rest := if N + 1 > 3 * k then N + 1 - 3 * k else 0;
    forall l: Locus ensures Carriers(Founders(N, k, linkage), l) == (if linkage then k else 2 * k) {
      CarriersCopies(k, Genotype(1, 1), l);
      if linkage {
        CarriersConcat(a, Copies(N + 1 - k, Genotype(0, 0)), l);
        CarriersCopies(N + 1 - k, Genotype(0, 0), l);
      } else {
        CarriersConcat(a, b, l);
        CarriersConcat(a + b, c, l);
        CarriersConcat(a + b + c, Copies(rest, Genotype(0, 0)), l);
        CarriersCopies(k, Genotype(1, 0), l);
        CarriersCopies(k, Genotype(0, 1), l);
        CarriersCopies(rest, Genotype(0, 0), l);
      }
    }
  }

  /** One founder loop: ids c + 1 .. c + |xs| of `next_id()`, appended after the founders so far. */
  method AddRun(s: Scheduler<Genotype>, ghost before: seq<Genotype>, c: int, xs: seq<Genotype>) returns (next: int)
    requires c == |before| && s.Valid() && s.agents == Born(0, before) && s.order == Range(1, c + 1)
    modifies s
    ensures next == |before + xs|
    ensures s.Valid() && s.agents == Born(0, before + xs) && s.order == Range(1, next + 1)
    ensures s.steps == old(s.steps) && s.time == old(s.time)
  {
    BornKeys(0, before);
    next := AddFrom(s, c, xs);
    BornConcat(0, before, xs);
    RangeConcat(1, c + 1, next + 1);
  }

  /**
   * The founder loops of `__init__`: `next_id()` numbers the founders 1,
   * 2, ... in order, so agent i + 1 has genotype `Founders(N, k, linkage)[i]`.
   */
  method AddFounders(s: Scheduler<Genotype>, N: nat, k: nat, linkage: bool) returns (next: int)
    requires k <= N && s.Valid() && s.order == [] && s.agents == map[]
    modifies s
    ensures next == |Founders(N, k, linkage)|
    ensures s.Valid() && s.agents == Born(0, Founders(N, k, linkage)) && s.order == Range(1, next + 1)
    ensures s.steps == old(s.steps) && s.time == old(s.time)
  {
    var a, b, c := Copies(k, Genotype(1, 1)), Copies(k, Genotype(1, 0)), Copies(k, Genotype(0, 1));
    assert s.agents == Born(0, []);
    next := AddRun(s, [], 0, a);
    assert [] + a == a;
    if linkage {
      next := AddRun(s, a, next, Copies(N + 1 - k, Genotype(0, 0)));
    } else {
      next := AddRun(s, a, next, b);
      next := AddRun(s, a + b, next, c);
      next := AddRun(s, a + b + c, next, Copies(if N + 1 > 3 * k then N + 1 - 3 * k else 0, Genotype(0, 0)));
    }
  }

  // ---------------------------------------------------------------------------
  // reproduce

  /** The genotypes of each pair's children, pair by pair. */
  function Broods(m: Beards, ps: seq<(int, int)>, kids: seq<seq<ChildDraw>>, cr: real, mr: real): (broods: seq<seq<Genotype>>)
    requires |kids| == |ps| && forall i :: 0 <= i < |ps| ==> ps[i].0 in m && ps[i].1 in m
    ensures |broods| == |ps| && forall i :: 0 <= i < |ps| ==> |broods[i]| == |kids[i]|
  {
    seq(|ps|, i requires 0 <= i < |ps| =>
      seq(|kids[i]|, j requires 0 <= j < |kids[i]| => AdvChild(m[ps[i].0], m[ps[i].1], kids[i][j], cr, mr)))
  }

  /** All children of one `reproduce`, in the order they are born. */
  ghost function Offspring(m: Beards, shuffle: seq<int>, kids: seq<seq<ChildDraw>>, cr: real, mr: real): seq<Genotype>
    requires (forall x :: x in shuffle ==> x in m) && |kids| == |shuffle| / 2
  {
    AdjacentIn(m, shuffle);
    Flatten(Broods(m, AdjacentPairs(shuffle), kids, cr, mr))
  }

  /** The population after `reproduce` with `current_id` at c. */
  ghost function Bred(m: Beards, shuffle: seq<int>, kids: seq<seq<ChildDraw>>, cr: real, mr: real, c: int): Beards
    requires (forall x :: x in shuffle ==> x in m) && |kids| == |shuffle| / 2
  {
    (m - Paired(AdjacentPairs(shuffle))) + Born(c, Offspring(m, shuffle, kids, cr, mr))
  }

  /** A set of genotypes that holds the population and every child of two of its members holds the next population. */
  lemma BredWithin(m: Beards, shuffle: seq<int>, kids: seq<seq<ChildDraw>>, cr: real, mr: real, c: int, S: set<Genotype>)
    requires (forall x :: x in shuffle ==> x in m) && |kids| == |shuffle| / 2
    requires forall id :: id in m ==> m[id] in S
    requires forall g1, g2, i, j :: g1 in S && g2 in S && 0 <= i < |kids| && 0 <= j < |kids[i]| ==>
      AdvChild(g1, g2, kids[i][j], cr, mr) in S
    ensures forall id :: id in Bred(m, shuffle, kids, cr, mr, c) ==> Bred(m, shuffle, kids, cr, mr, c)[id] in S
  {
    var ps := AdjacentPairs(shuffle);
    AdjacentIn(m, shuffle);
    var broods := Broods(m, ps, kids, cr, mr);
    forall i, j | 0 <= i < |broods| && 0 <= j < |broods[i]| ensures broods[i][j] in S {
      var a, b := ps[i].0, ps[i].1;
      assert a in m && b in m;
      assert m[a] in S && m[b] in S;
      assert broods[i][j] == AdvChild(m[a], m[b], kids[i][j], cr, mr);
    }
    FlattenWithin(broods, S);
    BornWithin(c, Flatten(broods), S);
  }

  /** `reproduce` keeps alleles 0/1 and every id at most the advanced `current_id`. */
  lemma BredValid(m: Beards, shuffle: seq<int>, kids: seq<seq<ChildDraw>>, cr: real, mr: real, c: int)
    requires (forall x :: x in shuffle ==> x in m) && |kids| == |shuffle| / 2
    requires Binary(m) && forall id :: id in m ==> id <= c
    ensures Binary(Bred(m, shuffle, kids, cr, mr, c))
    ensures forall id :: id in Bred(m, shuffle, kids, cr, mr, c) ==> id <= c + |Offspring(m, shuffle, kids, cr, mr)|
  {
    BredWithin(m, shuffle, kids, cr, mr, c, Binaries);
    BornKeys(c, Offspring(m, shuffle, kids, cr, mr));
  }

  /**
   * Linkage disequilibrium survives reproduction without crossover and
   * mutation: if every agent's alleles agree, and no child draws a
   * crossover or a mutation, every agent's alleles still agree.
   */
  lemma BredLinked(m: Beards, shuffle: seq<int>, kids: seq<seq<ChildDraw>>, cr: real, mr: real, c: int)
    requires (forall x :: x in shuffle ==> x in m) && |kids| == |shuffle| / 2
    requires forall id :: id in m ==> m[id] in Linked
    requires forall i, j :: 0 <= i < |kids| && 0 <= j < |kids[i]| ==>
      kids[i][j].cross >= cr && kids[i][j].flip1 >= mr && kids[i][j].flip2 >= mr
    ensures forall id :: id in Bred(m, shuffle, kids, cr, mr, c) ==> Bred(m, shuffle, kids, cr, mr, c)[id] in Linked
  {
    BredWithin(m, shuffle, kids, cr, mr, c, Linked);
  }

  /**
   * The body of `reproduce` on the scheduler: each adjacent pair of the
   * shuffle has its brood, numbered by `next_id()` on from c, and leaves.
   */
  method BreedShuffle(s: Scheduler<Genotype>, shuffle: seq<int>, kids: seq<seq<ChildDraw>>, cr: real, mr: real, c: int)
    returns (next: int)
    requires s.Valid() && IsShuffle(shuffle, s.order) && |kids| == |shuffle| / 2
    requires forall id :: id in s.agents ==> id <= c
    modifies s
    ensures s.Valid()
    ensures s.steps == old(s.steps) && s.time == old(s.time)
    ensures forall x :: x in shuffle ==> x in old(s.agents)
    ensures s.agents == Bred(old(s.agents), shuffle, kids, cr, mr, c)
    ensures next == c + |Offspring(old(s.agents), shuffle, kids, cr, mr)|
    ensures s.order == BredOrder(old(s.order), old(s.agents), shuffle, c, next)
  {
    ghost var m0 := s.agents;
    assert forall x :: x in shuffle ==> x in m0;
    AdjacentIn(m0, shuffle);
    var broods := Broods(s.agents, AdjacentPairs(shuffle), kids, cr, mr);
    assert BreedPlan(m0, AdjacentPairs(shuffle), broods) by { AdjacentPlan(m0, s.order, shuffle, broods); }
    next := BreedPairs(s, AdjacentPairs(shuffle), broods, c);
  }

  // ---------------------------------------------------------------------------
  // The danger rooms of step

  /**
   * The rule of the room loop: a room of one loses its agent; of two, if
   * the first is an altruist and the second has the beard, the first dies
   * on a draw below dr; otherwise the second dies.
   */
  function Victim(m: Beards, room: seq<int>, draw: real, dr: real): (v: Option<int>)
    requires |room| <= 2 && forall i :: 0 <= i < |room| ==> room[i] in m
    ensures |room| == 0 ==> v == None
    ensures |room| == 1 ==> v == Some(room[0])
    ensures |room| == 2 ==> (v.Some? ==> v.value == room[0] || v.value == room[1])
    ensures |room| == 2 && m[room[0]].altruism != 0 && m[room[1]].beard != 0 ==> (v.Some? <==> draw < dr) && (v.Some? ==> v.value == room[0])
    ensures |room| == 2 && (m[room[0]].altruism == 0 || m[room[1]].beard == 0) ==> v == Some(room[1])
  {
    if |room| == 0 then None
    else if |room| == 1 then Some(room[0])
    else if m[room[0]].altruism != 0 && m[room[1]].beard != 0 then (if draw < dr then Some(room[0]) else None)
    else Some(room[1])
  }

  /** The victim of every room, with the room's own draw. */
  function Victims(m: Beards, rooms: seq<seq<int>>, draws: seq<real>, dr: real): (vs: seq<Option<int>>)
    requires |draws| == |rooms|
    requires forall k :: 0 <= k < |rooms| ==> |rooms[k]| <= 2 && forall i :: 0 <= i < |rooms[k]| ==> rooms[k][i] in m
    ensures OwnVictims(rooms, vs)
  {
    seq(|rooms|, k requires 0 <= k < |rooms| => Victim(m, rooms[k], draws[k], dr))
  }

  /** The ids the danger rooms of one `step` remove. */
  ghost function Danger(m: Beards, order: seq<int>, D: nat, rands: seq<int>, draws: seq<real>, dr: real): set<int>
    requires RoomsReady(m, order, D, rands, draws)
  {
    RoomsOfPopulation(m, order, D, rands, draws);
    Culled(Victims(m, DangerRooms(order, rands, D), draws, dr))
  }

  /**
   * Room by room: a lone agent dies; of two agents, when the first is an
   * altruist and the second bearded, the second survives and the first
   * dies exactly on a draw below dr; otherwise the first survives and the
   * second dies.
   */
  lemma DangerRule(m: Beards, order: seq<int>, D: nat, rands: seq<int>, draws: seq<real>, dr: real, k: int)
    requires RoomsReady(m, order, D, rands, draws) && 0 <= k < D
    ensures var room := DangerRooms(order, rands, D)[k];
      var gone := Danger(m, order, D, rands, draws, dr);
      && (|room| == 1 ==> room[0] in gone)
      && (|room| == 2 ==>
            && room[0] in m && room[1] in m
            && if m[room[0]].altruism != 0 && m[room[1]].beard != 0
               then room[1] !in gone && (room[0] in gone <==> draws[k] < dr)
               else room[0] !in gone && room[1] in gone)
  {
    var rooms := DangerRooms(order, rands, D);
    RoomsOfPopulation(m, order, D, rands, draws);
    var victims := Victims(m, rooms, draws, dr);
    var room := rooms[k];
    assert victims[k] == Victim(m, room, draws[k], dr);
    if |room| >= 1 {
      CulledInRoom(rooms, victims, k, room[0]);
    }
    if |room| == 2 {
      assert room[0] != room[1] by { DangerRoomsFacts(order, rands, D); }
      CulledInRoom(rooms, victims, k, room[1]);
    }
  }

  /** The schedule order after the danger rooms. */
  ghost function AfterDanger(m: Beards, order: seq<int>, D: nat, rands: seq<int>, draws: seq<real>, dr: real): seq<int>
    requires RoomsReady(m, order, D, rands, draws)
  {
    Restrict(order, m.Keys - Danger(m, order, D, rands, draws, dr))
  }

  // ---------------------------------------------------------------------------
  // The model

  /** `BeardModelAdv`: the schedule, the counters, and the rates. */
  class BeardModelAdv {
    const schedule: Scheduler<Genotype>
    const N: int
    var nSteps: int
    var totN: int
    var currentId: int
    const mr: real
    const dr: real
    const cr: real
    const linkage: bool

    /**
     * Alleles are 0/1 and every id is at most `current_id`, so `next_id()`
     * is fresh; `tot_N` runs N ahead of `current_id`, and `n_steps` keeps
     * pace with the scheduler's step count.
     */
    ghost predicate Valid()
      reads this, schedule
    {
      && schedule.Valid() && Binary(schedule.agents)
      && (forall id :: id in schedule.agents ==> id <= currentId)
      && totN == N + currentId && nSteps == schedule.steps
    }

    /**
     * `BeardModelAdv(N, r, dr, mr, cr, linkage_dis)`: the founders of
     * k = int(N * r), numbered 1, 2, ... by `next_id()`; no reproduction yet.
     */
    constructor (N: nat, r: real, dr: real, mr: real, cr: real, linkage: bool)
      requires 0.0 <= r <= 1.0
      ensures Valid() && fresh(schedule)
      ensures this.N == N && this.dr == dr && this.mr == mr && this.cr == cr && this.linkage == linkage
      ensures nSteps == 0 && schedule.steps == 0 && schedule.time == 0
      ensures 0 <= Trunc(N as real * r) <= N
      ensures var xs := Founders(N, Trunc(N as real * r), linkage);
        && currentId == |xs| && schedule.agents == Born(0, xs) && schedule.order == Range(1, currentId + 1)
    {
      this.N := N;
      this.dr := dr;
      this.mr := mr;
      this.cr := cr;
      this.linkage := linkage;
      nSteps := 0;
      schedule := new Scheduler();
      TruncRatio(N, r);
      var k := Trunc(N as real * r);
      new;
      var next := AddFounders(schedule, N, k, linkage);
      currentId := next;
      totN := N + next;
      FoundersAlleles(N, k, linkage);
      FoundersValid(Founders(N, k, linkage));
    }

    /**
     * `reproduce`: the adjacent pairs of a shuffle of all agents each have
     * 2 to 4 children, numbered by `next_id()`, and then leave.
     */
    method Reproduce(shuffle: seq<int>, kids: seq<seq<ChildDraw>>)
      requires Valid() && IsShuffle(shuffle, schedule.order) && BroodSizes(kids, |shuffle| / 2)
      modifies this, schedule
      ensures Valid() && nSteps == old(nSteps)
      ensures schedule.steps == old(schedule.steps) && schedule.time == old(schedule.time)
      ensures forall x :: x in shuffle ==> x in old(schedule.agents)
      ensures schedule.agents == Bred(old(schedule.agents), shuffle, kids, cr, mr, old(currentId))
      ensures currentId == old(currentId) + |Offspring(old(schedule.agents), shuffle, kids, cr, mr)|
      ensures schedule.order == BredOrder(old(schedule.order), old(schedule.agents), shuffle, old(currentId), currentId)
    {
      ghost var m0, c := schedule.agents, currentId;
      var next := BreedShuffle(schedule, shuffle, kids, cr, mr, currentId);
      totN := totN + (next - currentId);
      currentId := next;
      assert Valid() by { BredValid(m0, shuffle, kids, cr, mr, c); }
    }

    /**
     * `step`: `n_steps` advances, agents fill the danger rooms in schedule
     * order, each room's victim leaves, the scheduler counts a step (the
     * agents' own `step` is Mesa's empty default), and the survivors
     * reproduce.
     */
    method Step(D: nat, rands: seq<int>, draws: seq<real>, shuffle: seq<int>, kids: seq<seq<ChildDraw>>)
      requires Valid() && RoomsReady(schedule.agents, schedule.order, D, rands, draws)
      requires IsShuffle(shuffle, AfterDanger(schedule.agents, schedule.order, D, rands, draws, dr))
      requires BroodSizes(kids, |shuffle| / 2)
      modifies this, schedule
      ensures Valid() && nSteps == old(nSteps) + 1
      ensures schedule.steps == old(schedule.steps) + 1 && schedule.time == old(schedule.time) + 1
      ensures var m1 := old(schedule.agents) - Danger(old(schedule.agents), old(schedule.order), D, rands, draws, dr);
        && (forall x :: x in shuffle ==> x in m1)
        && schedule.agents == Bred(m1, shuffle, kids, cr, mr, old(currentId))
        && currentId == old(currentId) + |Offspring(m1, shuffle, kids, cr, mr)|
        && schedule.order ==
             BredOrder(AfterDanger(old(schedule.agents), old(schedule.order), D, rands, draws, dr), m1, shuffle, old(currentId), currentId)
    {
      nSteps := nSteps + 1;
      var rooms := AssignRooms(schedule.order, rands, D);
      RoomsOfPopulation(schedule.agents, schedule.order, D, rands, draws);
      var victims := Victims(schedule.agents, rooms, draws, dr);
      OwnVictimsOneEach(rooms, victims);
      forall k | 0 <= k < |victims| && victims[k].Some? ensures victims[k].value in schedule.agents {
        assert victims[k].value in rooms[k];
      }
      Cull(schedule, victims);
      schedule.Tick();
      Reproduce(shuffle, kids);
    }
  }

  /** Founders numbered from 0 are binary when their genotypes are, and their ids are 1 .. |xs|. */
  lemma FoundersValid(xs: seq<Genotype>)
    requires forall i :: 0 <= i < |xs| ==> xs[i] in Binaries
    ensures Binary(Born(0, xs)) && forall id :: id in Born(0, xs) ==> 1 <= id <= |xs|
  {
    assert forall x :: x in xs ==> x in Binaries;
    BornWithin(0, xs, Binaries);
    BornKeys(0, xs);
  }
}
