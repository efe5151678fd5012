/**
 * green_beard_basic/model.py: `BeardModel`, the green-beard experiment with
 * one 0/1 gene. An agent with genotype 1 is a green-bearded altruist. Each
 * step, agents fall into danger rooms; a lone agent dies, and of two
 * agents the first dies unless both are green beards, in which case it
 * sacrifices itself only on a draw below dr. The survivors then reproduce
 * in adjacent pairs of a shuffle, two to four children per pair, and the
 * parents leave.
 *
 * Every `random` call is an input: a room draw per agent, one real per
 * danger room, a shuffle, and for each child a pick and a mutation draw.
 * The number of danger rooms, `num_agents // 1.87` in floating point, is
 * the input `D`.
 */
module GreenBeardBasic {
  import opened Seqs
  import opened Wrappers
  import opened Numerals
  import opened Mesa
  import opened Mating
  import opened GreenBeard

  /** Agents by id; a `BeardAgent` is its genotype. */
  type Beards = map<int, int>

  /** Every genotype is 0 or 1. */
  ghost predicate Binary(m: Beards)
  {
    forall id :: id in m ==> m[id] == 0 || m[id] == 1
  }

  // ---------------------------------------------------------------------------
  // add_agents

  /** The genotype `add_agents` gives agent `id`: the first k agents are altruists. */
  function InitialBeard(id: int, k: int): int
  {
    if id < k then 1 else 0
  }

  /** The population `add_agents(N, r)` builds when k = int(N * r) lies in 0 .. N. */
  function InitialBeards(N: nat, k: int): Beards
  {
    map id | 0 <= id <= N :: InitialBeard(id, k)
  }

  /** `add_agents` makes N + 1 agents, of which exactly int(N * r) are altruists. */
  lemma InitialBeardsCount(N: nat, k: int)
    requires 0 <= k <= N
    ensures |InitialBeards(N, k).Keys| == N + 1
    ensures |set id | id in InitialBeards(N, k) && InitialBeards(N, k)[id] == 1| == k
    ensures Binary(InitialBeards(N, k))
  {
    var m := InitialBeards(N, k);
    assert |IdsBelow(k)| == k by { RangeDistinct(0, k); DistinctCard(Range(0, k)); }
    assert (set id | id in m && m[id] == 1) == IdsBelow(k);
    assert |IdsBelow(N + 1)| == N + 1 by { RangeDistinct(0, N + 1); DistinctCard(Range(0, N + 1)); }
    assert m.Keys == IdsBelow(N + 1);
  }

  /** The two loops, numbering from -1 and then from k - 1, build `InitialBeards`. */
  lemma InitialBeardsBorn(N: nat, k: int)
    requires 0 <= k <= N
    ensures forall id :: id in map[] + Born(-1, Copies(k, 1)) ==> id <= k - 1
    ensures map[] + Born(-1, Copies(k, 1)) + Born(k - 1, Copies(N + 1 - k, 0)) == InitialBeards(N, k)
  {
    var a, b := map[] + Born(-1, Copies(k, 1)), Born(k - 1, Copies(N + 1 - k, 0));
    assert a == Born(-1, Copies(k, 1));
    BornKeys(-1, Copies(k, 1));
    BornKeys(k - 1, Copies(N + 1 - k, 0));
    var l, r := a + b, InitialBeards(N, k);
    forall id | id in l ensures id in r && l[id] == r[id] {
      if id < k {
        BornAt(-1, Copies(k, 1), id);
      } else {
        BornAt(k - 1, Copies(N + 1 - k, 0), id - k);
      }
    }
    assert l.Keys == r.Keys;
  }

  /**
   * `add_agents(N, r)` with k = int(N * r): ids 0 .. k-1 with genotype 1,
   * then ids k .. N with genotype 0.
   */
  method AddAgents(s: Scheduler<int>, N: nat, k: int)
    requires 0 <= k <= N
    requires s.Valid() && s.order == [] && s.agents == map[]
    modifies s
    ensures s.Valid() && s.agents == InitialBeards(N, k) && s.order == Range(0, N + 1)
    ensures s.steps == old(s.steps) && s.time == old(s.time)
  {
    InitialBeardsBorn(N, k);
    var c := AddFrom(s, -1, Copies(k, 1));
    c := AddFrom(s, k - 1, Copies(N + 1 - k, 0));
    assert s.order == Range(0, N + 1) by {
      assert [] + Range(0, k) == Range(0, k);
      RangeConcat(0, k, N + 1);
    }
  }

  // ---------------------------------------------------------------------------
  // reproduce

  /** The two draws each child takes: `random.random() < 0.50` picks the first parent, the second is the mutation draw. */
  datatype ChildDraw = ChildDraw(pick: real, flip: real)

  /**
   * A child's genotype: the first parent's on a pick below 0.5, the
   * second's otherwise, then `mutate`. Without mutation a child carries a
   * parent's gene; binary parents have binary children.
   */
  function BeardChild(g1: int, g2: int, d: ChildDraw, mr: real): (g: int)
    ensures d.flip > mr ==> g == g1 || g == g2
    ensures (g1 == 0 || g1 == 1) && (g2 == 0 || g2 == 1) ==> g == 0 || g == 1
    ensures g1 == g2 ==> (g != g1 <==> d.flip <= mr)
  {
    Mutate(if d.pick < 0.5 then g1 else g2, d.flip, mr)
  }

  /** The genotypes of each pair's children, pair by pair. */
  function Broods(m: Beards, ps: seq<(int, int)>, kids: seq<seq<ChildDraw>>, mr: real): (broods: seq<seq<int>>)
    requires |kids| == |ps| && forall i :: 0 <= i < |ps| ==> ps[i].0 in m && ps[i].1 in m
    ensures |broods| == |ps| && forall i :: 0 <= i < |ps| ==> |broods[i]| == |kids[i]|
  {
    seq(|ps|, i requires 0 <= i < |ps| =>
      seq(|kids[i]|, j requires 0 <= j < |kids[i]| => BeardChild(m[ps[i].0], m[ps[i].1], kids[i][j], mr)))
  }

  /** All children of one `reproduce`, in the order they are born. */
  ghost function Offspring(m: Beards, shuffle: seq<int>, kids: seq<seq<ChildDraw>>, mr: real): seq<int>
    requires (forall x :: x in shuffle ==> x in m) && |kids| == |shuffle| / 2
  {
    AdjacentIn(m, shuffle);
    Flatten(Broods(m, AdjacentPairs(shuffle), kids, mr))
  }

  /** The population after `reproduce` with the id counter at c. */
  ghost function Bred(m: Beards, shuffle: seq<int>, kids: seq<seq<ChildDraw>>, mr: real, c: int): Beards
    requires (forall x :: x in shuffle ==> x in m) && |kids| == |shuffle| / 2
  {
    (m - Paired(AdjacentPairs(shuffle))) + Born(c, Offspring(m, shuffle, kids, mr))
  }

  /**
   * What `reproduce` makes of the population: only an odd last agent of
   * the shuffle stays, every other agent gives way to children with ids
   * c + 1 .. c + n, where the n children number 2 to 4 per pair.
   */
  lemma BredShape(m: Beards, order: seq<int>, shuffle: seq<int>, kids: seq<seq<ChildDraw>>, mr: real, c: int)
    requires (forall id :: id in order <==> id in m) && IsShuffle(shuffle, order)
    requires BroodSizes(kids, |shuffle| / 2)
    ensures var n := |Offspring(m, shuffle, kids, mr)|;
      && 2 * (|shuffle| / 2) <= n <= MaxChild * (|shuffle| / 2)
      && (forall id :: c < id <= c + n ==> id in Bred(m, shuffle, kids, mr, c))
      && (forall id :: id in Bred(m, shuffle, kids, mr, c) ==>
            (c < id <= c + n) || (|shuffle| % 2 == 1 && id == shuffle[|shuffle| - 1]))
  {
    var ps := AdjacentPairs(shuffle);
    AdjacentIn(m, shuffle);
    var broods := Broods(m, ps, kids, mr);
    FlattenSize(broods, 2, MaxChild);
    UnpairedLeftover(m, order, shuffle);
    BornKeys(c, Flatten(broods));
  }

  /**
   * Genotypes that hold of the whole population and of every child hold
   * after `reproduce`: a binary population stays binary, and, without
   * mutation, a population of one genotype breeds true.
   */
  lemma BredWithin(m: Beards, shuffle: seq<int>, kids: seq<seq<ChildDraw>>, mr: real, c: int, S: set<int>)
    requires (forall x :: x in shuffle ==> x in m) && |kids| == |shuffle| / 2
    requires forall id :: id in m ==> m[id] in S
    requires forall g1, g2, i, j :: g1 in S && g2 in S && 0 <= i < |kids| && 0 <= j < |kids[i]| ==>
      BeardChild(g1, g2, kids[i][j], mr) in S
    ensures forall id :: id in Bred(m, shuffle, kids, mr, c) ==> Bred(m, shuffle, kids, mr, c)[id] in S
  {
    var ps := AdjacentPairs(shuffle);
    AdjacentIn(m, shuffle);
    var broods := Broods(m, ps, kids, mr);
    forall i, j | 0 <= i < |broods| && 0 <= j < |broods[i]| ensures broods[i][j] in S {
      var a, b := ps[i].0, ps[i].1;
      assert a in m && b in m;
      assert m[a] in S && m[b] in S;
      assert broods[i][j] == BeardChild(m[ps[i].0], m[ps[i].1], kids[i][j], mr);
    }
    FlattenWithin(broods, S);
    BornWithin(c, Flatten(broods), S);
  }

  /** `reproduce` keeps genotypes binary and every id at most the advanced counter. */
  lemma BredValid(m: Beards, shuffle: seq<int>, kids: seq<seq<ChildDraw>>, mr: real, c: int)
    requires (forall x :: x in shuffle ==> x in m) && |kids| == |shuffle| / 2
    requires Binary(m) && forall id :: id in m ==> id <= c
    ensures Binary(Bred(m, shuffle, kids, mr, c))
    ensures forall id :: id in Bred(m, shuffle, kids, mr, c) ==> id <= c + |Offspring(m, shuffle, kids, mr)|
  {
    BinaryChildren(kids, mr);
    BredWithin(m, shuffle, kids, mr, c, {0, 1});
    BornKeys(c, Offspring(m, shuffle, kids, mr));
  }

  /** Binary genotypes are closed under `BeardChild`. */
  lemma BinaryChildren(kids: seq<seq<ChildDraw>>, mr: real)
    ensures forall g1, g2, i, j :: g1 in {0, 1} && g2 in {0, 1} && 0 <= i < |kids| && 0 <= j < |kids[i]| ==>
      BeardChild(g1, g2, kids[i][j], mr) in {0, 1}
  {
  }

  /** Without a mutation draw at or below mr, a population of genotype g has only children of genotype g. */
  lemma BredTrue(m: Beards, shuffle: seq<int>, kids: seq<seq<ChildDraw>>, mr: real, c: int, g: int)
    requires (forall x :: x in shuffle ==> x in m) && |kids| == |shuffle| / 2
    requires forall id :: id in m ==> m[id] == g
    requires forall i, j :: 0 <= i < |kids| && 0 <= j < |kids[i]| ==> kids[i][j].flip > mr
    ensures forall id :: id in Bred(m, shuffle, kids, mr, c) ==> Bred(m, shuffle, kids, mr, c)[id] == g
  {
    BredWithin(m, shuffle, kids, mr, c, {g});
  }

  /**
   * The body of `reproduce` on the scheduler: each adjacent pair of the
   * shuffle has its brood, numbered on from c, and leaves.
   */
  method BreedShuffle(s: Scheduler<int>, shuffle: seq<int>, kids: seq<seq<ChildDraw>>, mr: real, c: int) returns (next: int)
    requires s.Valid() && IsShuffle(shuffle, s.order) && |kids| == |shuffle| / 2
    requires forall id :: id in s.agents ==> id <= c
    modifies s
    ensures s.Valid()
    ensures s.steps == old(s.steps) && s.time == old(s.time)
    ensures forall x :: x in shuffle ==> x in old(s.agents)
    ensures s.agents == Bred(old(s.agents), shuffle, kids, mr, c)
    ensures next == c + |Offspring(old(s.agents), shuffle, kids, mr)|
    ensures s.order == BredOrder(old(s.order), old(s.agents), shuffle, c, next)
  {
    ghost var m0 := s.agents;
    assert forall x :: x in shuffle ==> x in m0;
    AdjacentIn(m0, shuffle);
    var broods := Broods(s.agents, AdjacentPairs(shuffle), kids, mr);
    assert BreedPlan(m0, AdjacentPairs(shuffle), broods) by { AdjacentPlan(m0, s.order, shuffle, broods); }
    next := BreedPairs(s, AdjacentPairs(shuffle), broods, c);
  }

  // ---------------------------------------------------------------------------
  // The danger rooms of step

  /**
   * The rule of the room loop: a room of one loses its agent; of two, the
   * first dies, unless both are green beards, when it dies only on a draw
   * below dr. The second agent never dies.
   */
  function Victim(m: Beards, room: seq<int>, draw: real, dr: real): (v: Option<int>)
    requires |room| <= 2 && forall i :: 0 <= i < |room| ==> room[i] in m
    ensures v.Some? ==> |room| > 0 && v.value == room[0]
    ensures v.None? <==> |room| == 0 || (|room| == 2 && m[room[0]] != 0 && m[room[1]] != 0 && draw >= dr)
  {
    if |room| == 0 then None
    else if |room| == 1 then Some(room[0])
    else if m[room[0]] != 0 && m[room[1]] != 0 then (if draw < dr then Some(room[0]) else None)
    else Some(room[0])
  }

  /** The victim of every room, with the room's own draw. */
  function Victims(m: Beards, rooms: seq<seq<int>>, draws: seq<real>, dr: real): (vs: seq<Option<int>>)
    requires |draws| == |rooms|
    requires forall k :: 0 <= k < |rooms| ==> |rooms[k]| <= 2 && forall i :: 0 <= i < |rooms[k]| ==> rooms[k][i] in m
    ensures OwnVictims(rooms, vs)
  {
    seq(|rooms|, k requires 0 <= k < |rooms| => Victim(m, rooms[k], draws[k], dr))
  }

  /** The ids the danger rooms of one `step` remove. */
  ghost function Danger(m: Beards, order: seq<int>, D: nat, rands: seq<int>, draws: seq<real>, dr: real): set<int>
    requires RoomsReady(m, order, D, rands, draws)
  {
    RoomsOfPopulation(m, order, D, rands, draws);
    Culled(Victims(m, DangerRooms(order, rands, D), draws, dr))
  }

  /**
   * Room by room: a lone agent dies; the second of two agents survives;
   * the first of two dies exactly when one of them is not a green beard or
   * the room's draw is below dr.
   */
  lemma DangerRule(m: Beards, order: seq<int>, D: nat, rands: seq<int>, draws: seq<real>, dr: real, k: int)
    requires RoomsReady(m, order, D, rands, draws) && 0 <= k < D
    ensures var room := DangerRooms(order, rands, D)[k];
      var gone := Danger(m, order, D, rands, draws, dr);
      && (|room| == 1 ==> room[0] in gone)
      && (|room| == 2 ==> room[1] !in gone)
      && (|room| == 2 ==>
            room[0] in m && room[1] in m && (room[0] in gone <==> m[room[0]] == 0 || m[room[1]] == 0 || draws[k] < dr))
  {
    var rooms := DangerRooms(order, rands, D);
    RoomsOfPopulation(m, order, D, rands, draws);
    var victims := Victims(m, rooms, draws, dr);
    var room := rooms[k];
    if |room| >= 1 {
      CulledInRoom(rooms, victims, k, room[0]);
    }
    if |room| == 2 {
      assert room[0] != room[1] by { DangerRoomsFacts(order, rands, D); }
      CulledInRoom(rooms, victims, k, room[1]);
    }
  }

  /** Nobody outside the danger rooms dies, and each room gives up at most one agent. */
  lemma DangerOnlyInRooms(m: Beards, order: seq<int>, D: nat, rands: seq<int>, draws: seq<real>, dr: real)
    requires RoomsReady(m, order, D, rands, draws)
    ensures var rooms := DangerRooms(order, rands, D);
      && Danger(m, order, D, rands, draws, dr) <= m.Keys
      && forall x :: x in Danger(m, order, D, rands, draws, dr) ==> exists k :: 0 <= k < D && |rooms[k]| > 0 && x == rooms[k][0]
  {
    var rooms := DangerRooms(order, rands, D);
    RoomsOfPopulation(m, order, D, rands, draws);
    var victims := Victims(m, rooms, draws, dr);
    forall x | x in Culled(victims) ensures x in m && exists k :: 0 <= k < D && |rooms[k]| > 0 && x == rooms[k][0] {
      var k :| 0 <= k < |victims| && victims[k] == Some(x);
      assert victims[k] == Victim(m, rooms[k], draws[k], dr);
      assert x in rooms[k];
    }
  }

  /** The schedule order after the danger rooms. */
  ghost function AfterDanger(m: Beards, order: seq<int>, D: nat, rands: seq<int>, draws: seq<real>, dr: real): seq<int>
    requires RoomsReady(m, order, D, rands, draws)
  {
    Restrict(order, m.Keys - Danger(m, order, D, rands, draws, dr))
  }

  // ---------------------------------------------------------------------------
  // The model

  /** `BeardModel`: the schedule, the id counter `tot_N`, and the rates. */
  class BeardModel {
    const schedule: Scheduler<int>
    const N: int
    var totN: int
    const dr: real
    const mr: real

    /** Binary genotypes, and every id at most the counter, so children's ids are fresh. */
    ghost predicate Valid()
      reads this, schedule
    {
      && schedule.Valid() && Binary(schedule.agents)
      && forall id :: id in schedule.agents ==> id <= totN
    }

    /**
     * `BeardModel(N, r, dr, mr)`: N + 1 agents, of which int(N * r) carry
     * the green beard, at once reproduce; `tot_N` starts at N.
     */
    constructor (N: nat, r: real, dr: real, mr: real, shuffle: seq<int>, kids: seq<seq<ChildDraw>>)
      requires 0.0 <= r <= 1.0
      requires IsShuffle(shuffle, Range(0, N + 1)) && BroodSizes(kids, |shuffle| / 2)
      ensures Valid() && fresh(schedule)
      ensures this.N == N && this.dr == dr && this.mr == mr
      ensures schedule.steps == 0 && schedule.time == 0
      ensures var m := InitialBeards(N, Trunc(N as real * r));
        && (forall x :: x in shuffle ==> x in m)
        && schedule.agents == Bred(m, shuffle, kids, mr, N)
        && totN == N + |Offspring(m, shuffle, kids, mr)|
    {
      this.N := N;
      this.totN := N;
      this.dr := dr;
      this.mr := mr;
      schedule := new Scheduler();
      new;
      TruncRatio(N, r);
      var k := Trunc(N as real * r);
      AddAgents(schedule, N, k);
      InitialBeardsCount(N, k);
      Reproduce(shuffle, kids);
    }

    /**
     * `reproduce`: the adjacent pairs of a shuffle of all agents each have
     * 2 to 4 children, numbered on from `tot_N`, and then leave.
     */
    method Reproduce(shuffle: seq<int>, kids: seq<seq<ChildDraw>>)
      requires Valid() && IsShuffle(shuffle, schedule.order) && BroodSizes(kids, |shuffle| / 2)
      modifies this, schedule
      ensures Valid()
      ensures schedule.steps == old(schedule.steps) && schedule.time == old(schedule.time)
      ensures forall x :: x in shuffle ==> x in old(schedule.agents)
      ensures schedule.agents == Bred(old(schedule.agents), shuffle, kids, mr, old(totN))
      ensures totN == old(totN) + |Offspring(old(schedule.agents), shuffle, kids, mr)|
      ensures schedule.order == BredOrder(old(schedule.order), old(schedule.agents), shuffle, old(totN), totN)
    {
      ghost var m0, c := schedule.agents, totN;
      totN := BreedShuffle(schedule, shuffle, kids, mr, totN);
      assert Valid() by { BredValid(m0, shuffle, kids, mr, c); }
    }

    /**
     * `step`: agents fill the danger rooms in schedule order, each room's
     * victim leaves, the scheduler counts a step (the agents' own `step` is
     * Mesa's empty default), and the survivors reproduce.
     */
    method Step(D: nat, rands: seq<int>, draws: seq<real>, shuffle: seq<int>, kids: seq<seq<ChildDraw>>)
      requires Valid() && RoomsReady(schedule.agents, schedule.order, D, rands, draws)
      requires IsShuffle(shuffle, AfterDanger(schedule.agents, schedule.order, D, rands, draws, dr))
      requires BroodSizes(kids, |shuffle| / 2)
      modifies this, schedule
      ensures Valid()
      ensures schedule.steps == old(schedule.steps) + 1 && schedule.time == old(schedule.time) + 1
      ensures var m1 := old(schedule.agents) - Danger(old(schedule.agents), old(schedule.order), D, rands, draws, dr);
        && (forall x :: x in shuffle ==> x in m1)
        && schedule.agents == Bred(m1, shuffle, kids, mr, old(totN))
        && totN == old(totN) + |Offspring(m1, shuffle, kids, mr)|
        && schedule.order ==
             BredOrder(AfterDanger(old(schedule.agents), old(schedule.order), D, rands, draws, dr), m1, shuffle, old(totN), totN)
    {
      var rooms := AssignRooms(schedule.order, rands, D);
      RoomsOfPopulation(schedule.agents, schedule.order, D, rands, draws);
      var victims := Victims(schedule.agents, rooms, draws, dr);
      OwnVictimsOneEach(rooms, victims);
      forall k | 0 <= k < |victims| && victims[k].Some? ensures victims[k].value in schedule.agents {
        assert victims[k].value in rooms[k];
      }
      Cull(schedule, victims);
      schedule.Tick();
      Reproduce(shuffle, kids);
    }
  }
}
