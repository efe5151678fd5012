/**
 * The relatedness-driven engine of kinship/ibd_model.py. Agents of one
 * generation are put into rooms of 30 drawn from the whole population; the
 * chosen actor of a room, if an altruist, weighs the summed relatedness to
 * its room-mates (read from the genealogy DAG) before sacrificing itself.
 * Reproduction replaces the population and records every child in the DAG,
 * which keeps three generations.
 */
module Kinship {
  import opened Seqs
  import opened Mesa
  import opened Mating
  import opened Hamilton
  import opened Genealogy
  import Numerals

  // ---------------------------------------------------------------------------
  // The benefit of an altruistic act

  /**
   * `sum([ig_ibd_coeff(pre + str(self.unique_id), pre + str(a.unique_id)) for a in A_room])`
   * with `pre` the current step: the relatedness of the actor to each room-mate.
   */
  function Benefit(g: Graph, steps: int, id: int, others: seq<int>): real
    requires WellFormed(g) && Node(steps, id) in g.nodes
    requires forall a :: a in others ==> Node(steps, a) in g.nodes
  {
    if others == [] then 0.0
    else
      var a := others[0];
      assert a in others;
      IgIbdCoeff(g, Node(steps, id), Node(steps, a)) + Benefit(g, steps, id, others[1..])
  }

  /** Each term is at most 0.5, so the benefit is at most half the number of room-mates. */
  lemma {:induction false} BenefitBounds(g: Graph, steps: int, id: int, others: seq<int>)
    requires WellFormed(g) && Node(steps, id) in g.nodes
    requires forall a :: a in others ==> Node(steps, a) in g.nodes
    ensures 0.0 <= Benefit(g, steps, id, others) <= 0.5 * |others| as real
  {
    if others != [] {
      var a := others[0];
      assert a in others;
      IgIbdCoeffMeaning(g, Node(steps, id), Node(steps, a));
      BenefitBounds(g, steps, id, others[1..]);
    }
  }

  /** The threshold `b > 1` can only be passed with at least three room-mates. */
  lemma SacrificeNeedsThree(g: Graph, steps: int, id: int, others: seq<int>)
    requires WellFormed(g) && Node(steps, id) in g.nodes
    requires forall a :: a in others ==> Node(steps, a) in g.nodes
    requires Benefit(g, steps, id, others) > 1.0
    ensures |others| >= 3
  {
    BenefitBounds(g, steps, id, others);
  }

  /** Room-mates that all share a parent with the actor count 0.5 each. */
  lemma {:induction false} BenefitOfSiblings(g: Graph, steps: int, id: int, others: seq<int>)
    requires WellFormed(g) && Node(steps, id) in g.nodes
    requires forall a :: a in others ==> Node(steps, a) in g.nodes
    requires forall a :: a in others ==> exists u :: (u, Node(steps, id)) in g.edges && (u, Node(steps, a)) in g.edges
    ensures Benefit(g, steps, id, others) == 0.5 * |others| as real
  {
    if others != [] {
      var a := others[0];
      assert a in others;
      SiblingsHalf(g, Node(steps, id), Node(steps, a));
      BenefitOfSiblings(g, steps, id, others[1..]);
    }
  }

  // ---------------------------------------------------------------------------
  // The altruistic action

  /** The rooms and actors are in the DAG at the current step, which is well formed. */
  ghost predicate InGraph(g: Graph, steps: int, rooms: seq<seq<int>>, active: seq<int>)
  {
    && WellFormed(g)
    && (forall a :: a in active ==> Node(steps, a) in g.nodes)
    && (forall k, x :: 0 <= k < |rooms| && x in rooms[k] ==> Node(steps, x) in g.nodes)
  }

  /**
   * The agents `altruistic_action` removes when agent `id` acts in `room`:
   * an altruist whose benefit over its room-mates exceeds 1 removes itself
   * unless the draw exceeds the death rate; any other actor removes every
   * room-mate but itself.
   */
  function KinVictims(m: Population, g: Graph, steps: int, room: seq<int>, id: int, draw: real, dr: real): (v: set<int>)
    requires id in m && WellFormed(g) && Node(steps, id) in g.nodes
    requires forall x :: x in room ==> Node(steps, x) in g.nodes
    ensures forall x :: x in v ==> x == id || x in room
    ensures id in v <==> Altruist(m[id].genotype) && Benefit(g, steps, id, Without(room, id)) > 1.0 && draw <= dr
    ensures forall x :: x != id ==>
      (x in v <==> x in room && !(Altruist(m[id].genotype) && Benefit(g, steps, id, Without(room, id)) > 1.0))
  {
    if Altruist(m[id].genotype) then
      var others := Without(room, id);
      if Benefit(g, steps, id, others) > 1.0 then (if draw > dr then {} else {id})
      else set x | x in others && x != id
    else set x | x in room && x != id
  }

  /** The agents and the room lists that actions update. */
  datatype KinState = KinState(agents: Population, rooms: seq<seq<int>>)

  /**
   * One action: the actor's room is the one at its position in the actor
   * list; an altruist first drops itself from that room's list.
   */
  function KinAct(st: KinState, id: int, active: seq<int>, g: Graph, steps: int, draw: real, dr: real): (r: KinState)
    requires id in st.agents && id in active && |st.rooms| == |active|
    requires InGraph(g, steps, st.rooms, active)
    ensures |r.rooms| == |st.rooms|
    ensures forall k, x :: 0 <= k < |r.rooms| && x in r.rooms[k] ==> x in st.rooms[k]
    ensures forall x :: x in r.agents ==> x in st.agents && r.agents[x] == st.agents[x]
    ensures InGraph(g, steps, r.rooms, active)
  {
    var k := IndexOf(active, id);
    var room := st.rooms[k];
    var rooms := if Altruist(st.agents[id].genotype) then st.rooms[k := Without(room, id)] else st.rooms;
    KinState(st.agents - KinVictims(st.agents, g, steps, room, id, draw, dr), rooms)
  }

  /**
   * `SocialActivation.step(active)` with this variant's action: the
   * shuffled ids are visited in turn and a present, listed actor acts with
   * the draw at its position in the actor list.
   */
  function KinActivation(st: KinState, shuffle: seq<int>, active: seq<int>, g: Graph, steps: int, draws: seq<real>, dr: real): (r: KinState)
    requires |st.rooms| == |active| && |draws| == |active|
    requires InGraph(g, steps, st.rooms, active)
    ensures forall x :: x in r.agents ==> x in st.agents && r.agents[x] == st.agents[x]
    decreases |shuffle|
  {
    if shuffle == [] then st
    else
      var id := shuffle[0];
      var next := if id in st.agents && id in active then KinAct(st, id, active, g, steps, DrawOf(active, draws, id), dr) else st;
      KinActivation(next, shuffle[1..], active, g, steps, draws, dr)
  }

  /** One step of the fold: the head of the shuffle acts when it is present and listed. */
  lemma KinActivationStep(st: KinState, rest: seq<int>, active: seq<int>, g: Graph, steps: int, draws: seq<real>, dr: real)
    requires |st.rooms| == |active| && |draws| == |active|
    requires InGraph(g, steps, st.rooms, active)
    requires |rest| > 0
    ensures rest[0] in st.agents && rest[0] in active ==>
      KinActivation(st, rest, active, g, steps, draws, dr) ==
      KinActivation(KinAct(st, rest[0], active, g, steps, DrawOf(active, draws, rest[0]), dr), rest[1..], active, g, steps, draws, dr)
    ensures !(rest[0] in st.agents && rest[0] in active) ==>
      KinActivation(st, rest, active, g, steps, draws, dr) == KinActivation(st, rest[1..], active, g, steps, draws, dr)
  {
  }

  // ---------------------------------------------------------------------------
  // The outcome of an interaction does not depend on the activation order

  /** The victims of the listed actors in `xs`, each judged on the initial agents and its own drawn room. */
  ghost function FoldVictims(m: Population, g: Graph, steps: int, rooms: seq<seq<int>>, active: seq<int>,
                             draws: seq<real>, dr: real, xs: seq<int>): set<int>
    requires |rooms| == |active| && |draws| == |active| && InGraph(g, steps, rooms, active)
  {
    if xs == [] then {}
    else
      var id := xs[0];
      (if id in m && id in active
       then KinVictims(m, g, steps, rooms[IndexOf(active, id)], id, DrawOf(active, draws, id), dr)
       else {})
      + FoldVictims(m, g, steps, rooms, active, draws, dr, xs[1..])
  }

  /** Deleting two sets of keys one after the other is deleting their union. */
  lemma MapMinusUnion(m: Population, a: set<int>, b: set<int>)
    ensures (m - a) - b == m - (a + b)
  {
    var l, r := (m - a) - b, m - (a + b);
    assert l.Keys == r.Keys;
  }

  /**
   * Walking the rest of the shuffle from a state whose untouched rooms are
   * as drawn removes exactly the victims of each remaining actor judged on
   * the initial agents and its drawn room.
   */
  lemma {:induction false} KinActivationFrom(m0: Population, st: KinState, removed: set<int>, rest: seq<int>,
                                             rooms0: seq<seq<int>>, active: seq<int>, g: Graph, steps: int,
                                             draws: seq<real>, dr: real)
    requires |st.rooms| == |active| && |rooms0| == |active| && |draws| == |active|
    requires InGraph(g, steps, st.rooms, active) && InGraph(g, steps, rooms0, active)
    requires st.agents == m0 - removed && Distinct(rest)
    requires forall k :: 0 <= k < |rooms0| ==> active[k] in rooms0[k]
    requires forall k1, k2, x :: 0 <= k1 < k2 < |rooms0| && x in rooms0[k1] ==> x !in rooms0[k2]
    requires Untouched(st.agents, st.rooms, rooms0, active, rest)
    ensures KinActivation(st, rest, active, g, steps, draws, dr).agents
      == m0 - (removed + FoldVictims(m0, g, steps, rooms0, active, draws, dr, rest))
    decreases |rest|
  {
    var fold := FoldVictims(m0, g, steps, rooms0, active, draws, dr, rest);
    if rest == [] {
      assert removed + fold == removed;
    } else {
      var id := rest[0];
      var tail := FoldVictims(m0, g, steps, rooms0, active, draws, dr, rest[1..]);
      DistinctTail(rest);
      KinActivationStep(st, rest, active, g, steps, draws, dr);
      if id in active {
        var k := IndexOf(active, id);
        assert active[k] in rest;
        assert id in st.agents && id in m0;
        var draw := DrawOf(active, draws, id);
        var v := KinVictims(m0, g, steps, rooms0[k], id, draw, dr);
        assert KinVictims(st.agents, g, steps, st.rooms[k], id, draw, dr) == v;
        var next := KinAct(st, id, active, g, steps, draw, dr);
        KinActUntouched(st, id, active, g, steps, draw, dr, rooms0, rest);
        MapMinusUnion(m0, removed, v);
        KinActivationFrom(m0, next, removed + v, rest[1..], rooms0, active, g, steps, draws, dr);
        assert fold == v + tail;
        assert removed + v + tail == removed + fold;
      } else {
        UntouchedTail(st.agents, st.rooms, rooms0, active, rest);
        KinActivationFrom(m0, st, removed, rest[1..], rooms0, active, g, steps, draws, dr);
        assert fold == tail;
      }
    }
  }

  /** An id is a victim of the fold iff it is a victim of some listed actor of `xs`. */
  lemma {:induction false} FoldVictimsMember(m: Population, g: Graph, steps: int, rooms: seq<seq<int>>, active: seq<int>,
                                             draws: seq<real>, dr: real, xs: seq<int>, x: int)
    requires |rooms| == |active| && |draws| == |active| && InGraph(g, steps, rooms, active)
    ensures x in FoldVictims(m, g, steps, rooms, active, draws, dr, xs) <==>
      exists k :: 0 <= k < |active| && active[k] in xs && active[k] in m && IndexOf(active, active[k]) == k
        && x in KinVictims(m, g, steps, rooms[k], active[k], draws[k], dr)
  {
    if xs != [] {
      FoldVictimsMember(m, g, steps, rooms, active, draws, dr, xs[1..], x);
      var id := xs[0];
      if id in m && id in active {
        var k := IndexOf(active, id);
        if x in KinVictims(m, g, steps, rooms[k], id, DrawOf(active, draws, id), dr) {
          assert active[k] in xs;
        }
      }
      if exists k :: (0 <= k < |active| && active[k] in xs && active[k] in m && IndexOf(active, active[k]) == k
        && x in KinVictims(m, g, steps, rooms[k], active[k], draws[k], dr))
      {
        var k :| 0 <= k < |active| && active[k] in xs && active[k] in m && IndexOf(active, active[k]) == k
          && x in KinVictims(m, g, steps, rooms[k], active[k], draws[k], dr);
        if active[k] != id {
          assert active[k] in xs[1..];
        }
      }
    }
  }

  /**
   * The victims of one step's rooms: for every room, the agents its actor
   * removes when judged on the agents and the room as drawn.
   */
  ghost function RoomVictims(m: Population, g: Graph, steps: int, rooms: seq<seq<int>>, picks: seq<nat>,
                             draws: seq<real>, dr: real): set<int>
    requires RoomDraws(m, rooms, picks) && AgentsInGraph(g, steps, m) && |draws| == |rooms|
  {
    RoomsInGraph(g, steps, m, rooms, picks);
    RoomsDisjoint(m, rooms, picks);
    var active := Chosen(rooms, picks);
    set k, x | 0 <= k < |rooms| && active[k] in m && x in KinVictims(m, g, steps, rooms[k], active[k], draws[k], dr) :: x
  }

  /**
   * The interaction of a step removes exactly the victims of every room,
   * whatever the shuffle: rooms are disjoint, so no actor's decision sees
   * another's. Every actor is present when it acts, so no removal raises.
   */
  lemma KinActivationOutcome(m: Population, g: Graph, steps: int, rooms: seq<seq<int>>, picks: seq<nat>,
                             shuffle: seq<int>, draws: seq<real>, dr: real)
    requires RoomDraws(m, rooms, picks) && AgentsInGraph(g, steps, m) && |draws| == |rooms|
    requires Distinct(shuffle) && forall x :: x in m ==> x in shuffle
    ensures KinSurvivors(m, g, steps, rooms, picks, shuffle, draws, dr) == m - RoomVictims(m, g, steps, rooms, picks, draws, dr)
  {
    RoomsInGraph(g, steps, m, rooms, picks);
    RoomsDisjoint(m, rooms, picks);
    var active := Chosen(rooms, picks);
    assert m - {} == m;
    KinActivationFrom(m, KinState(m, rooms), {}, shuffle, rooms, active, g, steps, draws, dr);
    FoldIsRoomVictims(m, g, steps, rooms, picks, shuffle, draws, dr);
    assert {} + FoldVictims(m, g, steps, rooms, active, draws, dr, shuffle) == RoomVictims(m, g, steps, rooms, picks, draws, dr);
  }

  /**
   * One action removes at most 29 agents of a room of 30: a sacrificing
   * altruist removes at most itself, and any other actor spares itself.
   */
  lemma KinVictimsBound(m: Population, g: Graph, steps: int, room: seq<int>, id: int, draw: real, dr: real)
    requires id in m && WellFormed(g) && Node(steps, id) in g.nodes
    requires forall x :: x in room ==> Node(steps, x) in g.nodes
    requires Distinct(room) && |room| == 30 && id in room
    ensures |KinVictims(m, g, steps, room, id, draw, dr)| <= 29
  {
    var v := KinVictims(m, g, steps, room, id, draw, dr);
    var members := set x | x in room;
    DistinctCard(room);
    if id in v {
      assert v <= {id};
      SubsetCard(v, {id});
    } else {
      assert v <= members - {id};
      SubsetCard(v, members - {id});
    }
  }

  /** The victims of the first n rooms. */
  ghost function VictimsOfFirst(m: Population, g: Graph, steps: int, rooms: seq<seq<int>>, picks: seq<nat>,
                                draws: seq<real>, dr: real, n: nat): set<int>
    requires RoomDraws(m, rooms, picks) && AgentsInGraph(g, steps, m) && |draws| == |rooms| && n <= |rooms|
  {
    RoomsInGraph(g, steps, m, rooms, picks);
    var active := Chosen(rooms, picks);
    set k, x | 0 <= k < n && active[k] in m && x in KinVictims(m, g, steps, rooms[k], active[k], draws[k], dr) :: x
  }

  /** The first n rooms lose at most 29 agents each. */
  lemma {:induction false} VictimsOfFirstBound(m: Population, g: Graph, steps: int, rooms: seq<seq<int>>, picks: seq<nat>,
                                               draws: seq<real>, dr: real, n: nat)
    requires RoomDraws(m, rooms, picks) && AgentsInGraph(g, steps, m) && |draws| == |rooms| && n <= |rooms|
    ensures |VictimsOfFirst(m, g, steps, rooms, picks, draws, dr, n)| <= 29 * n
  {
    if n > 0 {
      VictimsOfFirstBound(m, g, steps, rooms, picks, draws, dr, n - 1);
      VictimsOfFirstSnoc(m, g, steps, rooms, picks, draws, dr, n - 1);
    }
  }

  /** Room k adds its own victims, at most 29 of them, to those of the rooms before it. */
  lemma VictimsOfFirstSnoc(m: Population, g: Graph, steps: int, rooms: seq<seq<int>>, picks: seq<nat>,
                           draws: seq<real>, dr: real, k: nat)
    requires RoomDraws(m, rooms, picks) && AgentsInGraph(g, steps, m) && |draws| == |rooms| && k < |rooms|
    ensures |VictimsOfFirst(m, g, steps, rooms, picks, draws, dr, k + 1)| <= |VictimsOfFirst(m, g, steps, rooms, picks, draws, dr, k)| + 29
  {
    RoomsInGraph(g, steps, m, rooms, picks);
    RoomsDisjoint(m, rooms, picks);
    var active := Chosen(rooms, picks);
    var last := if active[k] in m then KinVictims(m, g, steps, rooms[k], active[k], draws[k], dr) else {};
    if active[k] in m {
      KinVictimsBound(m, g, steps, rooms[k], active[k], draws[k], dr);
    }
    var a := VictimsOfFirst(m, g, steps, rooms, picks, draws, dr, k);
    assert VictimsOfFirst(m, g, steps, rooms, picks, draws, dr, k + 1) == a + last;
    assert |a + last| + |a * last| == |a| + |last|;
  }

  /**
   * The promise behind drawing every room as dangerous: when the
   * population is the twenty children of each of N // 2 pairs and N >= 2,
   * at least N agents survive the interaction, so `reproduce` never
   * raises. There are n // 40 rooms and each loses at most 29 agents.
   */
  lemma KinSurvivorsAtLeastN(m: Population, g: Graph, steps: int, rooms: seq<seq<int>>, picks: seq<nat>,
                             shuffle: seq<int>, draws: seq<real>, dr: real, N: int)
    requires N >= 2 && |m.Keys| == Brood * (N / 2)
    requires RoomDraws(m, rooms, picks) && AgentsInGraph(g, steps, m) && |draws| == |rooms|
    requires Distinct(shuffle) && forall x :: x in m ==> x in shuffle
    ensures |KinSurvivors(m, g, steps, rooms, picks, shuffle, draws, dr).Keys| >= N
  {
    KinActivationOutcome(m, g, steps, rooms, picks, shuffle, draws, dr);
    var v := RoomVictims(m, g, steps, rooms, picks, draws, dr);
    assert v == VictimsOfFirst(m, g, steps, rooms, picks, draws, dr, |rooms|);
    VictimsOfFirstBound(m, g, steps, rooms, picks, draws, dr, |rooms|);
    var survivors := KinSurvivors(m, g, steps, rooms, picks, shuffle, draws, dr);
    assert survivors.Keys == m.Keys - v;
    SubsetCard(m.Keys * v, v);
    var h := N / 2;
    assert 20 * h == 40 * (h / 2) + 20 * (h % 2);
    assert |rooms| == h / 2;
  }

  /** Folding over a shuffle that lists every agent collects the victims of every room. */
  lemma FoldIsRoomVictims(m: Population, g: Graph, steps: int, rooms: seq<seq<int>>, picks: seq<nat>,
                          shuffle: seq<int>, draws: seq<real>, dr: real)
    requires RoomDraws(m, rooms, picks) && AgentsInGraph(g, steps, m) && |draws| == |rooms|
    requires forall x :: x in m ==> x in shuffle
    requires InGraph(g, steps, rooms, Chosen(rooms, picks))
    ensures FoldVictims(m, g, steps, rooms, Chosen(rooms, picks), draws, dr, shuffle) == RoomVictims(m, g, steps, rooms, picks, draws, dr)
  {
    RoomsInGraph(g, steps, m, rooms, picks);
    RoomsDisjoint(m, rooms, picks);
    var active := Chosen(rooms, picks);
    var fold := FoldVictims(m, g, steps, rooms, active, draws, dr, shuffle);
    var all := RoomVictims(m, g, steps, rooms, picks, draws, dr);
    forall x ensures x in fold <==> x in all {
      FoldVictimsMember(m, g, steps, rooms, active, draws, dr, shuffle, x);
      if x in all {
        var k :| 0 <= k < |rooms| && active[k] in m && x in KinVictims(m, g, steps, rooms[k], active[k], draws[k], dr);
        var i := IndexOf(active, active[k]);
        assert i == k;
        assert active[k] in shuffle;
      }
    }
  }

  // ---------------------------------------------------------------------------
  // Rooms

  /**
   * `np.random.choice(agents, (len(agents) // 40, 30), replace=False)` and
   * one `random.choice` per room: n // 40 rooms of 30 present agents, no
   * agent drawn twice, and a position chosen in each room.
   */
  ghost predicate RoomDraws(m: Population, rooms: seq<seq<int>>, picks: seq<nat>)
  {
    && |rooms| == |m.Keys| / 40 && |picks| == |rooms|
    && (forall k :: 0 <= k < |rooms| ==> |rooms[k]| == 30 && picks[k] < 30)
    && (forall k, x :: 0 <= k < |rooms| && x in rooms[k] ==> x in m)
    && (forall k1, i, k2, j :: 0 <= k1 < |rooms| && 0 <= k2 < |rooms| && 0 <= i < |rooms[k1]| && 0 <= j < |rooms[k2]|
          && (k1 != k2 || i != j)
          ==> rooms[k1][i] != rooms[k2][j])
  }

  /** `[random.choice(r).unique_id for r in rooms]`. */
  function Chosen(rooms: seq<seq<int>>, picks: seq<nat>): (active: seq<int>)
    requires |picks| == |rooms| && forall k :: 0 <= k < |rooms| ==> picks[k] < |rooms[k]|
    ensures |active| == |rooms| && forall k :: 0 <= k < |rooms| ==> active[k] == rooms[k][picks[k]]
  {
    seq(|rooms|, k requires 0 <= k < |rooms| => rooms[k][picks[k]])
  }

  /** The DAG holds every agent as a node of the current generation. */
  ghost predicate AgentsInGraph(g: Graph, steps: int, m: Population)
  {
    WellFormed(g) && forall id :: id in m ==> Node(steps, id) in g.nodes
  }

  /** Rooms of present agents, in a DAG holding every agent, are in the DAG with their actors. */
  lemma RoomsInGraph(g: Graph, steps: int, m: Population, rooms: seq<seq<int>>, picks: seq<nat>)
    requires RoomDraws(m, rooms, picks) && AgentsInGraph(g, steps, m)
    ensures InGraph(g, steps, rooms, Chosen(rooms, picks))
  {
    RoomsDisjoint(m, rooms, picks);
    var active := Chosen(rooms, picks);
    forall a | a in active ensures Node(steps, a) in g.nodes {
      var k :| 0 <= k < |active| && active[k] == a;
      assert a in rooms[k];
    }
  }

  /** The agents left by one step's interaction: the rooms and actors drawn, then the activation. */
  ghost function KinSurvivors(m: Population, g: Graph, steps: int, rooms: seq<seq<int>>, picks: seq<nat>,
                              shuffle: seq<int>, draws: seq<real>, dr: real): Population
    requires RoomDraws(m, rooms, picks) && AgentsInGraph(g, steps, m) && |draws| == |rooms|
  {
    RoomsInGraph(g, steps, m, rooms, picks);
    KinActivation(KinState(m, rooms), shuffle, Chosen(rooms, picks), g, steps, draws, dr).agents
  }

  /** Rooms drawn without replacement are duplicate-free and pairwise disjoint, and so are their actors. */
  lemma RoomsDisjoint(m: Population, rooms: seq<seq<int>>, picks: seq<nat>)
    requires RoomDraws(m, rooms, picks)
    ensures forall k :: 0 <= k < |rooms| ==> Distinct(rooms[k])
    ensures forall k1, k2, x :: 0 <= k1 < k2 < |rooms| && x in rooms[k1] ==> x !in rooms[k2]
    ensures Distinct(Chosen(rooms, picks))
    ensures forall k :: 0 <= k < |rooms| ==> Chosen(rooms, picks)[k] in rooms[k]
  {
    var active := Chosen(rooms, picks);
    forall k1, k2, x | 0 <= k1 < k2 < |rooms| && x in rooms[k1] ensures x !in rooms[k2] {
      var i :| 0 <= i < |rooms[k1]| && rooms[k1][i] == x;
      forall j | 0 <= j < |rooms[k2]| ensures rooms[k2][j] != x {
      }
    }
    forall k | 0 <= k < |rooms| ensures active[k] in rooms[k] {
      assert active[k] == rooms[k][picks[k]];
    }
  }

  // ---------------------------------------------------------------------------
  // Reproduction

  /** An entry of `newgen`: genotype, family and the two parents' ids. */
  datatype Newborn = Newborn(genotype: int, family: int, parents: seq<int>)

  /** The child a pair has with the parent choice `pick` (true: the first) and the mutation draw. */
  function KinChild(m: Population, p: (int, int), pick: bool, draw: real, mr: real): Newborn
    requires p.0 in m && p.1 in m
  {
    var parent := if pick then m[p.0] else m[p.1];
    Newborn(Mutate(parent.genotype.allele, draw, mr), p.0, [p.0, p.1])
  }

  /** The number of children per pair in kinship/ibd_model.py. */
  const Brood := 20

  /** `newgen`: twenty children per mating pair of the sample, in pair order. */
  function KinGeneration(m: Population, sample: seq<int>, picks: seq<bool>, draws: seq<real>, mr: real): (kids: seq<Newborn>)
    requires forall x :: x in sample ==> x in m
    requires |picks| == Brood * (|sample| / 2) && |draws| == Brood * (|sample| / 2)
    ensures |kids| == Brood * (|sample| / 2)
  {
    var ps := MatingPairs(sample);
    MatingPairsIn(m, sample);
    seq(Brood * |ps|, j requires 0 <= j < Brood * |ps| => KinChild(m, ps[j / Brood], picks[j], draws[j], mr))
  }

  /** The agents of the new generation: `IBDFamilyAgent(i, self, genotype, family)`. */
  function KinAgents(kids: seq<Newborn>): (xs: seq<FamilyAgent>)
    ensures |xs| == |kids|
    ensures forall i :: 0 <= i < |kids| ==> xs[i] == FamilyAgent(Allele(kids[i].genotype), kids[i].family)
  {
    seq(|kids|, i requires 0 <= i < |kids| => FamilyAgent(Allele(kids[i].genotype), kids[i].family))
  }

  /** The DAG after `add_child(newgen[i], i)` for i = 0 .. n-1. */
  function AddChildren(g: Graph, kids: seq<Newborn>, steps: int, n: nat): Graph
    requires n <= |kids|
  {
    if n == 0 then g
    else AddEdges(AddChildren(g, kids, steps, n - 1), ChildEdges(kids[n - 1].parents, n - 1, steps))
  }

  /** The DAG `reproduce` leaves at step `steps`: generation steps - 3 pruned, then the children added. */
  function NextDag(g: Graph, kids: seq<Newborn>, steps: int): Graph
  {
    AddChildren(RemoveGeneration(g, steps - 3), kids, steps, |kids|)
  }

  lemma NextDagPruned(g0: Graph, g1: Graph, kids: seq<Newborn>, steps: int)
    requires g1 == RemoveGeneration(g0, steps - 3)
    ensures NextDag(g0, kids, steps) == AddChildren(g1, kids, steps, |kids|)
  {
  }

  /** Every edge of a recorded child joins consecutive generations, so the DAG stays well formed. */
  lemma {:induction false} AddChildrenWellFormed(g: Graph, kids: seq<Newborn>, steps: int, n: nat)
    requires n <= |kids| && WellFormed(g)
    ensures WellFormed(AddChildren(g, kids, steps, n))
  {
    if n > 0 {
      AddChildrenWellFormed(g, kids, steps, n - 1);
      AddChildWellFormed(AddChildren(g, kids, steps, n - 1), kids[n - 1].parents, n - 1, steps);
    }
  }

  /** Recording the first n children keeps the DAG within the window that ends at the current step. */
  lemma {:induction false} AddChildrenWindow(g: Graph, kids: seq<Newborn>, steps: int, n: nat, lo: int)
    requires n <= |kids| && WithinWindow(g, lo, steps) && lo <= steps - 1
    ensures WithinWindow(AddChildren(g, kids, steps, n), lo, steps)
  {
    if n > 0 {
      AddChildrenWindow(g, kids, steps, n - 1, lo);
      AddChildWindow(AddChildren(g, kids, steps, n - 1), kids[n - 1].parents, n - 1, steps, lo);
    }
  }

  /** Recording the first n children gives each child with a parent its node. */
  lemma {:induction false} AddChildrenNodes(g: Graph, kids: seq<Newborn>, steps: int, n: nat)
    requires n <= |kids|
    ensures forall i :: 0 <= i < n && |kids[i].parents| > 0 ==> Node(steps, i) in AddChildren(g, kids, steps, n).nodes
  {
    if n > 0 {
      AddChildrenNodes(g, kids, steps, n - 1);
      NextChildNodes(AddChildren(g, kids, steps, n - 1), kids, steps, n);
    }
  }

  /** The step of `AddChildrenNodes`: recording child n - 1 after the first n - 1. */
  lemma NextChildNodes(prev: Graph, kids: seq<Newborn>, steps: int, n: nat)
    requires 0 < n <= |kids|
    requires forall i :: 0 <= i < n - 1 && |kids[i].parents| > 0 ==> Node(steps, i) in prev.nodes
    ensures forall i :: 0 <= i < n && |kids[i].parents| > 0 ==>
      Node(steps, i) in AddEdges(prev, ChildEdges(kids[n - 1].parents, n - 1, steps)).nodes
  {
    AddChildNode(prev, kids[n - 1].parents, n - 1, steps);
  }

  /** The edges from each of the first n children's parents, one generation up, to the child. */
  ghost function KidEdges(kids: seq<Newborn>, steps: int, n: nat): set<Edge>
    requires n <= |kids|
  {
    set i, p | 0 <= i < n && p in kids[i].parents :: (Node(steps - 1, p), Node(steps, i))
  }

  /** Recording the first n children adds exactly the edges from each child's parents one generation up. */
  lemma {:induction false} AddChildrenEdges(g: Graph, kids: seq<Newborn>, steps: int, n: nat)
    requires n <= |kids|
    ensures AddChildren(g, kids, steps, n).edges == g.edges + KidEdges(kids, steps, n)
  {
    if n == 0 {
      assert KidEdges(kids, steps, 0) == {};
    } else {
      var prev := AddChildren(g, kids, steps, n - 1);
      AddChildrenEdges(g, kids, steps, n - 1);
      NextChildEdges(g, prev, kids, steps, n);
      assert AddChildren(g, kids, steps, n) == AddEdges(prev, ChildEdges(kids[n - 1].parents, n - 1, steps));
    }
  }

  /** The step of `AddChildrenEdges`: recording child n - 1 after the first n - 1. */
  lemma NextChildEdges(g: Graph, prev: Graph, kids: seq<Newborn>, steps: int, n: nat)
    requires 0 < n <= |kids|
    requires prev.edges == g.edges + KidEdges(kids, steps, n - 1)
    ensures AddEdges(prev, ChildEdges(kids[n - 1].parents, n - 1, steps)).edges == g.edges + KidEdges(kids, steps, n)
  {
    var parents := kids[n - 1].parents;
    AddChildEdgeSet(prev, parents, n - 1, steps);
    var r := AddEdges(prev, ChildEdges(parents, n - 1, steps));
    var before, after := KidEdges(kids, steps, n - 1), KidEdges(kids, steps, n);
    forall e | e in r.edges ensures e in g.edges + after {
      if e !in prev.edges {
        var p :| p in parents && e == (Node(steps - 1, p), Node(steps, n - 1));
        assert 0 <= n - 1 < n && p in kids[n - 1].parents;
      } else if e !in g.edges {
        var i, p :| 0 <= i < n - 1 && p in kids[i].parents && e == (Node(steps - 1, p), Node(steps, i));
        assert e in after;
      }
    }
    forall e | e in g.edges + after ensures e in r.edges {
      if e !in g.edges {
        var i, p :| 0 <= i < n && p in kids[i].parents && e == (Node(steps - 1, p), Node(steps, i));
        if i < n - 1 {
          assert e in before;
        }
      }
    }
  }

  /**
   * After pruning to generations steps - 2 .. steps - 1 and recording a
   * generation whose children all have parents, the DAG ends at the
   * current step and holds every agent of the new generation.
   */
  lemma GenerationValid(g: Graph, kids: seq<Newborn>, steps: int)
    requires WellFormed(g) && WithinWindow(g, steps - 2, steps - 1)
    requires forall j :: 0 <= j < |kids| ==> |kids[j].parents| > 0
    ensures var r := AddChildren(g, kids, steps, |kids|);
      var m := Numbered(KinAgents(kids));
      && WellFormed(r) && WithinWindow(r, steps - 2, steps) && AllAllele(m)
      && forall id :: id in m ==> Node(steps, id) in r.nodes
  {
    assert WithinWindow(g, steps - 2, steps);
    AddChildrenWellFormed(g, kids, steps, |kids|);
    AddChildrenWindow(g, kids, steps, |kids|, steps - 2);
    AddChildrenNodes(g, kids, steps, |kids|);
  }

  /**
   * Child j of `KinGeneration` belongs to pair j // 20, (sample[i],
   * sample[i + N // 2]): it inherits one parent's allele, flipped iff its
   * draw is at most the mutation rate, and records the first parent as its
   * family and both as its parents.
   */
  lemma KinGenerationFacts(m: Population, sample: seq<int>, picks: seq<bool>, draws: seq<real>, mr: real, j: int)
    requires forall x :: x in sample ==> x in m
    requires |picks| == Brood * (|sample| / 2) && |draws| == Brood * (|sample| / 2)
    requires 0 <= j < Brood * (|sample| / 2)
    ensures var kid := KinGeneration(m, sample, picks, draws, mr)[j];
      var i := j / Brood;
      var parent := if picks[j] then sample[i] else sample[i + |sample| / 2];
      && 0 <= i < |sample| / 2
      && kid.parents == [sample[i], sample[i + |sample| / 2]]
      && kid.family == sample[i]
      && parent in m
      && kid.genotype == Mutate(m[parent].genotype.allele, draws[j], mr)
      && (draws[j] > mr ==> kid.genotype == m[parent].genotype.allele)
  {
    MatingPairsIn(m, sample);
    var i := j / Brood;
    var a, b := sample[i], sample[i + |sample| / 2];
    assert a in sample && b in sample;
  }

  /** Every child of the generation records its two parents. */
  lemma KinGenerationParents(m: Population, sample: seq<int>, picks: seq<bool>, draws: seq<real>, mr: real)
    requires forall x :: x in sample ==> x in m
    requires |picks| == Brood * (|sample| / 2) && |draws| == Brood * (|sample| / 2)
    ensures var kids := KinGeneration(m, sample, picks, draws, mr);
      forall j :: 0 <= j < |kids| ==> |kids[j].parents| == 2
  {
    var kids := KinGeneration(m, sample, picks, draws, mr);
    forall j | 0 <= j < |kids| ensures |kids[j].parents| == 2 {
      KinGenerationFacts(m, sample, picks, draws, mr, j);
    }
  }

  /**
   * Two children recorded with a common parent are siblings in the DAG,
   * so their relatedness coefficient is 0.5: children of one pair count
   * 0.5 each towards an actor's benefit.
   */
  lemma BroodSiblingsHalf(g: Graph, kids: seq<Newborn>, steps: int, j1: int, j2: int, p: int)
    requires WellFormed(g)
    requires 0 <= j1 < |kids| && 0 <= j2 < |kids| && p in kids[j1].parents && p in kids[j2].parents
    ensures var r := AddChildren(g, kids, steps, |kids|);
      WellFormed(r) && Node(steps, j1) in r.nodes && Node(steps, j2) in r.nodes
      && IgIbdCoeff(r, Node(steps, j1), Node(steps, j2)) == 0.5
  {
    var r := AddChildren(g, kids, steps, |kids|);
    AddChildrenWellFormed(g, kids, steps, |kids|);
    AddChildrenNodes(g, kids, steps, |kids|);
    AddChildrenEdges(g, kids, steps, |kids|);
    var u := Node(steps - 1, p);
    assert (u, Node(steps, j1)) in r.edges;
    assert (u, Node(steps, j2)) in r.edges;
    SiblingsHalf(r, Node(steps, j1), Node(steps, j2));
  }

  // ---------------------------------------------------------------------------
  // The model

  /** `IBDFamilyModel`: the schedule, the genealogy DAG, and the rooms and actors of the last step. */
  class IBDModel {
    const schedule: Scheduler<FamilyAgent>
    const tree: FamilyTree
    const N: int
    /** The death rate of a sacrificing altruist. */
    const dr: real
    /** The mutation rate. */
    const mr: real
    var rooms: seq<seq<int>>
    var active: seq<int>

    /**
     * Between steps: the igraph copy is current, the DAG holds generations
     * steps - 2 .. steps only, and every agent is the node "steps#id".
     */
    ghost predicate Valid()
      reads this, schedule, tree
    {
      && schedule.Valid() && tree.Valid() && tree.ig == tree.g
      && WithinWindow(tree.g, schedule.steps - 2, schedule.steps)
      && AllAllele(schedule.agents)
      && forall id :: id in schedule.agents ==> Node(schedule.steps, id) in tree.g.nodes
    }

    /**
     * `IBDFamilyModel(N, r, dr, mr)`: the empty DAG, then the family model's
     * initialisation with this variant's `add_agents` and `reproduce`.
     */
    constructor (N: nat, r: real, dr: real, mr: real, sample: seq<int>, picks: seq<bool>, draws: seq<real>)
      requires 0.0 <= r <= 1.0
      requires IsSample(sample, IdsBelow(N), N) && |picks| == Brood * (N / 2) && |draws| == Brood * (N / 2)
      ensures Valid() && fresh(schedule) && fresh(tree)
      ensures this.N == N && this.dr == dr && this.mr == mr
      ensures schedule.order == Range(0, Brood * (N / 2)) && schedule.steps == 0
      ensures schedule.agents ==
        Numbered(KinAgents(KinGeneration(Numbered(InitialPopulation(N, Numerals.Trunc(N as real * r))), sample, picks, draws, mr)))
    {
      this.N := N;
      this.dr := dr;
      this.mr := mr;
      tree := new FamilyTree();
      schedule := new Scheduler();
      rooms := [];
      active := [];
      new;
      var k := AddInitial(schedule, N, r);
      var raised := Reproduce(sample, picks, draws);
    }

    /**
     * `reproduce`: N agents are sampled (ValueError when fewer are alive),
     * paired (i, i + N // 2), each pair has twenty children; generation
     * steps - 3 leaves the DAG, the old agents leave the schedule, and child
     * i joins both as id i and node "steps#i" below its parents.
     */
    method Reproduce(sample: seq<int>, picks: seq<bool>, draws: seq<real>) returns (raised: bool)
      requires schedule.Valid() && tree.Valid() && AllAllele(schedule.agents)
      requires WithinWindow(tree.g, schedule.steps - 3, schedule.steps - 1)
      requires !SampleRaises(N, |schedule.agents.Keys|) ==> ReproductionDraws(schedule.agents, N, sample, picks, draws, Brood)
      modifies schedule, tree
      ensures schedule.steps == old(schedule.steps) && schedule.time == old(schedule.time)
      ensures raised <==> SampleRaises(N, |old(schedule.agents).Keys|)
      ensures raised ==> (schedule.agents == old(schedule.agents) && schedule.order == old(schedule.order)
        && tree.g == old(tree.g) && tree.ig == old(tree.ig))
      ensures !raised ==> Valid()
      ensures !raised ==>
        var kids := KinGeneration(old(schedule.agents), sample, picks, draws, mr);
        && schedule.agents == Numbered(KinAgents(kids))
        && schedule.order == Range(0, Brood * (N / 2))
        && tree.g == NextDag(old(tree.g), kids, schedule.steps)
    {
      if SampleRaises(N, schedule.Count()) {
        return true;
      }
      var kids := KinGeneration(schedule.agents, sample, picks, draws, mr);
      assert forall j :: 0 <= j < |kids| ==> |kids[j].parents| > 0 by {
        KinGenerationParents(schedule.agents, sample, picks, draws, mr);
      }
      Renew(kids);
      raised := false;
    }

    /**
     * The part of `reproduce` after the sample: generation steps - 3
     * leaves the DAG, the old agents leave the schedule, and each child
     * joins both.
     */
    method Renew(kids: seq<Newborn>)
      requires schedule.Valid() && tree.Valid()
      requires WithinWindow(tree.g, schedule.steps - 3, schedule.steps - 1)
      requires forall j :: 0 <= j < |kids| ==> |kids[j].parents| > 0
      modifies schedule, tree
      ensures schedule.steps == old(schedule.steps) && schedule.time == old(schedule.time)
      ensures Valid()
      ensures schedule.agents == Numbered(KinAgents(kids)) && schedule.order == Range(0, |kids|)
      ensures tree.g == NextDag(old(tree.g), kids, schedule.steps)
    {
      var steps := schedule.steps;
      ghost var g0 := tree.g;
      tree.RemoveGen(steps - 3);
      ghost var g1 := tree.g;
      assert WithinWindow(g1, steps - 2, steps - 1) by { RemoveOldest(g0, steps - 3, steps - 1); }
      Replace(kids);
      assert tree.g == NextDag(g0, kids, steps) by { NextDagPruned(g0, g1, kids, steps); }
    }

    /** The schedule and DAG part of `reproduce` once the DAG is pruned. */
    method Replace(kids: seq<Newborn>)
      requires schedule.Valid() && tree.Valid()
      requires WithinWindow(tree.g, schedule.steps - 2, schedule.steps - 1)
      requires forall j :: 0 <= j < |kids| ==> |kids[j].parents| > 0
      modifies schedule, tree
      ensures schedule.steps == old(schedule.steps) && schedule.time == old(schedule.time)
      ensures Valid()
      ensures schedule.agents == Numbered(KinAgents(kids)) && schedule.order == Range(0, |kids|)
      ensures tree.g == AddChildren(old(tree.g), kids, schedule.steps, |kids|)
    {
      var steps := schedule.steps;
      ghost var g1 := tree.g;
      schedule.RemoveAll();
      AddGeneration(kids, steps);
      tree.UpdateIg();
      GenerationValid(g1, kids, steps);
    }

    /** The loop of `reproduce`: child i is added to the schedule as id i and to the DAG below its parents. */
    method AddGeneration(kids: seq<Newborn>, steps: int)
      requires schedule.Valid() && schedule.order == [] && schedule.agents == map[] && tree.Valid()
      modifies schedule, tree
      ensures schedule.Valid() && tree.Valid()
      ensures schedule.agents == Numbered(KinAgents(kids)) && schedule.order == Range(0, |kids|)
      ensures tree.g == AddChildren(old(tree.g), kids, steps, |kids|) && tree.ig == old(tree.ig)
      ensures schedule.steps == old(schedule.steps) && schedule.time == old(schedule.time)
    {
      ghost var xs := KinAgents(kids);
      var i := 0;
      while i < |kids|
        invariant 0 <= i <= |kids|
        invariant schedule.Valid() && schedule.order == Range(0, i) && schedule.agents == Numbered(xs[..i])
        invariant schedule.steps == old(schedule.steps) && schedule.time == old(schedule.time)
        invariant tree.Valid() && tree.g == AddChildren(old(tree.g), kids, steps, i) && tree.ig == old(tree.ig)
      {
        schedule.AddNth(xs, i, FamilyAgent(Allele(kids[i].genotype), kids[i].family));
        tree.AddChild(kids[i].parents, i, steps);
        i := i + 1;
      }
      assert xs[..i] == xs;
    }

    /**
     * `[schedule.remove(a) for a in xs if a.unique_id != self.unique_id]`:
     * every listed agent but the actor leaves the schedule; each must be
     * present, or Mesa raises.
     */
    method RemoveMembers(xs: seq<int>, id: int)
      requires schedule.Valid() && Distinct(xs)
      requires forall x :: x in xs && x != id ==> x in schedule.agents
      modifies schedule
      ensures schedule.Valid()
      ensures schedule.agents == old(schedule.agents) - (set x | x in xs && x != id)
      ensures schedule.order == Restrict(old(schedule.order), schedule.agents.Keys)
      ensures schedule.steps == old(schedule.steps) && schedule.time == old(schedule.time)
    {
      ghost var m0, o0 := schedule.agents, schedule.order;
      ghost var removed: set<int> := {};
      RestrictAll(o0, m0.Keys);
      assert m0.Keys - removed == m0.Keys;
      var j := 0;
      while j < |xs|
        invariant 0 <= j <= |xs|
        invariant schedule.Valid()
        invariant removed == set x | x in xs[..j] && x != id
        invariant schedule.agents == m0 - removed
        invariant schedule.order == Restrict(o0, m0.Keys - removed)
        invariant schedule.steps == old(schedule.steps) && schedule.time == old(schedule.time)
      {
        var x := xs[j];
        assert xs[..j + 1] == xs[..j] + [x];
        MembersSnoc(xs[..j], x, id);
        if x != id {
          DistinctPrefix(xs, j);
          WithoutRestrict(o0, m0.Keys - removed, x);
          assert m0.Keys - removed - {x} == m0.Keys - (removed + {x});
          schedule.Remove(x);
          MapMinusMinus(m0, removed, x);
          removed := removed + {x};
        }
        j := j + 1;
      }
      assert xs[..j] == xs;
      assert schedule.agents.Keys == m0.Keys - removed;
    }

    /**
     * `IBDFamilyAgent.altruistic_action` of agent `id` with the draw `draw`.
     * The actor's room, and for the non-altruist paths every room-mate, must
     * still be present: Mesa raises on removing an absent agent.
     */
    method AltruisticAction(id: int, draw: real)
      requires schedule.Valid() && id in schedule.agents && id in active && |rooms| == |active|
      requires InGraph(tree.ig, schedule.steps, rooms, active)
      requires Distinct(rooms[IndexOf(active, id)])
      requires Altruist(schedule.agents[id].genotype) ==> id in rooms[IndexOf(active, id)]
      requires forall x :: x in rooms[IndexOf(active, id)] ==> x in schedule.agents
      modifies this, schedule
      ensures active == old(active)
      ensures schedule.steps == old(schedule.steps) && schedule.time == old(schedule.time)
      ensures schedule.Valid()
      ensures KinState(schedule.agents, rooms) ==
        KinAct(KinState(old(schedule.agents), old(rooms)), id, active, tree.ig, schedule.steps, draw, dr)
      ensures schedule.order == Restrict(old(schedule.order), schedule.agents.Keys)
    {
      ghost var m0, o0 := schedule.agents, schedule.order;
      RestrictAll(o0, m0.Keys);
      var k := IndexOf(active, id);
      var room := rooms[k];
      ghost var victims := KinVictims(m0, tree.ig, schedule.steps, room, id, draw, dr);
      if Altruist(schedule.agents[id].genotype) {
        var others := Without(room, id);
        rooms := rooms[k := others];
        var b := Benefit(tree.ig, schedule.steps, id, others);
        if b > 1.0 {
          if draw > dr {
            assert schedule.agents == m0 - victims;
            return;
          } else {
            WithoutRestrict(o0, m0.Keys, id);
            schedule.Remove(id);
          }
        } else {
          WithoutDistinct(room, id);
          RemoveMembers(others, id);
        }
      } else {
        RemoveMembers(room, id);
      }
    }

    /**
     * One visit of the activation loop: `id`, the head of the ids still to
     * visit, acts if it is present and listed.
     */
    method ActOne(id: int, ghost rest: seq<int>, draws: seq<real>, ghost rooms0: seq<seq<int>>)
      requires schedule.Valid() && |rooms| == |active| && |draws| == |active| && |rooms0| == |active|
      requires InGraph(tree.ig, schedule.steps, rooms, active)
      requires |rest| > 0 && rest[0] == id && Distinct(rest)
      requires forall k :: 0 <= k < |rooms0| ==> Distinct(rooms0[k]) && active[k] in rooms0[k]
      requires forall k1, k2, x :: 0 <= k1 < k2 < |rooms0| && x in rooms0[k1] ==> x !in rooms0[k2]
      requires Untouched(schedule.agents, rooms, rooms0, active, rest)
      modifies this, schedule
      ensures active == old(active) && |rooms| == |active|
      ensures schedule.steps == old(schedule.steps) && schedule.time == old(schedule.time)
      ensures schedule.Valid() && InGraph(tree.ig, schedule.steps, rooms, active)
      ensures KinActivation(KinState(old(schedule.agents), old(rooms)), rest, active, tree.ig, schedule.steps, draws, dr)
        == KinActivation(KinState(schedule.agents, rooms), rest[1..], active, tree.ig, schedule.steps, draws, dr)
      ensures schedule.agents.Keys <= old(schedule.agents.Keys)
      ensures schedule.order == Restrict(old(schedule.order), schedule.agents.Keys)
      ensures Untouched(schedule.agents, rooms, rooms0, active, rest[1..])
    {
      KinActivationStep(KinState(schedule.agents, rooms), rest, active, tree.ig, schedule.steps, draws, dr);
      if id in schedule.agents && id in active {
        var k := IndexOf(active, id);
        assert active[k] in rest;
        ghost var st := KinState(schedule.agents, rooms);
        AltruisticAction(id, DrawOf(active, draws, id));
        KinActUntouched(st, id, active, tree.ig, schedule.steps, DrawOf(active, draws, id), dr, rooms0, rest);
      } else {
        RestrictAll(schedule.order, schedule.agents.Keys);
        UntouchedTail(schedule.agents, rooms, rooms0, active, rest);
      }
    }

    /**
     * `SocialActivation.step(active)`: a shuffled snapshot of the ids is
     * walked and every present actor acts; then `steps` and `time` rise by
     * one. Rooms are disjoint and each room is touched only by its own
     * actor, so every removal finds its agent present.
     */
    method Activate(shuffle: seq<int>, draws: seq<real>)
      requires schedule.Valid() && IsShuffle(shuffle, schedule.order)
      requires |rooms| == |active| && |draws| == |active|
      requires InGraph(tree.ig, schedule.steps, rooms, active)
      requires forall k :: 0 <= k < |rooms| ==> Distinct(rooms[k]) && active[k] in rooms[k]
      requires forall k1, k2, x :: 0 <= k1 < k2 < |rooms| && x in rooms[k1] ==> x !in rooms[k2]
      requires forall k, x :: 0 <= k < |rooms| && x in rooms[k] ==> x in schedule.agents
      modifies this, schedule
      ensures active == old(active)
      ensures schedule.steps == old(schedule.steps) + 1 && schedule.time == old(schedule.time) + 1
      ensures schedule.Valid()
      ensures KinState(schedule.agents, rooms) ==
        KinActivation(KinState(old(schedule.agents), old(rooms)), shuffle, active, tree.ig, old(schedule.steps), draws, dr)
      ensures schedule.order == Restrict(old(schedule.order), schedule.agents.Keys)
    {
      ghost var m0, o0, rooms0 := schedule.agents, schedule.order, rooms;
      ghost var steps := schedule.steps;
      RestrictAll(o0, m0.Keys);
      ActorsDistinct(rooms, active);
      var i := 0;
      ghost var rest := shuffle;
      while i < |shuffle|
        invariant 0 <= i <= |shuffle| && rest == shuffle[i..] && Distinct(rest)
        invariant schedule.Valid() && schedule.steps == steps && schedule.time == old(schedule.time)
        invariant active == old(active) && |rooms| == |active|
        invariant InGraph(tree.ig, steps, rooms, active)
        invariant KinActivation(KinState(m0, rooms0), shuffle, active, tree.ig, steps, draws, dr)
          == KinActivation(KinState(schedule.agents, rooms), rest, active, tree.ig, steps, draws, dr)
        invariant schedule.agents.Keys <= m0.Keys
        invariant schedule.order == Restrict(o0, schedule.agents.Keys)
        invariant Untouched(schedule.agents, rooms, rooms0, active, rest)
      {
        rest := ActNext(shuffle, i, rest, draws, m0, o0, rooms0);
        i := i + 1;
      }
      schedule.Tick();
    }

    /** One turn of the activation loop: the i-th id of the shuffle acts, and the loop's invariant moves on by one id. */
    method ActNext(shuffle: seq<int>, i: int, ghost rest: seq<int>, draws: seq<real>,
                   ghost m0: Population, ghost o0: seq<int>, ghost rooms0: seq<seq<int>>) returns (ghost rest': seq<int>)
      requires 0 <= i < |shuffle| && rest == shuffle[i..] && Distinct(rest)
      requires schedule.Valid() && |rooms| == |active| && |draws| == |active| && |rooms0| == |active|
      requires InGraph(tree.ig, schedule.steps, rooms, active)
      requires forall k :: 0 <= k < |rooms0| ==> Distinct(rooms0[k]) && active[k] in rooms0[k]
      requires forall k1, k2, x :: 0 <= k1 < k2 < |rooms0| && x in rooms0[k1] ==> x !in rooms0[k2]
      requires schedule.agents.Keys <= m0.Keys && schedule.order == Restrict(o0, schedule.agents.Keys)
      requires Untouched(schedule.agents, rooms, rooms0, active, rest)
      modifies this, schedule
      ensures rest' == shuffle[i + 1..] && Distinct(rest')
      ensures active == old(active) && |rooms| == |active|
      ensures schedule.steps == old(schedule.steps) && schedule.time == old(schedule.time)
      ensures schedule.Valid() && InGraph(tree.ig, schedule.steps, rooms, active)
      ensures KinActivation(KinState(old(schedule.agents), old(rooms)), rest, active, tree.ig, schedule.steps, draws, dr)
        == KinActivation(KinState(schedule.agents, rooms), rest', active, tree.ig, schedule.steps, draws, dr)
      ensures schedule.agents.Keys <= m0.Keys && schedule.order == Restrict(o0, schedule.agents.Keys)
      ensures Untouched(schedule.agents, rooms, rooms0, active, rest')
    {
      ghost var keys := schedule.agents.Keys;
      assert rest[0] == shuffle[i] && rest[1..] == shuffle[i + 1..];
      ActOne(shuffle[i], rest, draws, rooms0);
      RestrictRestrict(o0, keys, schedule.agents.Keys);
      DistinctTail(rest);
      rest' := rest[1..];
    }

    /**
     * The interaction of `step`: n // 40 rooms of 30 agents and one actor
     * per room are drawn, then the listed actors are activated.
     */
    method Interact(newRooms: seq<seq<int>>, picks: seq<nat>, shuffle: seq<int>, draws: seq<real>)
      requires Valid()
      requires RoomDraws(schedule.agents, newRooms, picks) && IsShuffle(shuffle, schedule.order) && |draws| == |newRooms|
      modifies this, schedule
      ensures active == Chosen(newRooms, picks)
      ensures schedule.steps == old(schedule.steps) + 1 && schedule.time == old(schedule.time) + 1
      ensures schedule.Valid()
      ensures schedule.agents == KinSurvivors(old(schedule.agents), tree.ig, old(schedule.steps), newRooms, picks, shuffle, draws, dr)
      ensures schedule.order == Restrict(old(schedule.order), schedule.agents.Keys)
    {
      rooms := newRooms;
      active := Chosen(newRooms, picks);
      RoomsDisjoint(schedule.agents, newRooms, picks);
      RoomsInGraph(tree.ig, schedule.steps, schedule.agents, newRooms, picks);
      Activate(shuffle, draws);
    }

    /**
     * `step`: the interaction, then `reproduce`, which raises when fewer
     * than N agents survived.
     */
    method Step(newRooms: seq<seq<int>>, picks: seq<nat>, shuffle: seq<int>, draws: seq<real>,
                sample: seq<int>, childPicks: seq<bool>, childDraws: seq<real>) returns (raised: bool)
      requires Valid()
      requires RoomDraws(schedule.agents, newRooms, picks) && IsShuffle(shuffle, schedule.order) && |draws| == |newRooms|
      requires var survivors := KinSurvivors(schedule.agents, tree.ig, schedule.steps, newRooms, picks, shuffle, draws, dr);
        !SampleRaises(N, |survivors.Keys|) ==> ReproductionDraws(survivors, N, sample, childPicks, childDraws, Brood)
      modifies this, schedule, tree
      ensures schedule.steps == old(schedule.steps) + 1 && schedule.time == old(schedule.time) + 1
      ensures var survivors := KinSurvivors(old(schedule.agents), old(tree.ig), old(schedule.steps), newRooms, picks, shuffle, draws, dr);
        && (raised <==> SampleRaises(N, |survivors.Keys|))
        && (raised ==>
              && schedule.agents == survivors && schedule.order == Restrict(old(schedule.order), survivors.Keys)
              && tree.g == old(tree.g) && tree.ig == old(tree.ig))
        && (!raised ==>
              var kids := KinGeneration(survivors, sample, childPicks, childDraws, mr);
              && Valid() && schedule.agents == Numbered(KinAgents(kids))
              && schedule.order == Range(0, Brood * (N / 2))
              && tree.g == NextDag(old(tree.g), kids, old(schedule.steps) + 1))
      ensures N >= 2 && |old(schedule.agents).Keys| == Brood * (N / 2) ==> !raised
    {
      if N >= 2 && |schedule.agents.Keys| == Brood * (N / 2) {
        KinSurvivorsAtLeastN(schedule.agents, tree.ig, schedule.steps, newRooms, picks, shuffle, draws, dr, N);
      }
      Interact(newRooms, picks, shuffle, draws);
      raised := Reproduce(sample, childPicks, childDraws);
    }
  }

  /** The listed ids other than `id`, one position further. */
  lemma MembersSnoc(pre: seq<int>, x: int, id: int)
    ensures (set y | y in pre + [x] && y != id) == (set y | y in pre && y != id) + (if x != id then {x} else {})
  {
  }

  /**
   * Every room whose actor is still to come in `rest` is as drawn, and all
   * its members are present.
   */
  ghost predicate Untouched(m: Population, rooms: seq<seq<int>>, rooms0: seq<seq<int>>, active: seq<int>, rest: seq<int>)
    requires |rooms| == |active| && |rooms0| == |active|
  {
    forall k :: 0 <= k < |active| && active[k] in rest ==>
      rooms[k] == rooms0[k] && forall x :: x in rooms0[k] ==> x in m
  }

  /** Rooms untouched before an id that does not act stay untouched after it. */
  lemma UntouchedTail(m: Population, rooms: seq<seq<int>>, rooms0: seq<seq<int>>, active: seq<int>, rest: seq<int>)
    requires |rooms| == |active| && |rooms0| == |active| && |rest| > 0
    requires Untouched(m, rooms, rooms0, active, rest)
    ensures Untouched(m, rooms, rooms0, active, rest[1..])
  {
    forall k | 0 <= k < |active| && active[k] in rest[1..] ensures active[k] in rest {
    }
  }

  /**
   * An action by the head of `rest` leaves every room of a later actor as
   * it was: the rooms are disjoint, and an actor removes only itself and
   * members of its own room.
   */
  lemma KinActUntouched(st: KinState, id: int, active: seq<int>, g: Graph, steps: int, draw: real, dr: real,
                        rooms0: seq<seq<int>>, rest: seq<int>)
    requires id in st.agents && id in active && |st.rooms| == |active| && |rooms0| == |active|
    requires InGraph(g, steps, st.rooms, active)
    requires |rest| > 0 && rest[0] == id && Distinct(rest)
    requires forall k :: 0 <= k < |rooms0| ==> active[k] in rooms0[k]
    requires forall k1, k2, x :: 0 <= k1 < k2 < |rooms0| && x in rooms0[k1] ==> x !in rooms0[k2]
    requires Untouched(st.agents, st.rooms, rooms0, active, rest)
    ensures var r := KinAct(st, id, active, g, steps, draw, dr);
      |r.rooms| == |active| && Untouched(r.agents, r.rooms, rooms0, active, rest[1..])
  {
    var r := KinAct(st, id, active, g, steps, draw, dr);
    var k := IndexOf(active, id);
    DistinctTail(rest);
    assert active[k] in rest;
    forall k2 | 0 <= k2 < |active| && active[k2] in rest[1..]
      ensures r.rooms[k2] == rooms0[k2] && forall x :: x in rooms0[k2] ==> x in r.agents
    {
      assert active[k2] in rest;
      assert k2 != k;
      forall x | x in rooms0[k2] ensures x in r.agents {
        assert id in rooms0[k];
        if k < k2 {
          assert x !in rooms0[k];
        } else {
          assert x !in rooms0[k];
        }
      }
    }
  }

  /** Actors chosen from disjoint rooms are distinct. */
  lemma ActorsDistinct(rooms: seq<seq<int>>, active: seq<int>)
    requires |rooms| == |active|
    requires forall k :: 0 <= k < |rooms| ==> active[k] in rooms[k]
    requires forall k1, k2, x :: 0 <= k1 < k2 < |rooms| && x in rooms[k1] ==> x !in rooms[k2]
    ensures Distinct(active)
  {
    forall i, j | 0 <= i < j < |active| ensures active[i] != active[j] {
      assert active[i] in rooms[i];
    }
  }
}
