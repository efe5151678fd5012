/**
 * What the two green-beard engines (green_beard_basic/model.py and
 * green_beard_advanced/model.py) share, generic in the genotype type `G`:
 * filling the danger rooms, removing one victim per room, adding a run of
 * identical agents, and the reproduction loop over adjacent pairs that
 * gives the children fresh ids from a counter and then removes both
 * parents.
 */
module GreenBeard {
  import opened Seqs
  import opened Wrappers
  import opened Mesa
  import opened Mating

  // ---------------------------------------------------------------------------
  // Danger rooms

  /** The ids of `ids` whose room draw is `k`, in the order they come. */
  function Drawn(ids: seq<int>, rands: seq<int>, k: int): (r: seq<int>)
    requires |rands| == |ids|
    ensures |r| <= |ids|
    ensures forall x :: x in r ==> x in ids
  {
    if ids == [] then []
    else
      var n := |ids| - 1;
      Drawn(ids[..n], rands[..n], k) + (if rands[n] == k then [ids[n]] else [])
  }

  /** A room admits its first two entrants and turns away the rest. */
  function FirstTwo(s: seq<int>): (r: seq<int>)
    ensures |r| <= 2 && forall x :: x in r ==> x in s
  {
    if |s| <= 2 then s else s[..2]
  }

  /**
   * `danger_dict` after the assignment loop, as a sequence over the keys
   * 0 .. D-1: room k holds the first two agents whose draw was k.
   */
  function DangerRooms(ids: seq<int>, rands: seq<int>, D: nat): (rooms: seq<seq<int>>)
    requires |rands| == |ids|
    ensures |rooms| == D
  {
    seq(D, k requires 0 <= k < D => FirstTwo(Drawn(ids, rands, k)))
  }

  /** `random.randint(1, rooms_number)` for every agent, with as many rooms as agents. */
  predicate RoomDraws(ids: seq<int>, rands: seq<int>)
  {
    |rands| == |ids| && forall i :: 0 <= i < |rands| ==> 1 <= rands[i] <= |ids|
  }

  /**
   * The assignment loop of `step`: in schedule order, each agent draws a
   * room; a draw below D enters room `rand` unless it already holds two.
   */
  method AssignRooms(ids: seq<int>, rands: seq<int>, D: nat) returns (rooms: seq<seq<int>>)
    requires RoomDraws(ids, rands)
    ensures rooms == DangerRooms(ids, rands, D)
  {
    rooms := seq(D, k => []);
    for i := 0 to |ids|
      invariant rooms == DangerRooms(ids[..i], rands[..i], D)
    {
      AssignStep(ids, rands, D, i);
      var r := rands[i];
      if r < D {
        if |rooms[r]| < 2 {
          rooms := rooms[r := rooms[r] + [ids[i]]];
        }
      }
    }
    assert ids[..|ids|] == ids && rands[..|rands|] == rands;
  }

  /** One turn of the assignment loop, on the rooms it has built so far. */
  lemma AssignStep(ids: seq<int>, rands: seq<int>, D: nat, i: int)
    requires |rands| == |ids| && 0 <= i < |ids|
    ensures var before, after := DangerRooms(ids[..i], rands[..i], D), DangerRooms(ids[..i + 1], rands[..i + 1], D);
      forall k :: 0 <= k < D ==>
        (after[k] == if k == rands[i] && |before[k]| < 2 then before[k] + [ids[i]] else before[k])
  {
    assert ids[..i + 1][..i] == ids[..i] && rands[..i + 1][..i] == rands[..i];
    forall k | 0 <= k < D
      ensures var before := FirstTwo(Drawn(ids[..i], rands[..i], k));
        FirstTwo(Drawn(ids[..i + 1], rands[..i + 1], k)) ==
          if k == rands[i] && |before| < 2 then before + [ids[i]] else before
    {
      var s := Drawn(ids[..i], rands[..i], k);
      assert Drawn(ids[..i + 1], rands[..i + 1], k) == s + (if rands[i] == k then [ids[i]] else []);
      if rands[i] == k && |s| >= 2 {
        assert (s + [ids[i]])[..2] == s[..2];
      }
    }
  }

  /** Every agent whose draw was k comes in `Drawn(_, _, k)`. */
  lemma {:induction false} DrawnComplete(ids: seq<int>, rands: seq<int>, i: int)
    requires |rands| == |ids| && 0 <= i < |ids|
    ensures ids[i] in Drawn(ids, rands, rands[i])
  {
    var n := |ids| - 1;
    if i < n {
      DrawnComplete(ids[..n], rands[..n], i);
    }
  }

  /**
   * Of distinct ids, `Drawn` takes each at most once and gives an id to one
   * room only: an id that came in for k drew k.
   */
  lemma {:induction false} DrawnDistinct(ids: seq<int>, rands: seq<int>, k: int, l: int)
    requires |rands| == |ids| && Distinct(ids)
    ensures Distinct(Drawn(ids, rands, k))
    ensures k != l ==> forall x :: x in Drawn(ids, rands, k) ==> x !in Drawn(ids, rands, l)
  {
    if ids != [] {
      var n := |ids| - 1;
      DrawnDistinct(ids[..n], rands[..n], k, l);
      DistinctPrefix(ids, n);
      var s := Drawn(ids[..n], rands[..n], k);
      if rands[n] == k {
        assert Distinct(s + [ids[n]]) by {
          forall a, b | 0 <= a < b < |s| + 1 ensures (s + [ids[n]])[a] != (s + [ids[n]])[b] {
            if b == |s| {
              assert s[a] in s;
            }
          }
        }
      }
    }
  }

  /**
   * The danger rooms of a shuffle-free schedule order: at most two agents
   * per room, room 0 never filled (every draw is at least 1), every member
   * a scheduled agent, no agent twice nor in two rooms, and an agent whose
   * draw named a room stays out of it only when two came before it.
   */
  lemma DangerRoomsFacts(ids: seq<int>, rands: seq<int>, D: nat)
    requires RoomDraws(ids, rands) && Distinct(ids)
    ensures var rooms := DangerRooms(ids, rands, D);
      && (forall k :: 0 <= k < D ==> |rooms[k]| <= 2 && Distinct(rooms[k]))
      && (D > 0 ==> rooms[0] == [])
      && (forall k, x :: 0 <= k < D && x in rooms[k] ==> x in ids)
      && (forall k, l, x :: 0 <= k < l < D && x in rooms[k] ==> x !in rooms[l])
      && (forall i :: 0 <= i < |ids| && rands[i] < D && ids[i] !in rooms[rands[i]] ==> |rooms[rands[i]]| == 2)
  {
    var rooms := DangerRooms(ids, rands, D);
    forall k | 0 <= k < D ensures Distinct(rooms[k]) {
      DrawnDistinct(ids, rands, k, k);
    }
    if D > 0 {
      DrawnZero(ids, rands);
    }
    forall k, l, x | 0 <= k < l < D && x in rooms[k] ensures x !in rooms[l] {
      DrawnDistinct(ids, rands, k, l);
      assert x in Drawn(ids, rands, k);
      assert x !in Drawn(ids, rands, l);
    }
    forall i | 0 <= i < |ids| && rands[i] < D && ids[i] !in rooms[rands[i]] ensures |rooms[rands[i]]| == 2 {
      DrawnComplete(ids, rands, i);
    }
  }

  /** No draw is 0, so nobody comes in for room 0. */
  lemma {:induction false} DrawnZero(ids: seq<int>, rands: seq<int>)
    requires |rands| == |ids| && forall i :: 0 <= i < |rands| ==> 1 <= rands[i]
    ensures Drawn(ids, rands, 0) == []
  {
    if ids != [] {
      DrawnZero(ids[..|ids| - 1], rands[..|rands| - 1]);
    }
  }

  // ---------------------------------------------------------------------------
  // The victims of the danger rooms

  /** The ids some room gives up. */
  function Culled(victims: seq<Option<int>>): (v: set<int>)
    ensures forall k :: 0 <= k < |victims| && victims[k].Some? ==> victims[k].value in v
    ensures forall x :: x in v ==> exists k :: 0 <= k < |victims| && victims[k] == Some(x)
  {
    set k | 0 <= k < |victims| && victims[k].Some? :: victims[k].value
  }

  /** No id is the victim of two rooms. */
  ghost predicate OneRoomEach(victims: seq<Option<int>>)
  {
    forall k, l :: 0 <= k < l < |victims| && victims[k].Some? && victims[l].Some? ==> victims[k].value != victims[l].value
  }

  /**
   * The room loop of `step`: room by room, the victim the room's rule
   * names (if any) leaves the schedule.
   */
  method Cull<G>(s: Scheduler<G>, victims: seq<Option<int>>)
    requires s.Valid() && OneRoomEach(victims)
    requires forall k :: 0 <= k < |victims| && victims[k].Some? ==> victims[k].value in s.agents
    modifies s
    ensures s.Valid()
    ensures s.agents == old(s.agents) - Culled(victims)
    ensures s.order == Restrict(old(s.order), old(s.agents).Keys - Culled(victims))
    ensures s.steps == old(s.steps) && s.time == old(s.time)
  {
    ghost var m0, o0 := s.agents, s.order;
    RestrictAll(o0, m0.Keys);
    for i := 0 to |victims|
      invariant s.Valid() && s.steps == old(s.steps) && s.time == old(s.time)
      invariant s.agents == m0 - Culled(victims[..i])
      invariant s.order == Restrict(o0, m0.Keys - Culled(victims[..i]))
    {
      CulledSnoc(victims, i);
      if victims[i].Some? {
        var x := victims[i].value;
        assert x !in Culled(victims[..i]) by {
          forall k | 0 <= k < i ensures victims[..i][k] != Some(x) {
            assert victims[..i][k] == victims[k];
          }
        }
        WithoutRestrict(o0, m0.Keys - Culled(victims[..i]), x);
        MapMinusMinus(m0, Culled(victims[..i]), x);
        assert m0.Keys - Culled(victims[..i]) - {x} == m0.Keys - Culled(victims[..i + 1]);
        s.Remove(x);
      }
    }
    assert victims[..|victims|] == victims;
  }

  lemma CulledSnoc(victims: seq<Option<int>>, i: int)
    requires 0 <= i < |victims|
    ensures Culled(victims[..i + 1]) == Culled(victims[..i]) + (if victims[i].Some? then {victims[i].value} else {})
  {
    var a, b := victims[..i + 1], victims[..i];
    forall x | x in Culled(a) ensures x in Culled(b) || victims[i] == Some(x) {
      var k :| 0 <= k < |a| && a[k] == Some(x);
      if k < i {
        assert b[k] == Some(x);
      }
    }
    forall x | x in Culled(b) ensures x in Culled(a) {
      var k :| 0 <= k < |b| && b[k] == Some(x);
      assert a[k] == Some(x);
    }
    if victims[i].Some? {
      assert a[i] == victims[i];
    }
  }

  /** Each room's victim is one of its own members. */
  ghost predicate OwnVictims(rooms: seq<seq<int>>, victims: seq<Option<int>>)
  {
    |victims| == |rooms| && forall k :: 0 <= k < |rooms| && victims[k].Some? ==> victims[k].value in rooms[k]
  }

  /** No agent is in two rooms. */
  ghost predicate RoomsDisjoint(rooms: seq<seq<int>>)
  {
    forall k, l, x :: 0 <= k < l < |rooms| && x in rooms[k] ==> x !in rooms[l]
  }

  /** Victims drawn from their own rooms, of rooms no agent shares, are never named twice. */
  lemma OwnVictimsOneEach(rooms: seq<seq<int>>, victims: seq<Option<int>>)
    requires OwnVictims(rooms, victims) && RoomsDisjoint(rooms)
    ensures OneRoomEach(victims)
  {
    forall k, l | 0 <= k < l < |victims| && victims[k].Some? && victims[l].Some?
      ensures victims[k].value != victims[l].value
    {
      assert victims[k].value in rooms[k];
    }
  }

  /** A member of room k leaves exactly when it is room k's own victim. */
  lemma CulledInRoom(rooms: seq<seq<int>>, victims: seq<Option<int>>, k: int, x: int)
    requires OwnVictims(rooms, victims) && RoomsDisjoint(rooms)
    requires 0 <= k < |rooms| && x in rooms[k]
    ensures x in Culled(victims) <==> victims[k] == Some(x)
  {
    if x in Culled(victims) {
      var l :| 0 <= l < |victims| && victims[l] == Some(x);
      assert x in rooms[l];
      assert l == k;
    }
  }

  // ---------------------------------------------------------------------------
  // Adding agents

  /** Agents numbered from a counter c: the j-th gets id c + 1 + j. */
  function Born<G>(c: int, xs: seq<G>): map<int, G>
  {
    if xs == [] then map[]
    else
      var n := |xs| - 1;
      Born(c, xs[..n])[c + |xs| := xs[n]]
  }

  /** The ids of agents numbered from c are c + 1 .. c + |xs|. */
  lemma {:induction false} BornKeys<G>(c: int, xs: seq<G>)
    ensures forall id :: id in Born(c, xs) <==> c < id <= c + |xs|
  {
    if xs != [] {
      BornKeys(c, xs[..|xs| - 1]);
    }
  }

  /** The agent under id c + 1 + j is the j-th. */
  lemma {:induction false} BornAt<G>(c: int, xs: seq<G>, j: int)
    requires 0 <= j < |xs|
    ensures c + 1 + j in Born(c, xs) && Born(c, xs)[c + 1 + j] == xs[j]
  {
    BornKeys(c, xs);
    var n := |xs| - 1;
    if j < n {
      BornAt(c, xs[..n], j);
    }
  }

  /** n agents with the same genotype. */
  function Copies<G>(n: nat, g: G): (xs: seq<G>)
    ensures |xs| == n && forall j :: 0 <= j < n ==> xs[j] == g
  {
    seq(n, _ => g)
  }

  lemma BornSnoc<G>(m0: map<int, G>, c: int, xs: seq<G>, j: int)
    requires 0 <= j < |xs|
    ensures m0 + Born(c, xs[..j + 1]) == (m0 + Born(c, xs[..j]))[c + 1 + j := xs[j]]
  {
    assert xs[..j + 1][..j] == xs[..j];
    var l, r := m0 + Born(c, xs[..j + 1]), (m0 + Born(c, xs[..j]))[c + 1 + j := xs[j]];
    assert l.Keys == r.Keys;
  }

  /**
   * Agents join one by one, each under the next value of a counter that
   * starts at c: the loops of `add_agents` and `__init__`, and the inner
   * loop of `reproduce`.
   */
  method AddFrom<G>(s: Scheduler<G>, c: int, xs: seq<G>) returns (next: int)
    requires s.Valid() && forall id :: id in s.agents ==> id <= c
    modifies s
    ensures next == c + |xs|
    ensures s.Valid()
    ensures s.order == old(s.order) + Range(c + 1, next + 1)
    ensures s.agents == old(s.agents) + Born(c, xs)
    ensures s.steps == old(s.steps) && s.time == old(s.time)
  {
    ghost var m0, o0 := s.agents, s.order;
    assert Born(c, xs[..0]) == map[] && m0 + map[] == m0;
    next := c;
    for j := 0 to |xs|
      invariant next == c + j
      invariant s.Valid() && s.order == o0 + Range(c + 1, next + 1)
      invariant s.agents == m0 + Born(c, xs[..j])
      invariant s.steps == old(s.steps) && s.time == old(s.time)
    {
      AddNext(s, m0, o0, c, xs, j);
      next := next + 1;
    }
    assert xs[..|xs|] == xs;
  }

  /** One turn of `AddFrom`: the j-th agent gets id c + 1 + j and goes last in the order. */
  method AddNext<G>(s: Scheduler<G>, ghost m0: map<int, G>, ghost o0: seq<int>, c: int, xs: seq<G>, j: int)
    requires 0 <= j < |xs| && forall id :: id in m0 ==> id <= c
    requires s.Valid() && s.agents == m0 + Born(c, xs[..j]) && s.order == o0 + Range(c + 1, c + j + 1)
    modifies s
    ensures s.Valid() && s.agents == m0 + Born(c, xs[..j + 1]) && s.order == o0 + Range(c + 1, c + j + 2)
    ensures s.steps == old(s.steps) && s.time == old(s.time)
  {
    var id := c + j + 1;
    assert id !in s.agents by {
      BornKeys(c, xs[..j]);
    }
    ghost var a1, o1 := s.agents, s.order;
    s.Add(id, xs[j]);
    assert s.agents == a1[id := xs[j]] == m0 + Born(c, xs[..j + 1]) by {
      BornSnoc(m0, c, xs, j);
    }
    assert s.order == o1 + [id] == o0 + Range(c + 1, c + j + 2) by {
      RangeSnoc(c + 1, id);
      AppendAssoc(o0, Range(c + 1, id), [id]);
    }
  }

  // ---------------------------------------------------------------------------
  // Reproduction over adjacent pairs

  /** The broods laid end to end, in pair order. */
  function Flatten<G>(broods: seq<seq<G>>): (xs: seq<G>)
  {
    if broods == [] then [] else Flatten(broods[..|broods| - 1]) + broods[|broods| - 1]
  }

  /**
   * One pair of the reproduction loop: each child takes the next counter
   * value as its id and joins the schedule, then both parents leave it.
   */
  method BreedPair<G>(s: Scheduler<G>, p: (int, int), brood: seq<G>, c: int) returns (next: int)
    requires s.Valid() && p.0 in s.agents && p.1 in s.agents && p.0 != p.1
    requires forall id :: id in s.agents ==> id <= c
    modifies s
    ensures next == c + |brood|
    ensures s.Valid()
    ensures s.agents == (old(s.agents) + Born(c, brood)) - {p.0, p.1}
    ensures s.order == Without(Without(old(s.order) + Range(c + 1, next + 1), p.0), p.1)
    ensures s.steps == old(s.steps) && s.time == old(s.time)
  {
    next := AddFrom(s, c, brood);
    ghost var all := s.agents;
    assert p.0 in all && p.1 in all - {p.0};
    s.Remove(p.0);
    s.Remove(p.1);
    MapMinusMinus(all, {p.0}, p.1);
    assert {p.0} + {p.1} == {p.0, p.1};
  }

  /** What `reproduce` asks of a pair-by-pair brood plan for the population `m`. */
  ghost predicate BreedPlan<G>(m: map<int, G>, ps: seq<(int, int)>, broods: seq<seq<G>>)
  {
    |broods| == |ps| && PairsDisjoint(ps) && forall i :: 0 <= i < |ps| ==> ps[i].0 in m && ps[i].1 in m
  }

  /** The schedule after the first i pairs of the reproduction loop. */
  ghost predicate BredSoFar<G>(agents: map<int, G>, order: seq<int>, m0: map<int, G>, o0: seq<int>,
                               ps: seq<(int, int)>, broods: seq<seq<G>>, c: int, next: int, i: int)
    requires 0 <= i <= |ps| && |broods| == |ps|
  {
    && next == c + |Flatten(broods[..i])|
    && agents == (m0 - Paired(ps[..i])) + Born(c, Flatten(broods[..i]))
    && order == Restrict(o0, m0.Keys - Paired(ps[..i])) + Range(c + 1, next + 1)
  }

  /** Before the first pair nothing has changed. */
  lemma BredStart<G>(m0: map<int, G>, o0: seq<int>, ps: seq<(int, int)>, broods: seq<seq<G>>, c: int)
    requires |broods| == |ps| && forall id :: id in o0 ==> id in m0
    ensures BredSoFar(m0, o0, m0, o0, ps, broods, c, c, 0)
  {
    RestrictAll(o0, m0.Keys);
    assert Paired(ps[..0]) == {} && m0.Keys - {} == m0.Keys;
    assert Flatten(broods[..0]) == [];
    assert (m0 - {}) + Born(c, []) == m0 by {
      var l := (m0 - {}) + Born(c, []);
      assert l.Keys == m0.Keys;
    }
  }

  /** After the last pair every pair has bred. */
  lemma BredEnd<G>(agents: map<int, G>, order: seq<int>, m0: map<int, G>, o0: seq<int>,
                   ps: seq<(int, int)>, broods: seq<seq<G>>, c: int, next: int)
    requires |broods| == |ps| && BredSoFar(agents, order, m0, o0, ps, broods, c, next, |ps|)
    ensures next == c + |Flatten(broods)|
    ensures agents == (m0 - Paired(ps)) + Born(c, Flatten(broods))
    ensures order == Restrict(o0, m0.Keys - Paired(ps)) + Range(c + 1, next + 1)
  {
    assert ps[..|ps|] == ps && broods[..|broods|] == broods;
  }

  /**
   * The reproduction loop: pair after pair, the brood joins with fresh ids
   * c + 1, c + 2, ... and the parents leave. The old agents that were in
   * no pair stay, in their order, before all the children.
   */
  method BreedPairs<G>(s: Scheduler<G>, ps: seq<(int, int)>, broods: seq<seq<G>>, c: int) returns (next: int)
    requires s.Valid() && BreedPlan(s.agents, ps, broods)
    requires forall id :: id in s.agents ==> id <= c
    modifies s
    ensures next == c + |Flatten(broods)|
    ensures s.Valid()
    ensures s.agents == (old(s.agents) - Paired(ps)) + Born(c, Flatten(broods))
    ensures s.order == Restrict(old(s.order), old(s.agents).Keys - Paired(ps)) + Range(c + 1, next + 1)
    ensures s.steps == old(s.steps) && s.time == old(s.time)
  {
    ghost var m0, o0 := s.agents, s.order;
    BredStart(m0, o0, ps, broods, c);
    next := BreedLoop(s, m0, o0, ps, broods, c);
    BredEnd(s.agents, s.order, m0, o0, ps, broods, c, next);
  }

  /** The loop of `reproduce` over the pairs, each turn one more pair. */
  method BreedLoop<G>(s: Scheduler<G>, ghost m0: map<int, G>, ghost o0: seq<int>, ps: seq<(int, int)>, broods: seq<seq<G>>,
                      c: int) returns (next: int)
    requires BreedPlan(m0, ps, broods) && forall id :: id in m0 ==> id <= c
    requires s.Valid() && BredSoFar(s.agents, s.order, m0, o0, ps, broods, c, c, 0)
    modifies s
    ensures s.Valid() && BredSoFar(s.agents, s.order, m0, o0, ps, broods, c, next, |ps|)
    ensures s.steps == old(s.steps) && s.time == old(s.time)
  {
    next := c;
    for i := 0 to |ps|
      invariant s.Valid() && BredSoFar(s.agents, s.order, m0, o0, ps, broods, c, next, i)
      invariant s.steps == old(s.steps) && s.time == old(s.time)
    {
      next := BreedNext(s, m0, o0, ps, broods, c, next, i);
    }
  }

  /** One turn of the reproduction loop, from the schedule after i pairs to the one after i + 1. */
  method BreedNext<G>(s: Scheduler<G>, ghost m0: map<int, G>, ghost o0: seq<int>, ps: seq<(int, int)>, broods: seq<seq<G>>,
                      c: int, next: int, i: int) returns (n: int)
    requires 0 <= i < |ps| && BreedPlan(m0, ps, broods)
    requires forall id :: id in m0 ==> id <= c
    requires s.Valid() && BredSoFar(s.agents, s.order, m0, o0, ps, broods, c, next, i)
    modifies s
    ensures s.Valid() && BredSoFar(s.agents, s.order, m0, o0, ps, broods, c, n, i + 1)
    ensures s.steps == old(s.steps) && s.time == old(s.time)
  {
    var p := ps[i];
    ghost var paired := Paired(ps[..i]);
    ghost var before := Flatten(broods[..i]);
    ghost var pre, o := s.agents, s.order;
    PairedSnoc(ps, i);
    PairedEarlier(ps, i);
    BornKeys(c, before);
    assert p.0 in m0 && p.1 in m0 && p.0 != p.1;
    assert p.0 in pre && p.1 in pre;
    assert broods[..i + 1][..i] == broods[..i];
    assert Flatten(broods[..i + 1]) == before + broods[i];
    n := BreedPair(s, p, broods[i], next);
    ghost var born := Born(c, before);
    assert pre == (m0 - paired) + born;
    assert s.agents == (((m0 - paired) + born) + Born(next, broods[i])) - {p.0, p.1};
    BornStep(m0, paired, c, before, next, broods[i], p);
    assert s.agents == (m0 - (paired + {p.0, p.1})) + Born(c, before + broods[i]);
    assert o == Restrict(o0, m0.Keys - paired) + Range(c + 1, next + 1);
    BreedOrderStep(o0, m0.Keys - paired, c, next, n, p);
    assert paired + {p.0, p.1} == Paired(ps[..i + 1]);
    assert m0.Keys - paired - {p.0} - {p.1} == m0.Keys - Paired(ps[..i + 1]);
  }

  lemma PairedSnoc(ps: seq<(int, int)>, i: int)
    requires 0 <= i < |ps|
    ensures Paired(ps[..i + 1]) == Paired(ps[..i]) + Members(ps[i])
  {
    var a, b := ps[..i + 1], ps[..i];
    forall x | x in Paired(a) ensures x in Paired(b) + Members(ps[i]) {
      var k :| 0 <= k < |a| && x in Members(a[k]);
      if k < i {
        assert x in Members(b[k]);
      }
    }
    forall x | x in Paired(b) ensures x in Paired(a) {
      var k :| 0 <= k < |b| && x in Members(b[k]);
      assert x in Members(a[k]);
    }
    forall x | x in Members(ps[i]) ensures x in Paired(a) {
      assert x in Members(a[i]);
    }
  }

  /** Of disjoint pairs, a later one has no member in an earlier one. */
  lemma PairedEarlier(ps: seq<(int, int)>, i: int)
    requires PairsDisjoint(ps) && 0 <= i < |ps|
    ensures ps[i].0 !in Paired(ps[..i]) && ps[i].1 !in Paired(ps[..i])
  {
    forall k | 0 <= k < i ensures ps[i].0 !in Members(ps[..i][k]) && ps[i].1 !in Members(ps[..i][k]) {
      assert ps[..i][k] == ps[k];
      assert Members(ps[k]) !! Members(ps[i]);
    }
  }

  /** Numbering two runs one after the other is numbering them together. */
  lemma {:induction false} BornConcat<G>(c: int, before: seq<G>, brood: seq<G>)
    ensures Born(c, before + brood) == Born(c, before) + Born(c + |before|, brood)
  {
    if brood == [] {
      assert before + brood == before;
      assert Born(c, before) + map[] == Born(c, before);
    } else {
      var n := |brood| - 1;
      BornConcat(c, before, brood[..n]);
      assert (before + brood)[..|before| + n] == before + brood[..n];
      var l, r := Born(c, before + brood), Born(c, before) + Born(c + |before|, brood);
      assert l.Keys == r.Keys;
    }
  }

  /** The population after one more pair, in terms of the plan so far. */
  lemma BornStep<G>(m0: map<int, G>, paired: set<int>, c: int, before: seq<G>, next: int, brood: seq<G>, p: (int, int))
    requires forall id :: id in m0 ==> id <= c
    requires p.0 <= c && p.1 <= c && next == c + |before|
    ensures ((m0 - paired) + Born(c, before) + Born(next, brood)) - {p.0, p.1}
      == (m0 - (paired + {p.0, p.1})) + Born(c, before + brood)
  {
    BornConcat(c, before, brood);
    var born := Born(c, before + brood);
    MapUnionAssoc(m0 - paired, Born(c, before), Born(next, brood));
    BornKeys(c, before + brood);
    MapRemoveAfter(m0, paired, born, {p.0, p.1});
  }

  lemma MapUnionAssoc<K, V>(a: map<K, V>, b: map<K, V>, d: map<K, V>)
    ensures a + b + d == a + (b + d)
  {
    var l, r := a + b + d, a + (b + d);
    assert l.Keys == r.Keys;
  }

  /** Removing ids the newcomers do not use commutes with adding them. */
  lemma MapRemoveAfter<K, V>(m: map<K, V>, paired: set<K>, born: map<K, V>, q: set<K>)
    requires forall k :: k in q ==> k !in born
    ensures ((m - paired) + born) - q == (m - (paired + q)) + born
  {
    var l, r := ((m - paired) + born) - q, (m - (paired + q)) + born;
    assert l.Keys == r.Keys;
  }

  /** The schedule order after one more pair, in terms of the plan so far. */
  lemma BreedOrderStep(o0: seq<int>, keep: set<int>, c: int, next: int, n: int, p: (int, int))
    requires c <= next <= n && p.0 <= c && p.1 <= c
    ensures Without(Without(Restrict(o0, keep) + Range(c + 1, next + 1) + Range(next + 1, n + 1), p.0), p.1)
      == Restrict(o0, keep - {p.0} - {p.1}) + Range(c + 1, n + 1)
  {
    var r, r1, tail := Restrict(o0, keep), Restrict(o0, keep - {p.0}), Range(c + 1, n + 1);
    RangeConcat(c + 1, next + 1, n + 1);
    assert r + Range(c + 1, next + 1) + Range(next + 1, n + 1) == r + tail;
    RangeDistinct(c + 1, n + 1);
    assert p.0 !in tail && p.1 !in tail;
    WithoutConcat(r, tail, p.0);
    WithoutRestrict(o0, keep, p.0);
    assert Without(r + tail, p.0) == r1 + tail;
    WithoutConcat(r1, tail, p.1);
    WithoutRestrict(o0, keep - {p.0}, p.1);
    assert Without(r1 + tail, p.1) == Restrict(o0, keep - {p.0} - {p.1}) + tail;
  }


  /** Deleting an id that is not in the tail deletes it from the head. */
  lemma {:induction false} WithoutConcat(a: seq<int>, b: seq<int>, x: int)
    requires x !in b
    ensures Without(a + b, x) == Without(a, x) + b
  {
    if a == [] {
      WithoutAbsent(b, x);
      assert a + b == b;
    } else {
      var h, t := a[0], a[1..];
      WithoutConcat(t, b, x);
      SplitHead(a, b);
      WithoutCons(h, t + b, x);
      WithoutCons(h, t, x);
      ConsConcat(h, Without(t, x), b);
    }
  }

  lemma WithoutCons(h: int, t: seq<int>, x: int)
    ensures Without([h] + t, x) == if h == x then Without(t, x) else [h] + Without(t, x)
  {
    assert ([h] + t)[0] == h && ([h] + t)[1..] == t;
  }

  /**
   * What reproduction keeps of the old generation: of a shuffle of the
   * whole population paired neighbour by neighbour, only an odd last agent
   * is in no pair.
   */
  lemma UnpairedLeftover<G>(m: map<int, G>, order: seq<int>, shuffle: seq<int>)
    requires forall id :: id in order <==> id in m
    requires IsShuffle(shuffle, order)
    ensures (m - Paired(AdjacentPairs(shuffle))).Keys ==
      if |shuffle| % 2 == 1 then {shuffle[|shuffle| - 1]} else {}
  {
    var ps := AdjacentPairs(shuffle);
    AdjacentPairsPartition(shuffle);
    var h := 2 * (|shuffle| / 2);
    forall t | 0 <= t < h ensures shuffle[t] in Paired(ps) {
      assert shuffle[..h][t] == shuffle[t];
    }
    forall x | x in m && x !in Paired(ps) ensures |shuffle| % 2 == 1 && x == shuffle[|shuffle| - 1] {
      assert x in shuffle;
      var j :| 0 <= j < |shuffle| && shuffle[j] == x;
      assert j >= h;
    }
    if |shuffle| % 2 == 1 {
      var y := shuffle[|shuffle| - 1];
      assert y in shuffle;
    }
  }

  /** The brood plan of adjacent pairs of a shuffle of the population meets `BreedPlan`. */
  lemma AdjacentPlan<G>(m: map<int, G>, order: seq<int>, shuffle: seq<int>, broods: seq<seq<G>>)
    requires forall id :: id in order <==> id in m
    requires IsShuffle(shuffle, order) && |broods| == |shuffle| / 2
    ensures BreedPlan(m, AdjacentPairs(shuffle), broods)
  {
    var ps := AdjacentPairs(shuffle);
    AdjacentPairsPartition(shuffle);
    forall i | 0 <= i < |ps| ensures ps[i].0 in m && ps[i].1 in m {
      var a, b := shuffle[2 * i], shuffle[2 * i + 1];
      assert a in shuffle && b in shuffle;
    }
  }

  /** Brood sizes drawn from 2 .. max_child give between 2 and max_child children per pair. */
  lemma {:induction false} FlattenSize<G>(broods: seq<seq<G>>, lo: nat, hi: nat)
    requires forall i :: 0 <= i < |broods| ==> lo <= |broods[i]| <= hi
    ensures lo * |broods| <= |Flatten(broods)| <= hi * |broods|
  {
    if broods != [] {
      var n := |broods| - 1;
      assert forall i :: 0 <= i < n ==> broods[..n][i] == broods[i];
      FlattenSize(broods[..n], lo, hi);
      assert |Flatten(broods)| == |Flatten(broods[..n])| + |broods[n]|;
      assert lo * |broods| == lo * n + lo && hi * |broods| == hi * n + hi;
    }
  }

  // ---------------------------------------------------------------------------
  // Shared by both green-beard models

  /** `max_child`, the most children a pair can have. */
  const MaxChild := 4

  /** `randint(2, max_child)` children per pair. */
  ghost predicate BroodSizes<T>(kids: seq<seq<T>>, pairs: int)
  {
    |kids| == pairs && forall i :: 0 <= i < |kids| ==> 2 <= |kids[i]| <= MaxChild
  }

  /** Both members of every adjacent pair of ids drawn from `m` are in `m`. */
  lemma AdjacentIn<A>(m: map<int, A>, shuffle: seq<int>)
    requires forall x :: x in shuffle ==> x in m
    ensures forall i :: 0 <= i < |shuffle| / 2 ==> AdjacentPairs(shuffle)[i].0 in m && AdjacentPairs(shuffle)[i].1 in m
  {
    forall i | 0 <= i < |shuffle| / 2
      ensures AdjacentPairs(shuffle)[i].0 in m && AdjacentPairs(shuffle)[i].1 in m
    {
      var a, b := shuffle[2 * i], shuffle[2 * i + 1];
      assert a in shuffle && b in shuffle;
    }
  }

  /** A sequence of sequences whose every element lies in S flattens to elements of S. */
  lemma {:induction false} FlattenWithin<T>(xss: seq<seq<T>>, S: set<T>)
    requires forall i, j :: 0 <= i < |xss| && 0 <= j < |xss[i]| ==> xss[i][j] in S
    ensures forall x :: x in Flatten(xss) ==> x in S
  {
    if xss != [] {
      var n := |xss| - 1;
      FlattenWithin(xss[..n], S);
      forall x | x in xss[n] ensures x in S {
        var j :| 0 <= j < |xss[n]| && xss[n][j] == x;
      }
    }
  }

  /** Agents numbered from a counter carry only the values they were given. */
  lemma BornWithin<T>(c: int, xs: seq<T>, S: set<T>)
    requires forall x :: x in xs ==> x in S
    ensures forall id :: id in Born(c, xs) ==> Born(c, xs)[id] in S
  {
    BornKeys(c, xs);
    forall id | id in Born(c, xs) ensures Born(c, xs)[id] in S {
      BornAt(c, xs, id - c - 1);
    }
  }

  /** The schedule order after `reproduce`: the unpaired agents in their old order, then the children. */
  ghost function BredOrder<G>(order: seq<int>, m: map<int, G>, shuffle: seq<int>, c: int, next: int): seq<int>
  {
    Restrict(order, m.Keys - Paired(AdjacentPairs(shuffle))) + Range(c + 1, next + 1)
  }

  /** What `step` asks of the schedule and of its room draws. */
  ghost predicate RoomsReady<G>(m: map<int, G>, order: seq<int>, D: nat, rands: seq<int>, draws: seq<real>)
  {
    Distinct(order) && (forall id :: id in order <==> id in m) && RoomDraws(order, rands) && |draws| == D
  }

  /** The danger rooms hold at most two agents each, all alive, none in two rooms. */
  lemma RoomsOfPopulation<G>(m: map<int, G>, order: seq<int>, D: nat, rands: seq<int>, draws: seq<real>)
    requires RoomsReady(m, order, D, rands, draws)
    ensures var rooms := DangerRooms(order, rands, D);
      && (forall k :: 0 <= k < |rooms| ==> |rooms[k]| <= 2 && forall i :: 0 <= i < |rooms[k]| ==> rooms[k][i] in m)
      && RoomsDisjoint(rooms)
  {
    var rooms := DangerRooms(order, rands, D);
    DangerRoomsFacts(order, rands, D);
    forall k, i | 0 <= k < |rooms| && 0 <= i < |rooms[k]| ensures rooms[k][i] in m {
      var x := rooms[k][i];
      assert x in rooms[k];
      assert k < D;
      assert x in order;
    }
  }
}
