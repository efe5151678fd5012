/**
 * The observable state of Mesa's `BaseScheduler`, which every model here
 * keeps as `self.schedule`: the agents by unique id in insertion order (a
 * Python dict), and the `steps` and `time` counters. Agents never change
 * after they are added, so they are values of the type parameter `A`.
 *
 * Mesa raises on adding an id twice and on removing an absent id; `Add` and
 * `Remove` require what Mesa would otherwise raise for, and the models prove
 * every call they make meets it.
 */
module Mesa {
  import opened Seqs

  class Scheduler<A> {
    /** The dict's keys in insertion order. */
    var order: seq<int>
    /** The dict itself. */
    var agents: map<int, A>
    var steps: int
    var time: int

    ghost predicate Valid()
      reads this
    {
      Distinct(order) && forall id :: id in order <==> id in agents
    }

    /** `BaseScheduler(model)`: no agents, both counters at zero. */
    constructor ()
      ensures Valid() && order == [] && agents == map[] && steps == 0 && time == 0
    {
      order := [];
      agents := map[];
      steps := 0;
      time := 0;
    }

    /** `get_agent_count()`. */
    function Count(): (n: nat)
      reads this
      requires Valid()
      ensures n == |agents.Keys|
    {
      CountIsKeys();
      |order|
    }

    lemma CountIsKeys()
      requires Valid()
      ensures |order| == |agents.Keys|
    {
      DistinctCard(order);
      assert forall x :: x in agents.Keys <==> x in order;
      assert (set x | x in order) == agents.Keys;
    }

    /** `add(agent)`: the new id goes last in the order. */
    method Add(id: int, a: A)
      requires Valid() && id !in agents
      modifies this
      ensures Valid()
      ensures order == old(order) + [id] && agents == old(agents)[id := a]
      ensures steps == old(steps) && time == old(time)
    {
      DistinctCons(id, []);
      assert Distinct(order + [id]) by {
        forall i, j | 0 <= i < j < |order| + 1 ensures (order + [id])[i] != (order + [id])[j] {
          if j == |order| {
            assert order[i] in order;
          }
        }
      }
      order := order + [id];
      agents := agents[id := a];
    }

    /** `remove(agent)`: the id leaves the dict; the order of the others is kept. */
    method Remove(id: int)
      requires Valid() && id in agents
      modifies this
      ensures Valid()
      ensures order == Without(old(order), id) && agents == old(agents) - {id}
      ensures steps == old(steps) && time == old(time)
    {
      WithoutDistinct(order, id);
      order := Without(order, id);
      agents := agents - {id};
    }

    /** The counter updates that end `SocialActivation.step`. */
    method Tick()
      requires Valid()
      modifies this
      ensures Valid() && order == old(order) && agents == old(agents)
      ensures steps == old(steps) + 1 && time == old(time) + 1
    {
      steps := steps + 1;
      time := time + 1;
    }

    /**
     * `[schedule.remove(a) for a in schedule.agent_buffer()]`: the buffer
     * walks a snapshot of the ids, and every id it yields is still present,
     * so no removal raises and the schedule ends empty.
     */
    method RemoveAll()
      requires Valid()
      modifies this
      ensures Valid() && order == [] && agents == map[]
      ensures steps == old(steps) && time == old(time)
    {
      var snapshot := order;
      var i := 0;
      while i < |snapshot|
        invariant 0 <= i <= |snapshot|
        invariant Valid() && order == snapshot[i..]
        invariant steps == old(steps) && time == old(time)
      {
        var id := snapshot[i];
        assert order[0] == id;
        if id in agents {
          Remove(id);
          WithoutHead(snapshot[i..]);
        }
        i := i + 1;
      }
      assert order == [];
      assert forall id :: id !in agents;
      assert agents == map[];
    }

    /**
     * The loop `for i in range(len(xs)): schedule.add(Agent(i, ..., xs[i]))`
     * that every `reproduce` ends with: agent i gets id i.
     */
    method AddNumbered(xs: seq<A>)
      requires Valid() && order == [] && agents == map[]
      modifies this
      ensures Valid() && order == Range(0, |xs|) && agents == Numbered(xs)
      ensures steps == old(steps) && time == old(time)
    {
      var i := 0;
      while i < |xs|
        invariant 0 <= i <= |xs|
        invariant Valid() && order == Range(0, i) && agents == Numbered(xs[..i])
        invariant steps == old(steps) && time == old(time)
      {
        AddNth(xs, i, xs[i]);
        i := i + 1;
      }
      assert xs[..i] == xs;
    }

    /** One turn of a numbering loop: `a`, the i-th agent of `xs`, is added under id i. */
    method AddNth(ghost xs: seq<A>, i: int, a: A)
      requires 0 <= i < |xs| && a == xs[i]
      requires Valid() && order == Range(0, i) && agents == Numbered(xs[..i])
      modifies this
      ensures Valid() && order == Range(0, i + 1) && agents == Numbered(xs[..i + 1])
      ensures steps == old(steps) && time == old(time)
    {
      ghost var a1, o1 := agents, order;
      Add(i, a);
      assert agents == a1[i := a] == Numbered(xs[..i + 1]) by { NumberedSnoc(xs, i); }
      assert order == o1 + [i] == Range(0, i + 1) by { RangeSnoc(0, i); }
    }
  }

  /** The map from position to element: agent i of a numbered generation. */
  function Numbered<A>(xs: seq<A>): (m: map<int, A>)
    ensures forall i :: i in m <==> 0 <= i < |xs|
    ensures forall i :: 0 <= i < |xs| ==> m[i] == xs[i]
  {
    map i | 0 <= i < |xs| :: xs[i]
  }

  /** A numbered generation of n agents holds n ids. */
  lemma NumberedCard<A>(xs: seq<A>)
    ensures |Numbered(xs).Keys| == |xs|
  {
    RangeDistinct(0, |xs|);
    DistinctCard(Range(0, |xs|));
    assert Numbered(xs).Keys == set x | x in Range(0, |xs|);
  }

  lemma NumberedSnoc<A>(xs: seq<A>, i: int)
    requires 0 <= i < |xs|
    ensures Numbered(xs[..i + 1]) == Numbered(xs[..i])[i := xs[i]]
  {
    var a, b := Numbered(xs[..i + 1]), Numbered(xs[..i])[i := xs[i]];
    assert forall j :: j in a <==> j in b;
    assert forall j :: j in a ==> a[j] == b[j];
  }

  /** Deleting the first id of a distinct order leaves the rest. */
  lemma WithoutHead(s: seq<int>)
    requires Distinct(s) && |s| > 0
    ensures Without(s, s[0]) == s[1..]
  {
    assert forall y :: y in s[1..] ==> y != s[0] by {
      forall j | 0 <= j < |s| - 1 ensures s[1..][j] != s[0] {
        assert s[j + 1] != s[0];
      }
    }
    WithoutAbsent(s[1..], s[0]);
  }

  lemma {:induction false} WithoutAbsent(s: seq<int>, x: int)
    requires x !in s
    ensures Without(s, x) == s
  {
    if s != [] {
      WithoutAbsent(s[1..], x);
      assert s == [s[0]] + s[1..];
    }
  }

  /** Deleting one more key after a set of keys is deleting both. */
  lemma MapMinusMinus<A>(m: map<int, A>, removed: set<int>, x: int)
    ensures (m - removed) - {x} == m - (removed + {x})
  {
    var l, r := (m - removed) - {x}, m - (removed + {x});
    assert l.Keys == r.Keys;
  }
}
