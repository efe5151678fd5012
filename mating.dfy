/**
 * The reproduction steps the experiment variants share: drawing the mating
 * individuals, pairing them, and flipping a 0/1 allele at the mutation rate.
 * Random draws are inputs: a `random.random()` is a real in [0, 1), a
 * `random.sample` or a shuffle is a sequence of distinct ids.
 */
module Mating {
  import opened Seqs

  /** `random.sample(pool, k)`: k distinct members of the pool. */
  ghost predicate IsSample(s: seq<int>, pool: set<int>, k: int)
  {
    |s| == k && Distinct(s) && forall x :: x in s ==> x in pool
  }

  /** A shuffle of a whole population: every member exactly once. */
  ghost predicate IsShuffle(s: seq<int>, pool: seq<int>)
  {
    Distinct(s) && |s| == |pool| && forall x :: x in s <==> x in pool
  }

  /** `random.sample` raises ValueError when k is negative or exceeds the population. */
  predicate SampleRaises(k: int, population: nat)
  {
    k < 0 || k > population
  }

  /** A real drawn by `random.random()`. */
  predicate IsDraw(x: real)
  {
    0.0 <= x < 1.0
  }

  /**
   * `[(m[i], m[i + len(m) // 2]) for i in range(len(m) // 2)]`: the first
   * half of the sample is paired position by position with the second half.
   */
  function MatingPairs(m: seq<int>): (ps: seq<(int, int)>)
    ensures |ps| == |m| / 2
    ensures forall i :: 0 <= i < |ps| ==> ps[i] == (m[i], m[i + |m| / 2])
  {
    seq(|m| / 2, i requires 0 <= i < |m| / 2 => (m[i], m[i + |m| / 2]))
  }

  /**
   * `for i in range(0, len(m) - 1, 2): (m[i], m[i + 1])`: neighbours are
   * paired, and an odd last individual gets no partner.
   */
  function AdjacentPairs(m: seq<int>): (ps: seq<(int, int)>)
    ensures |ps| == |m| / 2
    ensures forall i :: 0 <= i < |ps| ==> ps[i] == (m[2 * i], m[2 * i + 1])
  {
    seq(|m| / 2, i requires 0 <= i < |m| / 2 => (m[2 * i], m[2 * i + 1]))
  }

  /** Both ids of a pair. */
  function Members(p: (int, int)): set<int>
  {
    {p.0, p.1}
  }

  /** No id is in two pairs, nor twice in one. */
  ghost predicate PairsDisjoint(ps: seq<(int, int)>)
  {
    && (forall i :: 0 <= i < |ps| ==> ps[i].0 != ps[i].1)
    && (forall i, j :: 0 <= i < j < |ps| ==> Members(ps[i]) !! Members(ps[j]))
  }

  /** The ids that take part in some pair. */
  ghost function Paired(ps: seq<(int, int)>): set<int>
  {
    set i, x | 0 <= i < |ps| && x in Members(ps[i]) :: x
  }

  /**
   * Pairs (i, i + N//2) of a distinct sample are disjoint; they use every
   * sampled id except, for an odd sample, the last one.
   */
  lemma MatingPairsPartition(m: seq<int>)
    requires Distinct(m)
    ensures var ps := MatingPairs(m);
      && PairsDisjoint(ps)
      && (forall x :: x in Paired(ps) <==> x in m[..2 * (|m| / 2)])
      && (|m| % 2 == 1 ==> m[|m| - 1] !in Paired(ps))
  {
    var ps := MatingPairs(m);
    var h := |m| / 2;
    MatingPairsDisjoint(m);
    MatingPairsCover(m);
    if |m| % 2 == 1 {
      assert m[|m| - 1] !in m[..2 * h] by {
        forall j | 0 <= j < 2 * h ensures m[..2 * h][j] != m[|m| - 1] {
          assert m[j] != m[|m| - 1];
        }
      }
    }
  }

  lemma MatingPairsDisjoint(m: seq<int>)
    requires Distinct(m)
    ensures PairsDisjoint(MatingPairs(m))
  {
    var ps := MatingPairs(m);
    var h := |m| / 2;
    forall i | 0 <= i < |ps| ensures ps[i].0 != ps[i].1 {
      assert m[i] != m[i + h];
    }
    forall i, j | 0 <= i < j < |ps| ensures Members(ps[i]) !! Members(ps[j]) {
      assert m[i] != m[j] && m[i] != m[j + h] && m[j] != m[i + h] && m[i + h] != m[j + h];
    }
  }

  /** The pairs use exactly the first 2 * (N // 2) sampled ids. */
  lemma MatingPairsCover(m: seq<int>)
    ensures forall x :: x in Paired(MatingPairs(m)) <==> x in m[..2 * (|m| / 2)]
  {
    var ps := MatingPairs(m);
    var h := |m| / 2;
    forall x | x in Paired(ps) ensures x in m[..2 * h] {
      var i :| 0 <= i < |ps| && x in Members(ps[i]);
      if x == m[i] {
        assert m[..2 * h][i] == x;
      } else {
        assert m[..2 * h][i + h] == x;
      }
    }
    forall x | x in m[..2 * h] ensures x in Paired(ps) {
      var j :| 0 <= j < 2 * h && m[..2 * h][j] == x;
      if j < h {
        assert x in Members(ps[j]);
      } else {
        assert x in Members(ps[j - h]);
      }
    }
  }

  /**
   * Adjacent pairs of a shuffle are disjoint and use every id except, for
   * an odd population, the last one, which survives reproduction.
   */
  lemma AdjacentPairsPartition(m: seq<int>)
    requires Distinct(m)
    ensures var ps := AdjacentPairs(m);
      && PairsDisjoint(ps)
      && (forall x :: x in Paired(ps) <==> x in m[..2 * (|m| / 2)])
      && (|m| % 2 == 1 ==> m[|m| - 1] !in Paired(ps))
  {
    var ps := AdjacentPairs(m);
    var h := |m| / 2;
    forall i, j | 0 <= i < j < |ps| ensures Members(ps[i]) !! Members(ps[j]) {
      assert m[2 * i] != m[2 * j] && m[2 * i] != m[2 * j + 1];
      assert m[2 * i + 1] != m[2 * j] && m[2 * i + 1] != m[2 * j + 1];
    }
    forall x | x in Paired(ps) ensures x in m[..2 * h] {
      var i :| 0 <= i < |ps| && x in Members(ps[i]);
      if x == m[2 * i] {
        assert m[..2 * h][2 * i] == x;
      } else {
        assert m[..2 * h][2 * i + 1] == x;
      }
    }
    forall x | x in m[..2 * h] ensures x in Paired(ps) {
      var j :| 0 <= j < 2 * h && m[..2 * h][j] == x;
      if j % 2 == 0 {
        assert x in Members(ps[j / 2]);
      } else {
        assert x in Members(ps[j / 2]);
      }
    }
    if |m| % 2 == 1 {
      assert m[|m| - 1] !in m[..2 * h] by {
        forall j | 0 <= j < 2 * h ensures m[..2 * h][j] != m[|m| - 1] {
          assert m[j] != m[|m| - 1];
        }
      }
    }
  }

  /** `lambda x: x if random.random() > mr else 1 - x`. */
  function Mutate(x: int, draw: real, mr: real): int
  {
    if draw > mr then x else 1 - x
  }

  /** A 0/1 allele stays 0/1, and it changes exactly when the draw is at most the rate. */
  lemma MutateFacts(x: int, draw: real, mr: real)
    requires x == 0 || x == 1
    ensures var y := Mutate(x, draw, mr);
      && (y == 0 || y == 1)
      && (y != x <==> draw <= mr)
  {
  }
}
