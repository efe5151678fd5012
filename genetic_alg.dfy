/**
 * selfish_herd/GeneticAlg.py and Predator/GeneticAlg.py: uniform crossover
 * and bit-flip mutation over gene lists, both working in place, and
 * `gen_offspring`, which crosses and mutates every unordered couple of a
 * population in turn. A gene list is an `array<int>`; every
 * `random.uniform(0, 1)` is an input draw.
 */
module GeneticAlg {

  // ---------------------------------------------------------------------------
  // Crossover

  /**
   * The two lists after uniform crossover: position i of the first list
   * (and the same position of the second) swaps exactly where draw i is at
   * most the rate; positions of the second list past the first's length
   * stay.
   */
  function Crossed(a: seq<int>, b: seq<int>, draws: seq<real>, rate: real): (r: (seq<int>, seq<int>))
    requires |a| <= |b| && |draws| == |a|
    ensures |r.0| == |a| && |r.1| == |b|
  {
    (seq(|a|, i requires 0 <= i < |a| => if draws[i] <= rate then b[i] else a[i]),
     seq(|b|, i requires 0 <= i < |b| => if i < |a| && draws[i] <= rate then a[i] else b[i]))
  }

  /**
   * Crossover only exchanges genes between the lists: at every position the
   * pair of genes is the same pair, and beyond the first list's length the
   * second list is untouched.
   */
  lemma CrossedPositions(a: seq<int>, b: seq<int>, draws: seq<real>, rate: real)
    requires |a| <= |b| && |draws| == |a|
    ensures var r := Crossed(a, b, draws, rate);
      && (forall i :: 0 <= i < |a| ==> multiset{r.0[i], r.1[i]} == multiset{a[i], b[i]})
      && (forall i :: 0 <= i < |a| ==> (r.0[i] == a[i] && r.1[i] == b[i]) || draws[i] <= rate)
      && (forall i :: |a| <= i < |b| ==> r.1[i] == b[i])
  {
  }

  /** Crossing the crossed lists again with the same draws gives back the parents. */
  lemma CrossedTwice(a: seq<int>, b: seq<int>, draws: seq<real>, rate: real)
    requires |a| <= |b| && |draws| == |a|
    ensures var r := Crossed(a, b, draws, rate);
      Crossed(r.0, r.1, draws, rate) == (a, b)
  {
    var r := Crossed(a, b, draws, rate);
    var s := Crossed(r.0, r.1, draws, rate);
    assert s.0 == a;
    assert s.1 == b;
  }

  /**
   * `crossover(ind1, ind2, cros_rate)`: walks the first list and swaps the
   * genes of both lists where the draw is at most the rate; it returns the
   * same two lists. The second list must be at least as long as the first,
   * or Python's indexing raises.
   */
  method Crossover(ind1: array<int>, ind2: array<int>, draws: seq<real>, crosRate: real) returns (child1: array<int>, child2: array<int>)
    requires ind1.Length <= ind2.Length && |draws| == ind1.Length
    modifies ind1, ind2
    ensures child1 == ind1 && child2 == ind2
    ensures ind1[..] == Crossed(old(ind1[..]), old(ind2[..]), draws, crosRate).0
    ensures ind2[..] == Crossed(old(ind1[..]), old(ind2[..]), draws, crosRate).1
  {
    ghost var a, b := ind1[..], ind2[..];
    ghost var r := Crossed(a, b, draws, crosRate);
    var i := 0;
    while i < ind1.Length
      invariant 0 <= i <= ind1.Length
      invariant forall k :: 0 <= k < i ==> ind1[k] == r.0[k] && ind2[k] == r.1[k]
      invariant forall k :: i <= k < ind1.Length ==> ind1[k] == a[k]
      invariant forall k :: i <= k < ind2.Length ==> ind2[k] == b[k]
    {
      var x := draws[i];
      if x <= crosRate {
        var temp := ind1[i];
        ind1[i] := ind2[i];
        ind2[i] := temp;
      }
      i := i + 1;
    }
    assert ind1[..] == r.0;
    assert ind2[..] == r.1;
    child1, child2 := ind1, ind2;
  }

  // ---------------------------------------------------------------------------
  // Mutation

  /** The flip of `mutation`: a 1 becomes 0 and anything else becomes 1. */
  function FlipGene(n: int): (m: int)
    ensures m == 0 || m == 1
    ensures (n == 0 || n == 1) ==> m == 1 - n
  {
    if n == 1 then 0 else 1
  }

  /** The list after mutation: the gene at i flips exactly where draw i is at most the rate. */
  function Mutated(a: seq<int>, draws: seq<real>, rate: real): (r: seq<int>)
    requires |draws| == |a|
    ensures |r| == |a|
  {
    seq(|a|, i requires 0 <= i < |a| => if draws[i] <= rate then FlipGene(a[i]) else a[i])
  }

  /** A 0/1 gene list. */
  predicate IsBinary(a: seq<int>)
  {
    forall i :: 0 <= i < |a| ==> a[i] == 0 || a[i] == 1
  }

  /**
   * Mutation keeps a list 0/1, changes a 0/1 gene exactly where the draw
   * is at most the rate, and, on a 0/1 list, undoes itself when repeated
   * with the same draws.
   */
  lemma MutatedFacts(a: seq<int>, draws: seq<real>, rate: real)
    requires |draws| == |a|
    ensures IsBinary(a) ==> IsBinary(Mutated(a, draws, rate))
    ensures IsBinary(a) ==> forall i :: 0 <= i < |a| ==> (Mutated(a, draws, rate)[i] != a[i] <==> draws[i] <= rate)
    ensures IsBinary(a) ==> Mutated(Mutated(a, draws, rate), draws, rate) == a
  {
    if IsBinary(a) {
      var m := Mutated(a, draws, rate);
      var mm := Mutated(m, draws, rate);
      assert forall i :: 0 <= i < |a| ==> mm[i] == a[i];
    }
  }

  /** `mutation(ind, mut_rate)`: flips genes in place where the draw is at most the rate, and returns the same list. */
  method Mutation(ind: array<int>, draws: seq<real>, mutRate: real) returns (child: array<int>)
    requires |draws| == ind.Length
    modifies ind
    ensures child == ind
    ensures ind[..] == Mutated(old(ind[..]), draws, mutRate)
  {
    ghost var a := ind[..];
    var i := 0;
    while i < ind.Length
      invariant 0 <= i <= ind.Length
      invariant forall k :: 0 <= k < i ==> ind[k] == Mutated(a, draws, mutRate)[k]
      invariant forall k :: i <= k < ind.Length ==> ind[k] == a[k]
    {
      var n := ind[i];
      var x := draws[i];
      if x <= mutRate {
        if n == 1 {
          ind[i] := 0;
        } else {
          ind[i] := 1;
        }
      }
      i := i + 1;
    }
    assert ind[..] == Mutated(a, draws, mutRate);
    child := ind;
  }

  // ---------------------------------------------------------------------------
  // gen_offspring

  /** The couples (i, j), i < j < n, that follow (i, i + 1) .. (i, n - 1) in `combinations(range(n), 2)`. */
  function CouplesFrom(i: nat, n: nat): (cs: seq<(int, int)>)
    decreases n - i
  {
    if i >= n then [] else seq(n - i - 1, j requires 0 <= j < n - i - 1 => (i, i + 1 + j)) + CouplesFrom(i + 1, n)
  }

  /** `combinations(pop, 2)` on positions: every unordered couple, in lexicographic order. */
  function Couples(n: nat): seq<(int, int)>
  {
    CouplesFrom(0, n)
  }

  /** The couples from i on are exactly the pairs i <= p < q < n. */
  lemma {:induction false} CouplesFromMembers(i: nat, n: nat)
    ensures forall c :: c in CouplesFrom(i, n) <==> i <= c.0 < c.1 < n
    decreases n - i
  {
    if i < n {
      CouplesFromMembers(i + 1, n);
      var row := seq(n - i - 1, j requires 0 <= j < n - i - 1 => (i, i + 1 + j));
      assert CouplesFrom(i, n) == row + CouplesFrom(i + 1, n);
      forall c: (int, int) | i <= c.0 < c.1 < n ensures c in CouplesFrom(i, n) {
        if c.0 == i {
          assert row[c.1 - i - 1] == c;
        }
      }
    }
  }

  /** There are (n - i)(n - i - 1) / 2 couples from i on. */
  lemma {:induction false} CouplesFromSize(i: nat, n: nat)
    ensures 2 * |CouplesFrom(i, n)| == if i < n then (n - i) * (n - i - 1) else 0
    decreases n - i
  {
    if i < n {
      CouplesFromSize(i + 1, n);
      var m := n - i;
      assert |CouplesFrom(i, n)| == (m - 1) + |CouplesFrom(i + 1, n)|;
      assert m * (m - 1) == (m - 1) * (m - 1) + (m - 1);
      if i + 1 < n {
        assert (m - 1) * (m - 2) == (m - 1) * (m - 1) - (m - 1);
      }
    }
  }

  /**
   * `gen_offspring` makes one couple per unordered pair of the population:
   * n(n - 1) / 2 couples, so n(n - 1) children (105 couples and 210
   * children for 15 individuals).
   */
  lemma CouplesCount(n: nat)
    ensures forall c :: c in Couples(n) <==> 0 <= c.0 < c.1 < n
    ensures 2 * |Couples(n)| == n * (n - 1)
  {
    CouplesFromMembers(0, n);
    CouplesFromSize(0, n);
  }

  /** The draws one couple takes: one per gene for the crossover, then one per gene of each child's mutation. */
  datatype CoupleDraws = CoupleDraws(cross: seq<real>, mut1: seq<real>, mut2: seq<real>)

  /** The draws fit the list lengths, and each couple's first list is no longer than its second. */
  predicate Fits(lens: seq<int>, cs: seq<(int, int)>, ds: seq<CoupleDraws>)
  {
    && |ds| == |cs|
    && forall t :: 0 <= t < |cs| ==>
      && 0 <= cs[t].0 < cs[t].1 < |lens|
      && lens[cs[t].0] <= lens[cs[t].1]
      && |ds[t].cross| == lens[cs[t].0] && |ds[t].mut1| == lens[cs[t].0] && |ds[t].mut2| == lens[cs[t].1]
  }

  function Lengths(pop: seq<seq<int>>): (lens: seq<int>)
    ensures |lens| == |pop| && forall k :: 0 <= k < |pop| ==> lens[k] == |pop[k]|
  {
    seq(|pop|, k requires 0 <= k < |pop| => |pop[k]|)
  }

  /** One couple: both lists cross over, then each is mutated. */
  function BreedCouple(pop: seq<seq<int>>, c: (int, int), d: CoupleDraws, mutRate: real, crosRate: real): (r: seq<seq<int>>)
    requires 0 <= c.0 < c.1 < |pop| && |pop[c.0]| <= |pop[c.1]|
    requires |d.cross| == |pop[c.0]| && |d.mut1| == |pop[c.0]| && |d.mut2| == |pop[c.1]|
    ensures Lengths(r) == Lengths(pop)
  {
    var x := Crossed(pop[c.0], pop[c.1], d.cross, crosRate);
    var r := pop[c.0 := Mutated(x.0, d.mut1, mutRate)][c.1 := Mutated(x.1, d.mut2, mutRate)];
    assert Lengths(r) == Lengths(pop);
    r
  }

  /** The population's lists after the couples `cs`, taken in order, each working on the lists as the earlier ones left them. */
  ghost function BreedAll(pop: seq<seq<int>>, cs: seq<(int, int)>, ds: seq<CoupleDraws>, mutRate: real, crosRate: real): (r: seq<seq<int>>)
    requires Fits(Lengths(pop), cs, ds)
    ensures Lengths(r) == Lengths(pop)
    decreases |cs|
  {
    if cs == [] then pop
    else
      var n := |cs| - 1;
      assert Fits(Lengths(pop), cs[..n], ds[..n]);
      var before := BreedAll(pop, cs[..n], ds[..n], mutRate, crosRate);
      BreedCouple(before, cs[n], ds[n], mutRate, crosRate)
  }

  /** Every list of the population holds only 0s and 1s. */
  predicate AllBinary(pop: seq<seq<int>>)
  {
    forall k :: 0 <= k < |pop| ==> IsBinary(pop[k])
  }

  /** Crossover and mutation of 0/1 lists give 0/1 lists, so a 0/1 population stays 0/1. */
  lemma {:induction false} BreedAllBinary(pop: seq<seq<int>>, cs: seq<(int, int)>, ds: seq<CoupleDraws>, mutRate: real, crosRate: real)
    requires Fits(Lengths(pop), cs, ds) && AllBinary(pop)
    ensures AllBinary(BreedAll(pop, cs, ds, mutRate, crosRate))
    decreases |cs|
  {
    if cs != [] {
      var n := |cs| - 1;
      assert Fits(Lengths(pop), cs[..n], ds[..n]);
      BreedAllBinary(pop, cs[..n], ds[..n], mutRate, crosRate);
      var before := BreedAll(pop, cs[..n], ds[..n], mutRate, crosRate);
      assert AllBinary(before);
      var c, d := cs[n], ds[n];
      assert Lengths(before) == Lengths(pop);
      assert |before| == |pop| && 0 <= c.0 < c.1 < |pop|;
      assert IsBinary(before[c.0]) && IsBinary(before[c.1]);
      var x := Crossed(before[c.0], before[c.1], d.cross, crosRate);
      assert IsBinary(x.0) by {
        forall i | 0 <= i < |x.0| ensures x.0[i] == 0 || x.0[i] == 1 {
          assert x.0[i] == before[c.0][i] || x.0[i] == before[c.1][i];
        }
      }
      assert IsBinary(x.1) by {
        forall i | 0 <= i < |x.1| ensures x.1[i] == 0 || x.1[i] == 1 {
          assert x.1[i] == before[c.1][i] || (i < |before[c.0]| && x.1[i] == before[c.0][i]);
        }
      }
      MutatedFacts(x.0, d.mut1, mutRate);
      MutatedFacts(x.1, d.mut2, mutRate);
      var r := BreedAll(pop, cs, ds, mutRate, crosRate);
      assert r == before[c.0 := Mutated(x.0, d.mut1, mutRate)][c.1 := Mutated(x.1, d.mut2, mutRate)];
    }
  }

  /** The contents of every list of the population. */
  function Contents(pop: seq<array<int>>): (r: seq<seq<int>>)
    reads set k | 0 <= k < |pop| :: pop[k]
    ensures |r| == |pop| && forall k :: 0 <= k < |pop| ==> r[k] == pop[k][..]
  {
    seq(|pop|, k requires 0 <= k < |pop| reads set j | 0 <= j < |pop| :: pop[j] => pop[k][..])
  }

  /** Distinct list objects: no list of the population is another's alias. */
  predicate Separate(pop: seq<array<int>>)
  {
    forall i, j :: 0 <= i < j < |pop| ==> pop[i] != pop[j]
  }

  /** The lengths of the population's lists. */
  function ArrayLengths(pop: seq<array<int>>): (lens: seq<int>)
    ensures |lens| == |pop| && forall k :: 0 <= k < |pop| ==> lens[k] == pop[k].Length
  {
    seq(|pop|, k requires 0 <= k < |pop| => pop[k].Length)
  }

  /** The couples' indices are indices of the population. */
  predicate CouplesIn(n: int, cs: seq<(int, int)>)
  {
    forall t :: 0 <= t < |cs| ==> 0 <= cs[t].0 < n && 0 <= cs[t].1 < n
  }

  /** The lists `gen_offspring` appends for the couples `cs`: both lists of each couple, in couple order. */
  function Children<T>(pop: seq<T>, cs: seq<(int, int)>): (r: seq<T>)
    requires CouplesIn(|pop|, cs)
    ensures |r| == 2 * |cs|
    decreases |cs|
  {
    if cs == [] then []
    else
      var n := |cs| - 1;
      Children(pop, cs[..n]) + [pop[cs[n].0], pop[cs[n].1]]
  }

  /** Child 2t is couple t's first list and child 2t + 1 its second. */
  lemma {:induction false} ChildrenAt<T>(pop: seq<T>, cs: seq<(int, int)>)
    requires CouplesIn(|pop|, cs)
    ensures forall t :: 0 <= t < |cs| ==>
      Children(pop, cs)[2 * t] == pop[cs[t].0] && Children(pop, cs)[2 * t + 1] == pop[cs[t].1]
    decreases |cs|
  {
    if cs != [] {
      var n := |cs| - 1;
      ChildrenAt(pop, cs[..n]);
      var r, prev := Children(pop, cs), Children(pop, cs[..n]);
      assert r == prev + [pop[cs[n].0], pop[cs[n].1]];
      forall t | 0 <= t < |cs|
        ensures r[2 * t] == pop[cs[t].0] && r[2 * t + 1] == pop[cs[t].1]
      {
        if t < n {
          assert r[2 * t] == prev[2 * t] && r[2 * t + 1] == prev[2 * t + 1];
        }
      }
    }
  }

  /**
   * `gen_offspring(pop, mut_rate, cros_rate)`: for every couple in
   * `combinations` order, crossover of the two lists and mutation of each.
   * The children appended are the population's own lists, changed in
   * place: child 2t and 2t + 1 are the two lists of couple t (`ChildrenAt`),
   * each holding the genes it has after the last couple.
   */
  method GenOffspring(pop: seq<array<int>>, ds: seq<CoupleDraws>, mutRate: real, crosRate: real)
    returns (offspring: seq<array<int>>)
    requires Separate(pop) && Fits(ArrayLengths(pop), Couples(|pop|), ds)
    modifies set k | 0 <= k < |pop| :: pop[k]
    ensures |offspring| == 2 * |Couples(|pop|)|
    ensures offspring == Children(pop, Couples(|pop|))
    ensures Lengths(old(Contents(pop))) == ArrayLengths(pop)
    ensures Contents(pop) == BreedAll(old(Contents(pop)), Couples(|pop|), ds, mutRate, crosRate)
  {
    ghost var p0 := Contents(pop);
    assert Lengths(p0) == ArrayLengths(pop);
    var couples := Couples(|pop|);
    offspring := [];
    var t := 0;
    while t < |couples|
      invariant 0 <= t <= |couples| && Fits(Lengths(p0), couples[..t], ds[..t])
      invariant offspring == Children(pop, couples[..t])
      invariant Contents(pop) == BreedAll(p0, couples[..t], ds[..t], mutRate, crosRate)
    {
      offspring := BreedNext(pop, p0, couples, ds, mutRate, crosRate, t, offspring);
      t := t + 1;
    }
    assert couples[..t] == couples && ds[..t] == ds;
    CouplesCount(|pop|);
  }

  /** One pass of the loop of `gen_offspring`: the couple t crosses over, and each of its lists mutates. */
  method BreedNext(pop: seq<array<int>>, ghost p0: seq<seq<int>>, cs: seq<(int, int)>, ds: seq<CoupleDraws>,
                   mutRate: real, crosRate: real, t: int, offspring: seq<array<int>>)
    returns (more: seq<array<int>>)
    requires Separate(pop) && Lengths(p0) == ArrayLengths(pop) && Fits(Lengths(p0), cs, ds) && 0 <= t < |cs|
    requires Fits(Lengths(p0), cs[..t], ds[..t]) && offspring == Children(pop, cs[..t])
    requires Contents(pop) == BreedAll(p0, cs[..t], ds[..t], mutRate, crosRate)
    modifies set k | 0 <= k < |pop| :: pop[k]
    ensures Fits(Lengths(p0), cs[..t + 1], ds[..t + 1]) && more == Children(pop, cs[..t + 1])
    ensures Contents(pop) == BreedAll(p0, cs[..t + 1], ds[..t + 1], mutRate, crosRate)
  {
    var c, d := cs[t], ds[t];
    ghost var before := Contents(pop);
    assert Fits(Lengths(p0), cs[..t + 1], ds[..t + 1]);
    assert cs[..t + 1][..t] == cs[..t] && ds[..t + 1][..t] == ds[..t];
    var child1, child2 := Crossover(pop[c.0], pop[c.1], d.cross, crosRate);
    child1 := Mutation(child1, d.mut1, mutRate);
    child2 := Mutation(child2, d.mut2, mutRate);
    more := offspring + [child1, child2];
    ghost var x := Crossed(before[c.0], before[c.1], d.cross, crosRate);
    assert Contents(pop) == before[c.0 := Mutated(x.0, d.mut1, mutRate)][c.1 := Mutated(x.1, d.mut2, mutRate)];
  }
}
