/**
 * The genealogy DAG `IBDFamilyTree` (hamilton/utils.py) and its earlier copy
 * `IDBFamilyTree` (hamilton/nx_script.py).
 *
 * A node is keyed "gen#id" in the source; here it is the pair (gen, id), and
 * `Key` shows that the pair and the text determine each other. The networkx
 * graph `G` keeps its nodes in insertion order, and the igraph copy numbers
 * its vertices in that order, so predecessor lists come in that order too:
 * `Graph.nodes` is therefore a sequence.
 */
module Genealogy {
  import opened Numerals
  import opened Wrappers
  import opened Seqs

  /** The node "gen#id": agent `id` of generation `gen`. */
  datatype Node = Node(gen: int, id: int)

  type Edge = (Node, Node)

  /** A directed graph: nodes in insertion order and a set of edges. */
  datatype Graph = Graph(nodes: seq<Node>, edges: set<Edge>)

  // ---------------------------------------------------------------------------
  // Node keys

  /** The source's key text `f"{gen}#{id}"`. */
  function Key(n: Node): string
  {
    IntToString(n.gen) + "#" + IntToString(n.id)
  }

  /** `s.split("#")[0]`: the text before the first '#'. */
  function HeadBeforeHash(s: string): (h: string)
    ensures |h| <= |s| && h == s[..|h|]
  {
    if |s| == 0 || s[0] == '#' then "" else [s[0]] + HeadBeforeHash(s[1..])
  }

  /** `s.split("#", 1)[1]`: the text after the first '#'. */
  function TailAfterHash(s: string): string
  {
    if |s| == 0 then "" else if s[0] == '#' then s[1..] else TailAfterHash(s[1..])
  }

  lemma {:induction false} SplitHash(a: string, b: string)
    requires forall k :: 0 <= k < |a| ==> a[k] != '#'
    ensures HeadBeforeHash(a + "#" + b) == a && TailAfterHash(a + "#" + b) == b
  {
    if |a| > 0 {
      assert (a + "#" + b)[1..] == a[1..] + "#" + b;
      SplitHash(a[1..], b);
    } else {
      assert a + "#" + b == "#" + b;
    }
  }

  /** The key prefix that `remove_generation` compares is the node's generation. */
  lemma KeyPrefix(n: Node, gen: int)
    ensures HeadBeforeHash(Key(n)) == IntToString(gen) <==> n.gen == gen
  {
    SplitHash(IntToString(n.gen), IntToString(n.id));
    if HeadBeforeHash(Key(n)) == IntToString(gen) {
      IntToStringInjective(n.gen, gen);
    }
  }

  /** Distinct nodes have distinct keys, so pairs model the text keys faithfully. */
  lemma KeyInjective(a: Node, b: Node)
    requires Key(a) == Key(b)
    ensures a == b
  {
    SplitHash(IntToString(a.gen), IntToString(a.id));
    SplitHash(IntToString(b.gen), IntToString(b.id));
    IntToStringInjective(a.gen, b.gen);
    IntToStringInjective(a.id, b.id);
  }

  // ---------------------------------------------------------------------------
  // Well-formedness: the shape every graph built by `add_child` has

  /**
   * Nodes are listed once, edges join listed nodes, and every edge goes from
   * generation g - 1 to generation g.
   */
  ghost predicate WellFormed(g: Graph)
  {
    && Distinct(g.nodes)
    && (forall e :: e in g.edges ==> e.0 in g.nodes && e.1 in g.nodes)
    && (forall e :: e in g.edges ==> e.0.gen + 1 == e.1.gen)
  }

  const Empty := Graph([], {})

  /** Every node's generation lies in [lo, hi]. */
  ghost predicate WithinWindow(g: Graph, lo: int, hi: int)
  {
    forall n :: n in g.nodes ==> lo <= n.gen <= hi
  }

  // ---------------------------------------------------------------------------
  // networkx mutations

  /** `add_node`: a node already present keeps its place. */
  function AddNode(ns: seq<Node>, n: Node): (r: seq<Node>)
  {
    if n in ns then ns else ns + [n]
  }

  /** `add_edge(u, v)`: missing endpoints are created, u before v. */
  function AddEdge(g: Graph, e: Edge): Graph
  {
    Graph(AddNode(AddNode(g.nodes, e.0), e.1), g.edges + {e})
  }

  /** `add_edges_from(es)`. */
  function AddEdges(g: Graph, es: seq<Edge>): Graph
    decreases |es|
  {
    if es == [] then g else AddEdges(AddEdge(g, es[0]), es[1..])
  }

  /** The edges `add_child` passes: one "(steps-1)#p" -> "steps#cid" per parent id p. */
  function ChildEdges(parents: seq<int>, cid: int, steps: int): (es: seq<Edge>)
    ensures |es| == |parents|
    ensures forall i :: 0 <= i < |es| ==> es[i] == (Node(steps - 1, parents[i]), Node(steps, cid))
  {
    seq(|parents|, i requires 0 <= i < |parents| => (Node(steps - 1, parents[i]), Node(steps, cid)))
  }

  /** The nodes of `ns` outside generation `gen`, in their order. */
  function KeepOtherGenerations(ns: seq<Node>, gen: int): (r: seq<Node>)
    ensures forall n :: n in r <==> n in ns && n.gen != gen
    ensures |r| <= |ns|
  {
    if ns == [] then []
    else if ns[0].gen == gen then KeepOtherGenerations(ns[1..], gen)
    else [ns[0]] + KeepOtherGenerations(ns[1..], gen)
  }

  /** `remove_generation(gen)`: the nodes whose key prefix is str(gen) go, with their incident edges. */
  function RemoveGeneration(g: Graph, gen: int): Graph
  {
    Graph(KeepOtherGenerations(g.nodes, gen),
          set e | e in g.edges && e.0.gen != gen && e.1.gen != gen)
  }

  // ---------------------------------------------------------------------------
  // igraph queries

  /** The predecessors of `v`, in vertex order. */
  function PredsIn(ns: seq<Node>, edges: set<Edge>, v: Node): (r: seq<Node>)
    ensures forall u :: u in r <==> u in ns && (u, v) in edges
  {
    if ns == [] then []
    else if (ns[0], v) in edges then [ns[0]] + PredsIn(ns[1..], edges, v)
    else PredsIn(ns[1..], edges, v)
  }

  function Predecessors(g: Graph, v: Node): seq<Node>
  {
    PredsIn(g.nodes, g.edges, v)
  }

  /** `[value for value in p1 if value in p2]`. */
  function Common(p1: seq<Node>, p2: seq<Node>): (r: seq<Node>)
    ensures forall u :: u in r <==> u in p1 && u in p2
  {
    if p1 == [] then []
    else if p1[0] in p2 then [p1[0]] + Common(p1[1..], p2)
    else Common(p1[1..], p2)
  }

  /** The nodes of generations below `gen`: the measure that each recursion of `rLCA` shrinks. */
  ghost function Older(g: Graph, gen: int): set<Node>
  {
    set n | n in g.nodes && n.gen < gen
  }

  lemma OlderShrinks(g: Graph, parent: Node, child: Node)
    requires WellFormed(g) && (parent, child) in g.edges
    ensures |Older(g, parent.gen)| < |Older(g, child.gen)|
  {
    var a, b := Older(g, parent.gen), Older(g, child.gen);
    assert parent in b - a;
    assert b == a + (b - a) && a * (b - a) == {};
    assert |b - a| > 0;
  }

  /**
   * `rLCA(v1, v2)`: the common immediate predecessors if there are any;
   * otherwise the same question for the first predecessor of each node, and
   * None when either has none. Each step climbs one generation.
   */
  function RLca(g: Graph, v1: Node, v2: Node): (r: Option<seq<Node>>)
    requires WellFormed(g)
    ensures r.Some? ==> |r.value| > 0
    ensures r.Some? ==> forall a :: a in r.value ==> a in g.nodes && a.gen < v1.gen
    decreases |Older(g, v1.gen)|
  {
    var p1 := Predecessors(g, v1);
    var p2 := Predecessors(g, v2);
    var c := Common(p1, p2);
    if |c| > 0 then Some(c)
    else if |p1| == 0 || |p2| == 0 then None
    else
      assert p1[0] in p1;
      OlderShrinks(g, p1[0], v1);
      RLca(g, p1[0], p2[0])
  }

  /** `ig_LCA(n1, n2)`: the first node `rLCA` returns, or None. */
  function IgLca(g: Graph, n1: Node, n2: Node): Option<Node>
    requires WellFormed(g)
  {
    match RLca(g, n1, n2)
    case Some(c) => Some(c[0])
    case None => None
  }

  /** `0.5 ** d`. */
  function Half(d: nat): (r: real)
    ensures 0.0 < r <= 1.0
  {
    if d == 0 then 1.0 else 0.5 * Half(d - 1)
  }

  /**
   * `ig_ibd_coeff(n1, n2)`: 0 without a common ancestor, else 0.5 to the
   * length of the path from the ancestor down to n1. Both nodes must be in
   * the graph: the source's vertex lookup raises otherwise. In a well-formed
   * graph every such path has length `n1.gen - a.gen` (`PathLength`).
   */
  function IgIbdCoeff(g: Graph, n1: Node, n2: Node): real
    requires WellFormed(g) && n1 in g.nodes && n2 in g.nodes
  {
    match IgLca(g, n1, n2)
    case None => 0.0
    case Some(a) => Half(n1.gen - a.gen)
  }

  /** A path along edges, as igraph's `get_shortest_paths` returns one. */
  ghost predicate IsPath(g: Graph, p: seq<Node>)
  {
    && |p| >= 1
    && (forall i :: 0 <= i < |p| ==> p[i] in g.nodes)
    && (forall i :: 0 <= i < |p| - 1 ==> (p[i], p[i + 1]) in g.edges)
  }

  ghost predicate PathFromTo(g: Graph, p: seq<Node>, a: Node, b: Node)
  {
    IsPath(g, p) && p[0] == a && p[|p| - 1] == b
  }

  /**
   * `ibd_coeff(n1, n2)` of the networkx version: 0 when networkx finds no
   * lowest common ancestor, else 0.5 to the shortest-path length from it to
   * n1. The ancestor search itself is networkx's and comes in as `ancestor`;
   * networkx guarantees n1 is reachable from it (or is it).
   */
  function NxIbdCoeff(g: Graph, ancestor: Option<Node>, n1: Node): (r: real)
    requires WellFormed(g)
    requires ancestor.Some? ==> exists p :: PathFromTo(g, p, ancestor.value, n1)
    ensures r == 0.0 <==> ancestor.None?
    ensures ancestor.Some? ==> forall p :: PathFromTo(g, p, ancestor.value, n1) ==> r == Half(|p| - 1)
  {
    match ancestor
    case None => 0.0
    case Some(a) =>
      ReachableIsOlder(g, a, n1);
      AllPathsOneLength(g, a, n1);
      Half(n1.gen - a.gen)
  }

  // ---------------------------------------------------------------------------
  // The mutating tree

  /** `IBDFamilyTree`: `g` is the networkx graph `G`, `ig` the igraph copy last made of it. */
  class FamilyTree {
    var g: Graph
    var ig: Graph

    ghost predicate Valid()
      reads this
    {
      WellFormed(g) && WellFormed(ig)
    }

    /** `IBDFamilyTree(nx.DiGraph(), model)`. */
    constructor ()
      ensures Valid() && g == Empty && ig == Empty
    {
      g := Empty;
      ig := Empty;
    }

    /** `remove_generation(gen_id)`. */
    method RemoveGen(genId: int)
      requires Valid()
      modifies this
      ensures Valid() && g == RemoveGeneration(old(g), genId) && ig == old(ig)
    {
      RemoveGenerationWellFormed(g, genId);
      g := RemoveGeneration(g, genId);
    }

    /** `add_child(child, cid)` with `steps` the scheduler's step counter. */
    method AddChild(parents: seq<int>, cid: int, steps: int)
      requires Valid()
      modifies this
      ensures Valid() && g == AddEdges(old(g), ChildEdges(parents, cid, steps)) && ig == old(ig)
    {
      AddChildWellFormed(g, parents, cid, steps);
      g := AddEdges(g, ChildEdges(parents, cid, steps));
    }

    /** `update_ig()`: the igraph copy is rebuilt from `G`. */
    method UpdateIg()
      requires Valid()
      modifies this
      ensures Valid() && ig == g && g == old(g)
    {
      ig := g;
    }
  }

  // ---------------------------------------------------------------------------
  // Properties of remove_generation

  lemma KeepOtherGenerationsDistinct(ns: seq<Node>, gen: int)
    requires Distinct(ns)
    ensures Distinct(KeepOtherGenerations(ns, gen))
  {
    if ns != [] {
      KeepOtherGenerationsDistinct(ns[1..], gen);
    }
  }

  lemma RemoveGenerationWellFormed(g: Graph, gen: int)
    requires WellFormed(g)
    ensures WellFormed(RemoveGeneration(g, gen))
  {
    KeepOtherGenerationsDistinct(g.nodes, gen);
  }

  /**
   * `remove_generation(gen)` keeps exactly the nodes whose key prefix before
   * '#' differs from str(gen), and exactly the edges between kept nodes.
   */
  lemma RemoveGenerationExact(g: Graph, gen: int)
    requires WellFormed(g)
    ensures var r := RemoveGeneration(g, gen);
      && (forall n :: n in r.nodes <==> n in g.nodes && HeadBeforeHash(Key(n)) != IntToString(gen))
      && (forall e :: e in r.edges <==> e in g.edges && e.0 in r.nodes && e.1 in r.nodes)
      && (WithinWindow(g, gen, gen) ==> r == Empty)
  {
    var r := RemoveGeneration(g, gen);
    forall n | n in g.nodes
      ensures n in r.nodes <==> HeadBeforeHash(Key(n)) != IntToString(gen)
    {
      KeyPrefix(n, gen);
    }
    if WithinWindow(g, gen, gen) {
      KeepNoneOfOneGeneration(g.nodes, gen);
    }
  }

  lemma {:induction false} KeepNoneOfOneGeneration(ns: seq<Node>, gen: int)
    requires forall n :: n in ns ==> n.gen == gen
    ensures KeepOtherGenerations(ns, gen) == []
  {
    if ns != [] {
      assert ns[0] in ns;
      KeepNoneOfOneGeneration(ns[1..], gen);
    }
  }

  /** A second `remove_generation` with the same id changes nothing. */
  lemma {:induction false} RemoveGenerationIdempotent(g: Graph, gen: int)
    ensures RemoveGeneration(RemoveGeneration(g, gen), gen) == RemoveGeneration(g, gen)
  {
    KeepTwice(g.nodes, gen);
  }

  lemma {:induction false} KeepTwice(ns: seq<Node>, gen: int)
    ensures KeepOtherGenerations(KeepOtherGenerations(ns, gen), gen) == KeepOtherGenerations(ns, gen)
  {
    if ns != [] {
      KeepTwice(ns[1..], gen);
    }
  }

  /** Removing the oldest generation of a window narrows it by one. */
  lemma RemoveOldest(g: Graph, lo: int, hi: int)
    requires WithinWindow(g, lo, hi)
    ensures WithinWindow(RemoveGeneration(g, lo), lo + 1, hi)
  {
  }

  // ---------------------------------------------------------------------------
  // Properties of add_child

  lemma AddNodeFacts(ns: seq<Node>, n: Node)
    requires Distinct(ns)
    ensures Distinct(AddNode(ns, n))
    ensures forall m :: m in AddNode(ns, n) <==> m in ns || m == n
    ensures ns <= AddNode(ns, n)
  {
  }

  lemma {:induction false} AddEdgesFacts(g: Graph, es: seq<Edge>)
    requires Distinct(g.nodes)
    ensures var r := AddEdges(g, es);
      && Distinct(r.nodes)
      && g.nodes <= r.nodes
      && (forall n :: n in r.nodes <==> n in g.nodes || exists e :: e in es && (n == e.0 || n == e.1))
      && (forall e :: e in r.edges <==> e in g.edges || e in es)
    decreases |es|
  {
    AddEdgesMembers(g, es);
    if es != [] {
      var g1 := AddEdge(g, es[0]);
      AddNodeFacts(g.nodes, es[0].0);
      AddNodeFacts(AddNode(g.nodes, es[0].0), es[0].1);
      AddEdgesFacts(g1, es[1..]);
      assert AddEdges(g, es) == AddEdges(g1, es[1..]);
    }
  }

  /** `add_edges_from(es)` holds the old nodes and edges, the endpoints of `es` and the edges of `es`, and nothing else. */
  lemma {:induction false} AddEdgesMembers(g: Graph, es: seq<Edge>)
    ensures var r := AddEdges(g, es);
      && (forall n :: n in r.nodes <==> n in g.nodes || exists e :: e in es && (n == e.0 || n == e.1))
      && (forall e :: e in r.edges <==> e in g.edges || e in es)
    decreases |es|
  {
    if es != [] {
      var g1 := AddEdge(g, es[0]);
      assert forall n :: n in g1.nodes <==> n in g.nodes || n == es[0].0 || n == es[0].1;
      AddEdgesMembers(g1, es[1..]);
      var r := AddEdges(g, es);
      assert r == AddEdges(g1, es[1..]);
      forall n | n in r.nodes
        ensures n in g.nodes || exists e :: e in es && (n == e.0 || n == e.1)
      {
        if n !in g.nodes && n !in g1.nodes {
          var e :| e in es[1..] && (n == e.0 || n == e.1);
          assert e in es;
        } else if n !in g.nodes {
          assert es[0] in es;
        }
      }
      forall n | n in g.nodes || exists e :: e in es && (n == e.0 || n == e.1)
        ensures n in r.nodes
      {
        if n !in g.nodes {
          var e :| e in es && (n == e.0 || n == e.1);
          if e != es[0] {
            assert e in es[1..];
          }
        }
      }
      forall e ensures e in r.edges <==> e in g.edges || e in es {
        if e in es && e != es[0] {
          assert e in es[1..];
        }
      }
    }
  }

  /**
   * `add_child` adds exactly one edge "(steps-1)#p" -> "steps#cid" per parent
   * id, creates the endpoints that are missing (after the existing nodes, in
   * order) and changes nothing else.
   */
  lemma AddChildExact(g: Graph, parents: seq<int>, cid: int, steps: int)
    requires Distinct(g.nodes)
    ensures var r := AddEdges(g, ChildEdges(parents, cid, steps));
      && g.nodes <= r.nodes
      && (forall e :: e in r.edges <==> e in g.edges || exists p :: p in parents && e == (Node(steps - 1, p), Node(steps, cid)))
      && (forall n :: n in r.nodes <==>
            (n in g.nodes || (|parents| > 0 && n == Node(steps, cid)) || exists p :: p in parents && n == Node(steps - 1, p)))
  {
    var es := ChildEdges(parents, cid, steps);
    AddEdgesFacts(g, es);
    AddChildEdgeSet(g, parents, cid, steps);
    var r := AddEdges(g, es);
    forall n ensures n in r.nodes <==>
      (n in g.nodes || (|parents| > 0 && n == Node(steps, cid)) || exists p :: p in parents && n == Node(steps - 1, p))
    {
      if exists e :: e in es && (n == e.0 || n == e.1) {
        var e :| e in es && (n == e.0 || n == e.1);
        var i :| 0 <= i < |es| && es[i] == e;
        assert parents[i] in parents;
      }
      if |parents| > 0 && n == Node(steps, cid) {
        assert es[0] in es;
      }
      if exists p :: p in parents && n == Node(steps - 1, p) {
        var p :| p in parents && n == Node(steps - 1, p);
        var i :| 0 <= i < |parents| && parents[i] == p;
        assert es[i] in es;
      }
    }
  }

  /** The edges after `add_child`: the old ones and one from each parent to the child. */
  lemma AddChildEdgeSet(g: Graph, parents: seq<int>, cid: int, steps: int)
    ensures forall e :: e in AddEdges(g, ChildEdges(parents, cid, steps)).edges <==>
      e in g.edges || exists p :: p in parents && e == (Node(steps - 1, p), Node(steps, cid))
  {
    var es := ChildEdges(parents, cid, steps);
    AddEdgesMembers(g, es);
    forall e ensures e in es <==> exists p :: p in parents && e == (Node(steps - 1, p), Node(steps, cid)) {
      if e in es {
        var i :| 0 <= i < |es| && es[i] == e;
        assert parents[i] in parents;
      }
      if exists p :: p in parents && e == (Node(steps - 1, p), Node(steps, cid)) {
        var p :| p in parents && e == (Node(steps - 1, p), Node(steps, cid));
        var i :| 0 <= i < |parents| && parents[i] == p;
        assert es[i] == e;
      }
    }
  }

  /** `add_child` keeps every node and, when the child has a parent, adds the child's node. */
  lemma AddChildNode(g: Graph, parents: seq<int>, cid: int, steps: int)
    ensures var r := AddEdges(g, ChildEdges(parents, cid, steps));
      && (forall n :: n in g.nodes ==> n in r.nodes)
      && (|parents| > 0 ==> Node(steps, cid) in r.nodes)
  {
    var es := ChildEdges(parents, cid, steps);
    AddEdgesMembers(g, es);
    if |parents| > 0 {
      assert es[0] in es;
    }
  }

  /** Every edge `add_child` adds joins consecutive generations, so the graph stays well formed. */
  lemma AddChildWellFormed(g: Graph, parents: seq<int>, cid: int, steps: int)
    requires WellFormed(g)
    ensures WellFormed(AddEdges(g, ChildEdges(parents, cid, steps)))
  {
    var es := ChildEdges(parents, cid, steps);
    AddEdgesFacts(g, es);
    var r := AddEdges(g, es);
    forall e | e in r.edges ensures e.0 in r.nodes && e.1 in r.nodes && e.0.gen + 1 == e.1.gen {
      if e !in g.edges {
        assert e in es;
      }
    }
  }

  /** Adding children of generation `steps` keeps a window that already reaches steps - 1. */
  lemma AddChildWindow(g: Graph, parents: seq<int>, cid: int, steps: int, lo: int)
    requires WithinWindow(g, lo, steps) && lo <= steps - 1
    ensures WithinWindow(AddEdges(g, ChildEdges(parents, cid, steps)), lo, steps)
  {
    var es := ChildEdges(parents, cid, steps);
    AddEdgesMembers(g, es);
    forall n | n in AddEdges(g, es).nodes ensures lo <= n.gen <= steps {
      if n !in g.nodes {
        var e :| e in es && (n == e.0 || n == e.1);
        var i :| 0 <= i < |es| && es[i] == e;
      }
    }
  }

  // ---------------------------------------------------------------------------
  // Properties of the relatedness queries

  /** Along any path each edge climbs down one generation. */
  lemma {:induction false} PathLength(g: Graph, p: seq<Node>)
    requires WellFormed(g) && IsPath(g, p)
    ensures p[|p| - 1].gen - p[0].gen == |p| - 1
    decreases |p|
  {
    if |p| > 1 {
      var q := p[..|p| - 1];
      assert IsPath(g, q);
      PathLength(g, q);
      assert (p[|p| - 2], p[|p| - 1]) in g.edges;
    }
  }

  lemma ReachableIsOlder(g: Graph, a: Node, b: Node)
    requires WellFormed(g) && exists p :: PathFromTo(g, p, a, b)
    ensures a.gen <= b.gen
  {
    var p :| PathFromTo(g, p, a, b);
    PathLength(g, p);
  }

  /** All paths between two nodes have one length, so any of them is a shortest one. */
  lemma AllPathsOneLength(g: Graph, a: Node, b: Node)
    requires WellFormed(g)
    ensures forall p :: PathFromTo(g, p, a, b) ==> |p| - 1 == b.gen - a.gen
  {
    forall p | PathFromTo(g, p, a, b) ensures |p| - 1 == b.gen - a.gen {
      PathLength(g, p);
    }
  }

  /**
   * Every node `rLCA` returns is a common ancestor: there is a path from it
   * to v1 and one to v2.
   */
  lemma {:induction false} RLcaAncestor(g: Graph, v1: Node, v2: Node, a: Node) returns (p1: seq<Node>, p2: seq<Node>)
    requires WellFormed(g) && v1 in g.nodes && v2 in g.nodes
    requires RLca(g, v1, v2).Some? && a in RLca(g, v1, v2).value
    ensures PathFromTo(g, p1, a, v1) && PathFromTo(g, p2, a, v2)
    decreases |Older(g, v1.gen)|
  {
    var q1 := Predecessors(g, v1);
    var q2 := Predecessors(g, v2);
    var c := Common(q1, q2);
    if |c| > 0 {
      assert a in q1 && a in q2;
      PathSnoc(g, [a], a, a, v1);
      PathSnoc(g, [a], a, a, v2);
      p1, p2 := [a, v1], [a, v2];
    } else {
      assert q1[0] in q1 && q2[0] in q2;
      OlderShrinks(g, q1[0], v1);
      var r1, r2 := RLcaAncestor(g, q1[0], q2[0], a);
      PathSnoc(g, r1, a, q1[0], v1);
      PathSnoc(g, r2, a, q2[0], v2);
      p1, p2 := r1 + [v1], r2 + [v2];
    }
  }

  /** A path extended by an edge out of its end. */
  lemma PathSnoc(g: Graph, p: seq<Node>, a: Node, b: Node, c: Node)
    requires (PathFromTo(g, p, a, b) || (p == [a] && a == b && a in g.nodes))
    requires (b, c) in g.edges && c in g.nodes
    ensures PathFromTo(g, p + [c], a, c)
  {
    var q := p + [c];
    forall i | 0 <= i < |q| - 1 ensures (q[i], q[i + 1]) in g.edges {
      if i == |p| - 1 {
        assert q[i] == b;
      } else {
        assert q[i] == p[i] && q[i + 1] == p[i + 1];
      }
    }
  }

  /**
   * `ig_ibd_coeff(n1, n2)` is 0 exactly when `ig_LCA` finds no ancestor;
   * otherwise that ancestor is a common ancestor of both nodes, and the value
   * is 0.5 to the length of every path from it to n1 (so to the shortest
   * one), a length of at least one: the value never exceeds 0.5.
   */
  lemma IgIbdCoeffMeaning(g: Graph, n1: Node, n2: Node)
    requires WellFormed(g) && n1 in g.nodes && n2 in g.nodes
    ensures IgIbdCoeff(g, n1, n2) == 0.0 <==> IgLca(g, n1, n2).None?
    ensures IgLca(g, n1, n2).Some? ==>
      var a := IgLca(g, n1, n2).value;
      && (exists p :: PathFromTo(g, p, a, n1))
      && (exists p :: PathFromTo(g, p, a, n2))
      && (forall p :: PathFromTo(g, p, a, n1) ==> IgIbdCoeff(g, n1, n2) == Half(|p| - 1))
      && 0.0 < IgIbdCoeff(g, n1, n2) <= 0.5
  {
    if IgLca(g, n1, n2).Some? {
      var a := IgLca(g, n1, n2).value;
      var c := RLca(g, n1, n2).value;
      assert a == c[0] && a in c;
      var p1, p2 := RLcaAncestor(g, n1, n2, a);
      AllPathsOneLength(g, a, n1);
    }
  }

  /**
   * Nodes with a common parent get 0.5, and only they do: with no common
   * parent the ancestor is at least two generations up.
   */
  lemma SiblingsHalf(g: Graph, n1: Node, n2: Node)
    requires WellFormed(g) && n1 in g.nodes && n2 in g.nodes
    ensures IgIbdCoeff(g, n1, n2) == 0.5 <==> exists u :: (u, n1) in g.edges && (u, n2) in g.edges
  {
    var p1 := Predecessors(g, n1);
    var p2 := Predecessors(g, n2);
    var c := Common(p1, p2);
    if |c| > 0 {
      assert c[0] in c && c[0] in p1;
      assert IgIbdCoeff(g, n1, n2) == Half(1) == 0.5;
    } else {
      assert forall u :: u !in c;
      if |p1| > 0 && |p2| > 0 {
        var r := RLca(g, p1[0], p2[0]);
        if r.Some? {
          assert r.value[0] in r.value;
          assert p1[0] in p1;
          assert IgIbdCoeff(g, n1, n2) == Half(n1.gen - r.value[0].gen);
          assert n1.gen - r.value[0].gen >= 2;
          HalfBelow(n1.gen - r.value[0].gen);
        }
      }
    }
  }

  lemma HalfBelow(d: nat)
    requires d >= 2
    ensures Half(d) <= 0.25
  {
    if d > 2 {
      HalfBelow(d - 1);
    }
  }

  /** A node with parents queried against itself gets 0.5, not 1: its parents are common to both sides. */
  lemma SelfIsHalf(g: Graph, n: Node)
    requires WellFormed(g) && n in g.nodes
    ensures IgIbdCoeff(g, n, n) == if Predecessors(g, n) == [] then 0.0 else 0.5
  {
    var p := Predecessors(g, n);
    if p != [] {
      assert p[0] in p;
      assert p[0] in Common(p, p);
      SiblingsHalf(g, n, n);
    }
  }

  /**
   * First cousins by the first-listed parents: no common parent, but the
   * first parents share a parent of their own; the value is 0.25.
   */
  lemma FirstCousinsQuarter(g: Graph, n1: Node, n2: Node, u: Node)
    requires WellFormed(g) && n1 in g.nodes && n2 in g.nodes
    requires Common(Predecessors(g, n1), Predecessors(g, n2)) == []
    requires |Predecessors(g, n1)| > 0 && |Predecessors(g, n2)| > 0
    requires (u, Predecessors(g, n1)[0]) in g.edges && (u, Predecessors(g, n2)[0]) in g.edges
    ensures IgIbdCoeff(g, n1, n2) == 0.25
  {
    var a1, a2 := Predecessors(g, n1)[0], Predecessors(g, n2)[0];
    assert a1 in Predecessors(g, n1);
    var c := Common(Predecessors(g, a1), Predecessors(g, a2));
    assert u in c;
    assert c[0] in c && c[0] in Predecessors(g, a1);
    assert RLca(g, n1, n2) == RLca(g, a1, a2) == Some(c);
    assert n1.gen - c[0].gen == 2;
    assert Half(2) == 0.25;
  }

  /** Relatedness of two nodes of one generation does not depend on the order of the question. */
  lemma {:induction false} RLcaSymmetric(g: Graph, v1: Node, v2: Node)
    requires WellFormed(g) && v1.gen == v2.gen
    ensures RLca(g, v1, v2).Some? <==> RLca(g, v2, v1).Some?
    ensures RLca(g, v1, v2).Some? ==> RLca(g, v1, v2).value[0].gen == RLca(g, v2, v1).value[0].gen
    decreases |Older(g, v1.gen)|
  {
    var p1 := Predecessors(g, v1);
    var p2 := Predecessors(g, v2);
    var c12, c21 := Common(p1, p2), Common(p2, p1);
    if |c12| > 0 {
      assert c12[0] in c21;
    }
    if |c21| > 0 {
      assert c21[0] in c12;
    }
    if |c12| == 0 && |c21| == 0 && |p1| > 0 && |p2| > 0 {
      assert p1[0] in p1 && p2[0] in p2;
      OlderShrinks(g, p1[0], v1);
      RLcaSymmetric(g, p1[0], p2[0]);
    }
    var r12, r21 := RLca(g, v1, v2), RLca(g, v2, v1);
    if r12.Some? {
      assert r12.value[0] in r12.value;
      assert r21.value[0] in r21.value;
    }
  }

  lemma IgIbdCoeffSymmetric(g: Graph, n1: Node, n2: Node)
    requires WellFormed(g) && n1 in g.nodes && n2 in g.nodes && n1.gen == n2.gen
    ensures IgIbdCoeff(g, n1, n2) == IgIbdCoeff(g, n2, n1)
  {
    RLcaSymmetric(g, n1, n2);
  }
}
