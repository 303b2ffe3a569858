/** The part of a networkx `DiGraph` the system relies on: nodes kept in
    insertion order, one attribute record per node, and a set of directed edges.
    A node created implicitly by `add_edge` has no attribute record yet. */
module DiGraph {

  datatype Graph<N, D> = Graph(nodes: seq<N>, attrs: map<N, D>, edges: set<(N, N)>)

  function Empty<N, D>(): (g: Graph<N, D>)
    ensures g.nodes == [] && g.attrs == map[] && g.edges == {}
  {
    Graph([], map[], {})
  }

  predicate Distinct<T(==)>(s: seq<T>)
  {
    forall i, j :: 0 <= i < j < |s| ==> s[i] != s[j]
  }

  /** The invariants networkx maintains: every node appears once, and every
      attribute record and every edge endpoint belongs to a node. */
  predicate Valid<N(==), D>(g: Graph<N, D>)
  {
    && Distinct(g.nodes)
    && (forall n :: n in g.attrs ==> n in g.nodes)
    && (forall e :: e in g.edges ==> e.0 in g.nodes && e.1 in g.nodes)
  }

  /** `g.add_node(n, **d)`: an existing node keeps its position and gets `d` as
      its attributes (every caller in the system passes a complete record). */
  function AddNode<N(==), D>(g: Graph<N, D>, n: N, d: D): (r: Graph<N, D>)
    ensures r.nodes == if n in g.nodes then g.nodes else g.nodes + [n]
    ensures r.attrs == g.attrs[n := d]
    ensures r.edges == g.edges
  {
    Graph(if n in g.nodes then g.nodes else g.nodes + [n], g.attrs[n := d], g.edges)
  }

  /** `g.add_edge(u, v)`: missing endpoints are appended as bare nodes, and an
      existing edge is left as it is. */
  function AddEdge<N(==, !new), D>(g: Graph<N, D>, u: N, v: N): (r: Graph<N, D>)
    ensures r.nodes == AddMissing(AddMissing(g.nodes, u), v)
    ensures r.attrs == g.attrs
    ensures r.edges == g.edges + {(u, v)}
  {
    Graph(AddMissing(AddMissing(g.nodes, u), v), g.attrs, g.edges + {(u, v)})
  }

  function AddMissing<N(==, !new)>(s: seq<N>, n: N): (r: seq<N>)
    ensures n in r
    ensures forall m :: m in r <==> m in s || m == n
    ensures Distinct(s) ==> Distinct(r)
    ensures n in s ==> r == s
  {
    if n in s then s else s + [n]
  }

  /** `AddMissing` for each element of `vs` in turn. */
  function AddAllMissing<N(==, !new)>(s: seq<N>, vs: seq<N>): (r: seq<N>)
    ensures forall m :: m in r <==> m in s || m in vs
    ensures Distinct(s) ==> Distinct(r)
    decreases |vs|
  {
    if vs == [] then s
    else
      assert forall m :: m in vs <==> m in vs[..|vs| - 1] || m == vs[|vs| - 1] by {
        assert vs == vs[..|vs| - 1] + [vs[|vs| - 1]];
      }
      AddMissing(AddAllMissing(s, vs[..|vs| - 1]), vs[|vs| - 1])
  }

  /** The edges from `u` to every element of `vs`. */
  function Fan<N(==, !new)>(u: N, vs: seq<N>): (es: set<(N, N)>)
    ensures forall x, y :: (x, y) in es <==> x == u && y in vs
  {
    set v | v in vs :: (u, v)
  }

  /** `for v in vs: g.add_edge(u, v)` from a graph that already holds `u`,
      one step at a time. */
  lemma AddEdgeExtendsFan<N(!new), D>(g0: Graph<N, D>, u: N, vs: seq<N>, j: nat)
    requires u in g0.nodes && j < |vs|
    ensures AddEdge(Graph(AddAllMissing(g0.nodes, vs[..j]), g0.attrs, g0.edges + Fan(u, vs[..j])), u, vs[j])
         == Graph(AddAllMissing(g0.nodes, vs[..j + 1]), g0.attrs, g0.edges + Fan(u, vs[..j + 1]))
  {
    assert vs[..j + 1][..j] == vs[..j];
    assert vs[..j + 1] == vs[..j] + [vs[j]];
  }

  /** The predecessors of `n`. */
  function Predecessors<N(==, !new), D>(g: Graph<N, D>, n: N): (ps: set<N>)
    ensures forall p :: p in ps <==> (p, n) in g.edges
  {
    set e | e in g.edges && e.1 == n :: e.0
  }

  /** The successors of `n`. */
  function Successors<N(==, !new), D>(g: Graph<N, D>, n: N): (ss: set<N>)
    ensures forall s :: s in ss <==> (n, s) in g.edges
  {
    set e | e in g.edges && e.0 == n :: e.1
  }

  /** `n` has in-degree 0. */
  predicate IsSource<N(==), D>(g: Graph<N, D>, n: N)
  {
    forall e :: e in g.edges ==> e.1 != n
  }

  /** Adding a node keeps the graph well formed. */
  lemma AddNodeValid<N, D>(g: Graph<N, D>, n: N, d: D)
    requires Valid(g)
    ensures Valid(AddNode(g, n, d))
  {
    var r := AddNode(g, n, d);
    if n !in g.nodes {
      forall i, j | 0 <= i < j < |r.nodes| ensures r.nodes[i] != r.nodes[j] {
        if j == |g.nodes| {
          assert r.nodes[i] == g.nodes[i];
        }
      }
    }
  }

  /** Adding an edge keeps the graph well formed. */
  lemma AddEdgeValid<N(!new), D>(g: Graph<N, D>, u: N, v: N)
    requires Valid(g)
    ensures Valid(AddEdge(g, u, v))
  {
  }

  /** The position of the first node without an attribute record (reading an
      attribute of it raises KeyError), or `|ns|` when every node has one. */
  function FirstBare<N(==), D>(ns: seq<N>, attrs: map<N, D>): (r: nat)
    ensures r <= |ns|
    ensures forall j :: 0 <= j < r ==> ns[j] in attrs
    ensures r < |ns| ==> ns[r] !in attrs
  {
    FirstBareFrom(ns, attrs, 0)
  }

  /** `FirstBare` searching from position `i` on. */
  function FirstBareFrom<N(==), D>(ns: seq<N>, attrs: map<N, D>, i: nat): (r: nat)
    requires i <= |ns|
    ensures i <= r <= |ns|
    ensures forall j :: i <= j < r ==> ns[j] in attrs
    ensures r < |ns| ==> ns[r] !in attrs
    decreases |ns| - i
  {
    if i == |ns| || ns[i] !in attrs then i else FirstBareFrom(ns, attrs, i + 1)
  }

  /** The first bare node is the first position whose node has no record. */
  lemma FirstBareAt<N, D>(ns: seq<N>, attrs: map<N, D>, i: nat)
    requires i <= |ns| && (forall j :: 0 <= j < i ==> ns[j] in attrs) && (i < |ns| ==> ns[i] !in attrs)
    ensures FirstBare(ns, attrs) == i
  {
  }
}
