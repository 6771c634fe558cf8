/** The read-only graph snapshot every PageRank variant works on: nodes `0..n-1`, each with a
    set of labels, and a sequence of typed directed relationships. `L` is how labels are named
    and `T` how relationship types are named (kernel token ids or `RelationshipType` values). */
module Graphs {
  import opened JavaInt

  datatype Edge<T> = Edge(start: nat, end: nat, relType: T)

  datatype Graph<L, T> = Graph(n: nat, labels: seq<set<L>>, edges: seq<Edge<T>>) {
    /** One label set per node, every relationship between existing nodes, and a node count
        that fits the `int` array sizes the dense variants allocate. */
    predicate Valid() {
      && |labels| == n
      && n <= MAX_INT
      && EdgesWithin(edges, n)
    }
  }

  /** No node is listed twice. */
  predicate Distinct(nodes: seq<nat>) {
    forall i, j :: 0 <= i < j < |nodes| ==> nodes[i] != nodes[j]
  }

  /** Number of positions of `ls` that hold a member of `s` (a list entry is counted as often
      as it is repeated). */
  function Hits<L(==)>(ls: seq<L>, s: set<L>): (r: nat)
    ensures r <= |ls|
    ensures r == 0 <==> forall i :: 0 <= i < |ls| ==> ls[i] !in s
  {
    if |ls| == 0 then 0
    else Hits(ls[..|ls| - 1], s) + (if ls[|ls| - 1] in s then 1 else 0)
  }

  /** The nodes below `k` carrying label `l`, in increasing id order. */
  function NodesBelow<L(==), T>(g: Graph<L, T>, l: L, k: nat): (r: seq<nat>)
    requires g.Valid() && k <= g.n
    ensures forall i :: 0 <= i < |r| ==> r[i] < k && l in g.labels[r[i]]
    ensures forall v :: 0 <= v < k && l in g.labels[v] ==> v in r
    ensures forall i, j :: 0 <= i < j < |r| ==> r[i] < r[j]
  {
    if k == 0 then []
    else NodesBelow(g, l, k - 1) + (if l in g.labels[k - 1] then [k - 1] else [])
  }

  /** `findNodes` / `nodesGetForLabel`: every node carrying `l`, each once, by increasing id. */
  function NodesWithLabel<L(==), T>(g: Graph<L, T>, l: L): (r: seq<nat>)
    requires g.Valid()
    ensures forall v: nat :: v in r <==> v < g.n && l in g.labels[v]
    ensures forall i, j :: 0 <= i < j < |r| ==> r[i] < r[j]
  {
    NodesBelow(g, l, g.n)
  }

  /** A node occurs in a strictly increasing sequence at most once. */
  lemma {:induction false} IncreasingOccursOnce(r: seq<nat>, v: nat)
    requires forall i, j :: 0 <= i < j < |r| ==> r[i] < r[j]
    ensures multiset(r)[v] == (if v in r then 1 else 0)
  {
    if |r| > 0 {
      var last := r[|r| - 1];
      var init := r[..|r| - 1];
      assert r == init + [last];
      IncreasingOccursOnce(init, v);
      assert last !in init by {
        forall i | 0 <= i < |init| ensures init[i] != last {
          assert r[i] < r[|r| - 1];
        }
      }
      assert v in r <==> v in init || v == last;
    }
  }

  /** Number of relationships of type `t` leaving `v` (`nodeGetDegree(v, OUTGOING, t)`). */
  function OutDegree<T(==)>(edges: seq<Edge<T>>, v: nat, t: T): (r: nat)
    ensures r <= |edges|
    ensures r == 0 <==> forall i :: 0 <= i < |edges| ==> !(edges[i].start == v && edges[i].relType == t)
  {
    if |edges| == 0 then 0
    else
      var e := edges[|edges| - 1];
      OutDegree(edges[..|edges| - 1], v, t) + (if e.start == v && e.relType == t then 1 else 0)
  }

  /** Number of relationships of type `t` entering `v` (`nodeGetDegree(v, INCOMING, t)`). */
  function InDegree<T(==)>(edges: seq<Edge<T>>, v: nat, t: T): (r: nat)
    ensures r <= |edges|
    ensures r == 0 <==> forall i :: 0 <= i < |edges| ==> !(edges[i].end == v && edges[i].relType == t)
  {
    if |edges| == 0 then 0
    else
      var e := edges[|edges| - 1];
      InDegree(edges[..|edges| - 1], v, t) + (if e.end == v && e.relType == t then 1 else 0)
  }

  /** The dense variants' per-(node, type) degree: the outgoing degree, or the incoming degree
      when the outgoing one is not positive. */
  function DegreeOrIncoming<T(==)>(edges: seq<Edge<T>>, v: nat, t: T): (r: nat)
    ensures r == 0 <==> OutDegree(edges, v, t) == 0 && InDegree(edges, v, t) == 0
    ensures OutDegree(edges, v, t) > 0 ==> r == OutDegree(edges, v, t)
    ensures OutDegree(edges, v, t) == 0 ==> r == InDegree(edges, v, t)
  {
    var out := OutDegree(edges, v, t);
    if out <= 0 then InDegree(edges, v, t) else out
  }

  /** The relationships leaving `v` whose type is one of `types`, in relationship order
      (`getRelationships(OUTGOING, types)`). */
  function Outgoing<T(==)>(edges: seq<Edge<T>>, v: nat, types: seq<T>): (r: seq<Edge<T>>)
    ensures forall i :: 0 <= i < |r| ==> r[i] in edges && r[i].start == v && r[i].relType in types
    ensures forall i :: 0 <= i < |edges| && edges[i].start == v && edges[i].relType in types ==> edges[i] in r
    ensures |r| <= |edges|
  {
    if |edges| == 0 then []
    else
      var e := edges[|edges| - 1];
      Outgoing(edges[..|edges| - 1], v, types) + (if e.start == v && e.relType in types then [e] else [])
  }

  /** A graph whose labels and relationship types are kernel token ids. */
  type TokenGraph = Graph<Int32, Int32>

  /** Every relationship joins two of the nodes `0..n-1`. */
  predicate EdgesWithin<T>(edges: seq<Edge<T>>, n: nat) {
    forall i :: 0 <= i < |edges| ==> edges[i].start < n && edges[i].end < n
  }

}
