/** `PageRankArrayStorageParallelSPI`: the dense variant whose ranks are fixed-point `int`s in an
    `AtomicIntegerArray`, so that worker threads can add into them. The worker pool is modelled
    as sequential application of the same work units in an arbitrary order. */
module ParallelStorage {
  import opened Errors
  import opened JavaInt
  import opened Graphs
  import opened PageRank

  /** `toInt` / `toFloat` of `Utils`, which is not part of this model: any conversion pair. */
  datatype FixedPoint = FixedPoint(toInt: real -> Int32, toFloat: Int32 -> real)

  /** `ONE_MINUS_ALPHA_INT`. */
  function OneMinusAlphaInt(fp: FixedPoint, d: Damping): Int32 {
    fp.toInt(d.oneMinusAlpha)
  }

  /** The number of passes `compute` runs, whatever it is asked for. */
  const FORCED_ITERATIONS: nat := 200

  /** One `{id, deg}` pair appended by a `computeDegrees` work unit. */
  datatype DegreeEntry = DegreeEntry(node: nat, degree: nat)

  /** The `dst` field: null until `compute` first runs. */
  datatype ParallelStore = Uncomputed | Computed(dst: seq<Int32>)

  /** What a call of `compute` leaves behind: the store, and the exception it threw, if any. */
  datatype Run = Run(store: ParallelStore, thrown: Option<JavaException>)

  /** The fixed-point arrays one pass reads and writes. */
  datatype Ranks = Ranks(src: seq<Int32>, dst: seq<Int32>)

  // ---------------------------------------------------------------------------------------
  // computeDegrees: collecting the entries

  /** The entries of one node: one per listed type, in type order. */
  function NodeEntries(edges: seq<Edge<Int32>>, v: nat, typeIds: seq<Int32>): (r: seq<DegreeEntry>)
    ensures |r| == |typeIds|
    ensures forall j :: 0 <= j < |r| ==> r[j] == DegreeEntry(v, DegreeOrIncoming(edges, v, typeIds[j]))
  {
    seq(|typeIds|, j requires 0 <= j < |typeIds| => DegreeEntry(v, DegreeOrIncoming(edges, v, typeIds[j])))
  }

  function NodesEntries(edges: seq<Edge<Int32>>, nodes: seq<nat>, typeIds: seq<Int32>): seq<DegreeEntry>
  {
    if |nodes| == 0 then [] else NodesEntries(edges, nodes[..|nodes| - 1], typeIds) + NodeEntries(edges, nodes[|nodes| - 1], typeIds)
  }

  /** The list `computeDegrees` collects when the work units run one after another: for each
      label, for each node carrying it, one entry per type. */
  function DegreeEntries(g: TokenGraph, labelIds: seq<Int32>, typeIds: seq<Int32>): seq<DegreeEntry>
    requires g.Valid()
  {
    if |labelIds| == 0 then []
    else DegreeEntries(g, labelIds[..|labelIds| - 1], typeIds) + NodesEntries(g.edges, NodesWithLabel(g, labelIds[|labelIds| - 1]), typeIds)
  }

  lemma {:induction false} NodesEntriesShape(edges: seq<Edge<Int32>>, nodes: seq<nat>, typeIds: seq<Int32>, e: DegreeEntry)
    ensures e in NodesEntries(edges, nodes, typeIds) <==>
              e.node in nodes && exists j :: 0 <= j < |typeIds| && e.degree == DegreeOrIncoming(edges, e.node, typeIds[j])
  {
    if |nodes| > 0 {
      NodesEntriesShape(edges, nodes[..|nodes| - 1], typeIds, e);
      var v := nodes[|nodes| - 1];
      assert e in NodeEntries(edges, v, typeIds) <==>
               e.node == v && exists j :: 0 <= j < |typeIds| && e.degree == DegreeOrIncoming(edges, e.node, typeIds[j]) by {
        if e in NodeEntries(edges, v, typeIds) {
          var j :| 0 <= j < |typeIds| && NodeEntries(edges, v, typeIds)[j] == e;
        }
        if e.node == v && exists j :: 0 <= j < |typeIds| && e.degree == DegreeOrIncoming(edges, e.node, typeIds[j]) {
          var j :| 0 <= j < |typeIds| && e.degree == DegreeOrIncoming(edges, e.node, typeIds[j]);
          assert NodeEntries(edges, v, typeIds)[j] == e;
        }
      }
      assert nodes == nodes[..|nodes| - 1] + [v];
    }
  }

  /** The collected entries are exactly the (node, type) pairs of the nodes carrying one of
      the labels, each recording the node's outgoing degree of that type, or its incoming
      degree when the outgoing one is not positive. */
  lemma {:induction false} DegreeEntriesShape(g: TokenGraph, labelIds: seq<Int32>, typeIds: seq<Int32>, e: DegreeEntry)
    requires g.Valid()
    ensures e in DegreeEntries(g, labelIds, typeIds) <==>
              e.node < g.n && Hits(labelIds, g.labels[e.node]) > 0 &&
              exists j :: 0 <= j < |typeIds| && e.degree == DegreeOrIncoming(g.edges, e.node, typeIds[j])
  {
    if |labelIds| > 0 {
      DegreeEntriesShape(g, labelIds[..|labelIds| - 1], typeIds, e);
      NodesEntriesShape(g.edges, NodesWithLabel(g, labelIds[|labelIds| - 1]), typeIds, e);
    }
  }

  /** A node gets an entry exactly when it carries one of the labels and a type is listed. */
  lemma EntryExistsIff(g: TokenGraph, labelIds: seq<Int32>, typeIds: seq<Int32>, v: nat)
    requires g.Valid() && v < g.n
    ensures (exists i :: 0 <= i < |DegreeEntries(g, labelIds, typeIds)| && DegreeEntries(g, labelIds, typeIds)[i].node == v)
            <==> Hits(labelIds, g.labels[v]) > 0 && |typeIds| > 0
  {
    var es := DegreeEntries(g, labelIds, typeIds);
    if exists i :: 0 <= i < |es| && es[i].node == v {
      var i :| 0 <= i < |es| && es[i].node == v;
      DegreeEntriesShape(g, labelIds, typeIds, es[i]);
    }
    if Hits(labelIds, g.labels[v]) > 0 && |typeIds| > 0 {
      var e := DegreeEntry(v, DegreeOrIncoming(g.edges, v, typeIds[0]));
      DegreeEntriesShape(g, labelIds, typeIds, e);
      var i :| 0 <= i < |es| && es[i] == e;
    }
  }

  // ---------------------------------------------------------------------------------------
  // computeDegrees: the merge loop

  /** The merge loop as written: slots start at -1; an entry overwrites a negative slot of its
      node with `degree[e[1]]`, the slot indexed by the recorded degree, and otherwise adds that
      slot to it (a 32-bit `int` addition). An index outside the array throws. Since every slot
      it can read is still -1, every slot it writes stays -1: a merge that does not throw
      leaves every node at degree -1. */
  function Merge(n: nat, entries: seq<DegreeEntry>): (r: Result<seq<Int32>>)
    ensures r.Success? <==> forall i :: 0 <= i < |entries| ==> entries[i].node < n && entries[i].degree < n
    ensures r.Failure? ==> r.error == IndexOutOfBoundsException
    ensures r.Success? ==> |r.value| == n
    ensures r.Success? ==> forall v :: 0 <= v < n && (forall i :: 0 <= i < |entries| ==> entries[i].node != v) ==> r.value[v] == -1
    ensures r.Success? ==> forall v :: 0 <= v < n ==> r.value[v] == -1
  {
    if |entries| == 0 then Success(seq(n, _ => -1))
    else
      var init := entries[..|entries| - 1];
      var e := entries[|entries| - 1];
      assert forall i :: 0 <= i < |init| ==> init[i] == entries[i];
      match Merge(n, init)
      case Failure(x) => Failure(x)
      case Success(degree) =>
        if e.node >= n || e.degree >= n then Failure(IndexOutOfBoundsException)
        else Success(MergeStep(degree, e))
  }

  /** One entry of the merge loop: only the entry's node slot changes. A slot still at -1 takes
      the value of slot `degree[e.degree]`; any other slot adds it with 32-bit wrap-around. */
  function MergeStep(degree: seq<Int32>, e: DegreeEntry): (r: seq<Int32>)
    requires e.node < |degree| && e.degree < |degree|
    ensures |r| == |degree|
    ensures forall v :: 0 <= v < |degree| && v != e.node ==> r[v] == degree[v]
    ensures degree[e.node] < 0 ==> r[e.node] == degree[e.degree]
    ensures degree[e.node] >= 0 ==> (r[e.node] - (degree[e.node] + degree[e.degree])) % TWO_32 == 0
    ensures degree[e.node] >= 0 && degree[e.node] + degree[e.degree] <= MAX_INT ==>
              r[e.node] == degree[e.node] + degree[e.degree]
  {
    if degree[e.node] < 0 then degree[e.node := degree[e.degree]]
    else degree[e.node := Wrap32(degree[e.node] as int + degree[e.degree] as int)]
  }

  /** `degrees.forEach(...)`: the merge loop over the collected entries, in list order. */
  method MergeDegrees(n: nat, entries: seq<DegreeEntry>) returns (r: Result<seq<Int32>>)
    ensures r == Merge(n, entries)
  {
    var degree: seq<Int32> := seq(n, _ => -1);
    var k := 0;
    while k < |entries|
      invariant 0 <= k <= |entries|
      invariant Merge(n, entries[..k]) == Success(degree)
    {
      var e := entries[k];
      assert entries[..k + 1][..k] == entries[..k];
      if e.node >= n || e.degree >= n {
        MergeFailureSticks(n, entries, k + 1);
        return Failure(IndexOutOfBoundsException);
      }
      degree := MergeStep(degree, e);
      k := k + 1;
    }
    assert entries[..k] == entries;
    return Success(degree);
  }

  /** Once the merge has thrown, later entries do not matter. */
  lemma {:induction false} MergeFailureSticks(n: nat, entries: seq<DegreeEntry>, k: nat)
    requires k <= |entries| && Merge(n, entries[..k]).Failure?
    ensures Merge(n, entries) == Failure(IndexOutOfBoundsException)
  {
    if k < |entries| {
      MergeFailureSticks(n, entries[..|entries| - 1], k) by {
        assert entries[..|entries| - 1][..k] == entries[..k];
      }
    } else {
      assert entries[..k] == entries;
    }
  }

  /** The merge reads the slot indexed by the degree, not the degree: a single node of
      degree 2 in a three-node graph keeps -1, because slot 2 still holds -1. */
  lemma MergeReadsSlotOfDegree()
    ensures Merge(3, [DegreeEntry(0, 2)]) == Success([-1, -1, -1])
  {
    var start: seq<Int32> := seq(3, _ => -1);
    assert start == [-1, -1, -1] by {
      assert |start| == 3 && start[0] == -1 && start[1] == -1 && start[2] == -1;
    }
    assert [DegreeEntry(0, 2)][..0] == [];
    assert Merge(3, []) == Success(start);
    assert MergeStep(start, DegreeEntry(0, 2)) == start[0 := start[2]];
    assert start[0 := start[2]] == start;
  }

  /** A recorded degree as large as the node count is an array index out of range. */
  lemma MergeDegreeOutOfRange()
    ensures Merge(2, [DegreeEntry(0, 2)]) == Failure(IndexOutOfBoundsException)
  {
  }

  // ---------------------------------------------------------------------------------------
  // One iteration: startIteration, then the visitor over every relationship

  /** `startIteration`: a node of degree -1 is skipped, so neither its `src` nor its `dst` is
      touched (its `dst` is never reset); every other node's `dst` is swapped for
      `ONE_MINUS_ALPHA_INT` and its `src` is computed from the value `dst` held before. */
  method StartIteration(src: seq<Int32>, dst: seq<Int32>, degrees: seq<Int32>, fp: FixedPoint, d: Damping)
    returns (src': seq<Int32>, dst': seq<Int32>)
    requires |src| == |dst| == |degrees|
    ensures |src'| == |dst'| == |src|
    ensures forall v :: 0 <= v < |src| && degrees[v] == -1 ==> src'[v] == src[v] && dst'[v] == dst[v]
    ensures forall v :: 0 <= v < |src| && degrees[v] != -1 ==>
              dst'[v] == OneMinusAlphaInt(fp, d) && src'[v] == fp.toInt(Share(d, fp.toFloat(dst[v]), degrees[v]))
  {
    src', dst' := src, dst;
    var node := 0;
    while node < |src|
      invariant 0 <= node <= |src| && |src'| == |dst'| == |src|
      invariant forall v :: node <= v < |src| ==> src'[v] == src[v] && dst'[v] == dst[v]
      invariant forall v :: 0 <= v < node && degrees[v] == -1 ==> src'[v] == src[v] && dst'[v] == dst[v]
      invariant forall v :: 0 <= v < node && degrees[v] != -1 ==>
                  dst'[v] == OneMinusAlphaInt(fp, d) && src'[v] == fp.toInt(Share(d, fp.toFloat(dst[v]), degrees[v]))
    {
      if degrees[node] != -1 {
        var previous := dst'[node];
        dst' := dst'[node := OneMinusAlphaInt(fp, d)];
        src' := src'[node := fp.toInt(Share(d, fp.toFloat(previous), degrees[node]))];
      }
      node := node + 1;
    }
  }

  /** A node's `src` after `startIteration`. */
  function StartedSrc(r: Ranks, degrees: seq<Int32>, fp: FixedPoint, d: Damping, v: nat): Int32
    requires v < |r.src| == |r.dst| == |degrees|
  {
    if degrees[v] == -1 then r.src[v] else fp.toInt(Share(d, fp.toFloat(r.dst[v]), degrees[v]))
  }

  /** A node's `dst` after `startIteration`. */
  function StartedDst(r: Ranks, degrees: seq<Int32>, fp: FixedPoint, d: Damping, v: nat): Int32
    requires v < |r.dst| == |degrees|
  {
    if degrees[v] == -1 then r.dst[v] else OneMinusAlphaInt(fp, d)
  }

  function StartIterationRef(r: Ranks, degrees: seq<Int32>, fp: FixedPoint, d: Damping): (r': Ranks)
    requires |r.src| == |r.dst| == |degrees|
    ensures |r'.src| == |r'.dst| == |degrees|
  {
    Ranks(seq(|r.src|, v requires 0 <= v < |r.src| => StartedSrc(r, degrees, fp, d, v)),
          seq(|r.dst|, v requires 0 <= v < |r.dst| => StartedDst(r, degrees, fp, d, v)))
  }

  /** The visitor: a relationship whose type is one of `typeIds` does `dst.addAndGet(end,
      src[start])`; nothing else changes. */
  function Visit(dst: seq<Int32>, src: seq<Int32>, typeIds: seq<Int32>, e: Edge<Int32>): (r: seq<Int32>)
    requires e.start < |src| && e.end < |dst|
    ensures |r| == |dst|
    ensures e.relType in typeIds ==> r[e.end] == Wrap32(dst[e.end] as int + src[e.start] as int)
    ensures forall v :: 0 <= v < |dst| && (v != e.end || e.relType !in typeIds) ==> r[v] == dst[v]
  {
    if e.relType in typeIds then dst[e.end := Wrap32(dst[e.end] as int + src[e.start] as int)] else dst
  }

  /** What one relationship carries into `v`. */
  function Carried(e: Edge<Int32>, src: seq<Int32>, typeIds: seq<Int32>, v: nat): int
    requires e.start < |src|
  {
    if e.end == v && e.relType in typeIds then src[e.start] as int else 0
  }

  /** Exact total `src` carried into `v` by the relevant relationships of `edges`. */
  function Inflow(edges: seq<Edge<Int32>>, src: seq<Int32>, typeIds: seq<Int32>, v: nat): int
    requires EdgesWithin(edges, |src|)
  {
    if |edges| == 0 then 0
    else Inflow(edges[..|edges| - 1], src, typeIds, v) + Carried(edges[|edges| - 1], src, typeIds, v)
  }

  lemma {:induction false} InflowConcat(a: seq<Edge<Int32>>, b: seq<Edge<Int32>>, src: seq<Int32>, typeIds: seq<Int32>, v: nat)
    requires EdgesWithin(a, |src|) && EdgesWithin(b, |src|)
    ensures EdgesWithin(a + b, |src|)
    ensures Inflow(a + b, src, typeIds, v) == Inflow(a, src, typeIds, v) + Inflow(b, src, typeIds, v)
  {
    assert EdgesWithin(a + b, |src|) by {
      forall i | 0 <= i < |a + b| ensures (a + b)[i].start < |src| && (a + b)[i].end < |src| {
        if i >= |a| { assert (a + b)[i] == b[i - |a|]; }
      }
    }
    if |b| == 0 {
      assert a + b == a;
    } else {
      InflowConcat(a, b[..|b| - 1], src, typeIds, v);
      assert (a + b)[..|a + b| - 1] == a + b[..|b| - 1];
    }
  }

  /** Rearranging relationships keeps them within the graph. */
  lemma SameEdgesWithin(a: seq<Edge<Int32>>, b: seq<Edge<Int32>>, n: nat)
    requires multiset(a) == multiset(b) && EdgesWithin(a, n)
    ensures EdgesWithin(b, n)
  {
    forall i | 0 <= i < |b| ensures b[i].start < n && b[i].end < n {
      assert b[i] in multiset(a);
    }
  }

  /** Taking one relationship out of a list takes exactly what it carries out of the inflow. */
  lemma InflowRemove(b: seq<Edge<Int32>>, i: nat, src: seq<Int32>, typeIds: seq<Int32>, v: nat)
    requires i < |b| && EdgesWithin(b, |src|)
    ensures EdgesWithin(b[..i] + b[i + 1..], |src|)
    ensures Inflow(b, src, typeIds, v) == Inflow(b[..i] + b[i + 1..], src, typeIds, v) + Carried(b[i], src, typeIds, v)
  {
    var left, right := b[..i], b[i + 1..];
    assert b == left + [b[i]] + right;
    assert EdgesWithin(left, |src|) && EdgesWithin(right, |src|) && EdgesWithin([b[i]], |src|);
    InflowConcat(left, right, src, typeIds, v);
    InflowConcat(left, [b[i]], src, typeIds, v);
    InflowConcat(left + [b[i]], right, src, typeIds, v);
    assert Inflow([b[i]], src, typeIds, v) == Carried(b[i], src, typeIds, v) by {
      assert [b[i]][..0] == [];
    }
  }

  /** Removing the same element from two rearrangements of one list leaves rearrangements. */
  lemma RemoveKeepsPermutation(a: seq<Edge<Int32>>, b: seq<Edge<Int32>>, i: nat)
    requires |a| > 0 && i < |b| && multiset(a) == multiset(b) && b[i] == a[|a| - 1]
    ensures multiset(a[..|a| - 1]) == multiset(b[..i] + b[i + 1..])
  {
    var x := b[i];
    var rest, left, right := a[..|a| - 1], b[..i], b[i + 1..];
    assert a == rest + [x];
    assert multiset(a) == multiset(rest) + multiset{x};
    assert b == left + [x] + right;
    assert multiset(b) == multiset(left) + multiset{x} + multiset(right);
    assert multiset(left + right) == multiset(left) + multiset(right);
    var m1, m2 := multiset(rest), multiset(left + right);
    assert m1 + multiset{x} == m2 + multiset{x};
    forall y ensures m1[y] == m2[y] {
      assert (m1 + multiset{x})[y] == (m2 + multiset{x})[y];
    }
  }

  /** The inflow does not depend on the order the relationships are visited in: it is a sum
      of integers, and any rearrangement of the same relationships gives the same total. */
  lemma {:induction false} InflowPermutation(a: seq<Edge<Int32>>, b: seq<Edge<Int32>>, src: seq<Int32>, typeIds: seq<Int32>, v: nat)
    requires multiset(a) == multiset(b) && EdgesWithin(a, |src|) && EdgesWithin(b, |src|)
    ensures Inflow(a, src, typeIds, v) == Inflow(b, src, typeIds, v)
  {
    if |a| == 0 {
      assert |b| == |multiset(b)| == 0;
    } else {
      var x := a[|a| - 1];
      assert x in multiset(b);
      var i :| 0 <= i < |b| && b[i] == x;
      RemoveKeepsPermutation(a, b, i);
      InflowRemove(b, i, src, typeIds, v);
      assert EdgesWithin(a[..|a| - 1], |src|);
      InflowPermutation(a[..|a| - 1], b[..i] + b[i + 1..], src, typeIds, v);
    }
  }

  /** `r` is `dst` after every relationship of `edges` has been visited: each node has grown
      by its exact inflow, modulo 2^32. */
  predicate Passed(dst: seq<Int32>, src: seq<Int32>, typeIds: seq<Int32>, edges: seq<Edge<Int32>>, r: seq<Int32>)
    requires |src| == |dst| && EdgesWithin(edges, |dst|)
  {
    |r| == |dst| && forall v :: 0 <= v < |dst| ==> r[v] == Wrap32(dst[v] as int + Inflow(edges, src, typeIds, v))
  }

  /** Visiting the next relationship of `order` extends a pass over its first `k` to a pass over
      its first `k + 1`. */
  lemma VisitExtendsPass(dst: seq<Int32>, src: seq<Int32>, typeIds: seq<Int32>, order: seq<Edge<Int32>>, k: nat, r: seq<Int32>)
    requires |src| == |dst| && k < |order| && EdgesWithin(order, |dst|)
    requires EdgesWithin(order[..k], |dst|) && Passed(dst, src, typeIds, order[..k], r)
    ensures EdgesWithin(order[..k + 1], |dst|)
    ensures Passed(dst, src, typeIds, order[..k + 1], Visit(r, src, typeIds, order[k]))
  {
    assert order[..k + 1][..k] == order[..k];
    var r' := Visit(r, src, typeIds, order[k]);
    forall v | 0 <= v < |dst| ensures r'[v] == Wrap32(dst[v] as int + Inflow(order[..k + 1], src, typeIds, v)) {
      WrapAddLeft(dst[v] as int + Inflow(order[..k], src, typeIds, v), Carried(order[k], src, typeIds, v));
    }
  }

  /** One pass of the worker pool, with the relationships taken in `order`: each node's `dst`
      grows by its exact inflow, wrapped to 32 bits. */
  method Pass(dst: seq<Int32>, src: seq<Int32>, typeIds: seq<Int32>, order: seq<Edge<Int32>>) returns (r: seq<Int32>)
    requires |src| == |dst| && EdgesWithin(order, |dst|)
    ensures |r| == |dst|
    ensures forall v :: 0 <= v < |dst| ==> r[v] == Wrap32(dst[v] as int + Inflow(order, src, typeIds, v))
  {
    r := dst;
    var k := 0;
    assert order[..0] == [];
    forall v | 0 <= v < |dst| ensures r[v] == Wrap32(dst[v] as int + Inflow(order[..0], src, typeIds, v)) { }
    while k < |order|
      invariant 0 <= k <= |order| && EdgesWithin(order[..k], |dst|)
      invariant Passed(dst, src, typeIds, order[..k], r)
    {
      VisitExtendsPass(dst, src, typeIds, order, k, r);
      r := Visit(r, src, typeIds, order[k]);
      k := k + 1;
    }
    assert order[..k] == order;
  }

  function PassRef(dst: seq<Int32>, src: seq<Int32>, typeIds: seq<Int32>, edges: seq<Edge<Int32>>): (r: seq<Int32>)
    requires |src| == |dst| && EdgesWithin(edges, |dst|)
    ensures |r| == |dst|
  {
    seq(|dst|, v requires 0 <= v < |dst| => Wrap32(dst[v] as int + Inflow(edges, src, typeIds, v)))
  }

  /** A pass in any order of the relationships ends where a pass in the graph's order does. */
  lemma PassAnyOrder(dst: seq<Int32>, src: seq<Int32>, typeIds: seq<Int32>, order: seq<Edge<Int32>>,
                     edges: seq<Edge<Int32>>, r: seq<Int32>)
    requires |src| == |dst| && EdgesWithin(edges, |dst|) && EdgesWithin(order, |dst|)
    requires multiset(order) == multiset(edges)
    requires |r| == |dst| && forall v :: 0 <= v < |dst| ==> r[v] == Wrap32(dst[v] as int + Inflow(order, src, typeIds, v))
    ensures r == PassRef(dst, src, typeIds, edges)
  {
    forall v | 0 <= v < |dst| ensures r[v] == PassRef(dst, src, typeIds, edges)[v] {
      InflowPermutation(edges, order, src, typeIds, v);
    }
  }

  /** The arrays after `k` complete passes, both starting all-zero. */
  function Passes(g: TokenGraph, degrees: seq<Int32>, typeIds: seq<Int32>, fp: FixedPoint, d: Damping, k: nat): (r: Ranks)
    requires g.Valid() && |degrees| == g.n
    ensures |r.src| == |r.dst| == g.n
  {
    if k == 0 then Ranks(seq(g.n, _ => 0), seq(g.n, _ => 0))
    else
      var s := StartIterationRef(Passes(g, degrees, typeIds, fp, d, k - 1), degrees, fp, d);
      assert EdgesWithin(g.edges, g.n);
      Ranks(s.src, PassRef(s.dst, s.src, typeIds, g.edges))
  }

  /** One iteration with the relationships visited in `order`, a rearrangement of `edges`:
      the same arrays as visiting them in `edges` order. */
  method Iteration(before: Ranks, degrees: seq<Int32>, typeIds: seq<Int32>, fp: FixedPoint, d: Damping,
                   order: seq<Edge<Int32>>, edges: seq<Edge<Int32>>) returns (after: Ranks)
    requires |before.src| == |before.dst| == |degrees|
    requires EdgesWithin(edges, |degrees|) && multiset(order) == multiset(edges)
    ensures var s := StartIterationRef(before, degrees, fp, d);
            after == Ranks(s.src, PassRef(s.dst, s.src, typeIds, edges))
  {
    SameEdgesWithin(edges, order, |degrees|);
    var src, dst := StartIteration(before.src, before.dst, degrees, fp, d);
    assert Ranks(src, dst) == StartIterationRef(before, degrees, fp, d);
    var dst' := Pass(dst, src, typeIds, order);
    PassAnyOrder(dst, src, typeIds, order, edges, dst');
    after := Ranks(src, dst');
  }

  // ---------------------------------------------------------------------------------------
  // compute and getResult

  /** What `compute` leaves behind, given the list the degree work units collected: `dst` is
      allocated all-zero before anything else, so a merge that throws leaves zeros behind;
      otherwise exactly `FORCED_ITERATIONS` passes run. Either way every rank is 0: the merge
      leaves every degree at -1, so no pass ever moves any rank. */
  function ParallelRun(g: TokenGraph, labelGetForName: string -> Int32, fp: FixedPoint, d: Damping,
                       entries: seq<DegreeEntry>): (r: Run)
    requires g.Valid()
    ensures r.store.Computed? && |r.store.dst| == g.n
    ensures r.thrown.Some? <==> Merge(g.n, entries).Failure?
    ensures r.thrown.Some? ==> r.thrown.value == IndexOutOfBoundsException
    ensures forall v :: 0 <= v < g.n ==> r.store.dst[v] == 0
  {
    match Merge(g.n, entries)
    case Failure(e) => Run(Computed(seq(g.n, _ => 0)), Some(e))
    case Success(degrees) =>
      UnrankedPassesStayZero(g, degrees, Tokens(FIXED_TYPES, labelGetForName), fp, d, FORCED_ITERATIONS);
      Run(Computed(Passes(g, degrees, Tokens(FIXED_TYPES, labelGetForName), fp, d, FORCED_ITERATIONS).dst), None)
  }

  /** The work units ran concurrently, so the collected list holds the same entries in some order. */
  predicate Interleaving(entries: seq<DegreeEntry>, sequential: seq<DegreeEntry>) {
    multiset(entries) == multiset(sequential)
  }

  /** Each of the first `passes` visiting orders is a rearrangement of all the relationships. */
  predicate Reorderings(schedule: nat -> seq<Edge<Int32>>, edges: seq<Edge<Int32>>, passes: nat) {
    forall i: nat :: i < passes ==> multiset(schedule(i)) == multiset(edges)
  }

  /** The iteration loop of `compute`: `FORCED_ITERATIONS` passes, the `i`-th visiting the
      relationships in the order `schedule(i)`. */
  method RunPasses(g: TokenGraph, degrees: seq<Int32>, typeIds: seq<Int32>, fp: FixedPoint, d: Damping,
                   schedule: nat -> seq<Edge<Int32>>) returns (ranks: Ranks)
    requires g.Valid() && |degrees| == g.n
    requires Reorderings(schedule, g.edges, FORCED_ITERATIONS)
    ensures ranks == Passes(g, degrees, typeIds, fp, d, FORCED_ITERATIONS)
  {
    var zeros: seq<Int32> := seq(g.n, _ => 0);
    var passes := FORCED_ITERATIONS;
    ranks := Ranks(zeros, zeros);
    var iteration := 0;
    assert EdgesWithin(g.edges, g.n);
    while iteration < passes
      invariant 0 <= iteration <= passes
      invariant ranks == Passes(g, degrees, typeIds, fp, d, iteration)
    {
      assert multiset(schedule(iteration)) == multiset(g.edges);
      ranks := Iteration(ranks, degrees, typeIds, fp, d, schedule(iteration), g.edges);
      iteration := iteration + 1;
    }
  }

  /** `compute(label, type, iterations)`. The label, type and iteration count are ignored.
      `entries` is the list the concurrent degree work units appended to: some interleaving
      of the per-node entries. `schedule(i)` is the order in which the worker pool happens to
      visit the relationships in pass `i`: some rearrangement of all of them. Whatever the
      schedule, the result is the same, because 32-bit addition is associative and commutative
      modulo 2^32. */
  method Compute(g: TokenGraph, labelGetForName: string -> Int32, labelName: string, typeName: string, iterations: int,
                 fp: FixedPoint, d: Damping, entries: seq<DegreeEntry>, schedule: nat -> seq<Edge<Int32>>)
    returns (run: Run)
    requires g.Valid()
    requires Interleaving(entries, DegreeEntries(g, Tokens(FIXED_LABELS, labelGetForName), Tokens(FIXED_TYPES, labelGetForName)))
    requires Reorderings(schedule, g.edges, FORCED_ITERATIONS)
    ensures run == ParallelRun(g, labelGetForName, fp, d, entries)
    ensures forall v :: 0 <= v < g.n ==> run.store.dst[v] == 0
  {
    var zeros: seq<Int32> := seq(g.n, _ => 0);
    var typeIds := Tokens(FIXED_TYPES, labelGetForName);
    var merged := MergeDegrees(g.n, entries);
    if merged.Failure? {
      return Run(Computed(zeros), Some(merged.error));
    }
    var ranks := RunPasses(g, merged.value, typeIds, fp, d, schedule);
    run := Run(Computed(ranks.dst), None);
  }

  /** A node none of whose labels is listed (or any node, when no type is listed) gets no
      entry, so its merged degree stays -1; as written, so does every other node. */
  lemma UnlabeledDegreeStaysMinusOne(g: TokenGraph, labelIds: seq<Int32>, typeIds: seq<Int32>,
                                     entries: seq<DegreeEntry>, v: nat)
    requires g.Valid() && v < g.n
    requires multiset(entries) == multiset(DegreeEntries(g, labelIds, typeIds))
    requires Merge(g.n, entries).Success?
    requires Hits(labelIds, g.labels[v]) == 0 || |typeIds| == 0
    ensures Merge(g.n, entries).value[v] == -1
  {
  }

  /** With every `src` 0, no relationship carries anything. */
  lemma {:induction false} InflowOfZeros(edges: seq<Edge<Int32>>, src: seq<Int32>, typeIds: seq<Int32>, v: nat)
    requires EdgesWithin(edges, |src|) && forall u :: 0 <= u < |src| ==> src[u] == 0
    ensures Inflow(edges, src, typeIds, v) == 0
  {
    if |edges| > 0 {
      assert EdgesWithin(edges[..|edges| - 1], |src|);
      InflowOfZeros(edges[..|edges| - 1], src, typeIds, v);
    }
  }

  /** When every degree is -1, as after the merge, `startIteration` skips every node, so `src`
      stays 0, no relationship carries anything, and `dst` stays 0 pass after pass. */
  lemma {:induction false} UnrankedPassesStayZero(g: TokenGraph, degrees: seq<Int32>, typeIds: seq<Int32>,
                                                  fp: FixedPoint, d: Damping, k: nat)
    requires g.Valid() && |degrees| == g.n && forall v :: 0 <= v < g.n ==> degrees[v] == -1
    ensures forall v :: 0 <= v < g.n ==> Passes(g, degrees, typeIds, fp, d, k).src[v] == 0
    ensures forall v :: 0 <= v < g.n ==> Passes(g, degrees, typeIds, fp, d, k).dst[v] == 0
  {
    if k > 0 {
      UnrankedPassesStayZero(g, degrees, typeIds, fp, d, k - 1);
      var p := Passes(g, degrees, typeIds, fp, d, k - 1);
      var s := StartIterationRef(p, degrees, fp, d);
      assert s.src == p.src && s.dst == p.dst;
      assert EdgesWithin(g.edges, g.n);
      forall v | 0 <= v < g.n ensures Inflow(g.edges, s.src, typeIds, v) == 0 {
        InflowOfZeros(g.edges, s.src, typeIds, v);
      }
    }
  }

  /** A node of degree -1 is never touched by `startIteration`, so its `src` stays 0 for ever. */
  lemma {:induction false} UnresetSourceStaysZero(g: TokenGraph, degrees: seq<Int32>, typeIds: seq<Int32>, fp: FixedPoint,
                                                  d: Damping, k: nat, v: nat)
    requires g.Valid() && |degrees| == g.n
    requires v < g.n && degrees[v] == -1
    ensures Passes(g, degrees, typeIds, fp, d, k).src[v] == 0
  {
    if k > 0 {
      UnresetSourceStaysZero(g, degrees, typeIds, fp, d, k - 1, v);
    }
  }

  /** Nor is the `dst` of a node of degree -1 ever reset: for a degree array with such nodes,
      each pass adds that node's inflow to its previous `dst`. In `compute` itself every node
      has degree -1, so every inflow is 0 and nothing accumulates (`UnrankedPassesStayZero`). */
  lemma UnresetRankAccumulates(g: TokenGraph, degrees: seq<Int32>, typeIds: seq<Int32>, fp: FixedPoint, d: Damping,
                               k: nat, v: nat)
    requires g.Valid() && |degrees| == g.n
    requires v < g.n && degrees[v] == -1
    ensures EdgesWithin(g.edges, g.n)
    ensures Passes(g, degrees, typeIds, fp, d, k + 1).dst[v]
              == Wrap32(Passes(g, degrees, typeIds, fp, d, k).dst[v] as int
                        + Inflow(g.edges, Passes(g, degrees, typeIds, fp, d, k + 1).src, typeIds, v))
  {
    assert EdgesWithin(g.edges, g.n);
  }

  /** `getResult(node)`: 0 before any `compute` (not -1 as in the other dense variant), and
      otherwise the stored fixed-point rank converted back with `toFloat`; the node id is
      narrowed with an `(int)` cast, and an id outside the array throws. */
  function GetResult(store: ParallelStore, fp: FixedPoint, node: int): (r: Result<real>)
    ensures store.Uncomputed? ==> r == Success(0.0)
    ensures store.Computed? ==> (r.Success? <==> 0 <= Wrap32(node) < |store.dst|)
    ensures store.Computed? && 0 <= node <= MAX_INT && node < |store.dst| ==> r == Success(fp.toFloat(store.dst[node]))
    ensures r.Failure? ==> r.error == IndexOutOfBoundsException
  {
    match store
    case Uncomputed => Success(0.0)
    case Computed(dst) =>
      var i := Wrap32(node);
      if 0 <= i < |dst| then Success(fp.toFloat(dst[i])) else Failure(IndexOutOfBoundsException)
  }

  /** `(int) node` keeps only the low 32 bits of the id, so ids 2^32 apart read the same slot. */
  lemma GetResultWraps(store: ParallelStore, fp: FixedPoint, node: int)
    ensures GetResult(store, fp, node + TWO_32) == GetResult(store, fp, node)
  {
    WrapCongruent(node + TWO_32, node);
  }
}
