/** `PageRankArrayStorageSPI`: the sequential dense variant. Ranks live in arrays indexed by
    node id (`seq<real>` here); labels and types are kernel token ids. */
module ArrayStorage {
  import opened Errors
  import opened JavaInt
  import opened Graphs
  import opened PageRank

  /** Where the kernel reports a vanished entity (`EntityNotFoundException`): while the
      degrees are computed, or when visiting relationship `index` of pass `iteration`. */
  datatype Fault = DuringDegrees | DuringVisit(iteration: nat, index: nat)

  /** The `dst` field: null until `compute` first runs. */
  datatype DenseStore = Uncomputed | Computed(dst: seq<real>)

  /** The arrays one pass reads and writes. */
  datatype Ranks = Ranks(src: seq<real>, dst: seq<real>)

  // ---------------------------------------------------------------------------------------
  // computeDegrees

  /** Sum over the listed types of the outgoing-or-incoming degree of `v`. */
  function TypeDegreeSum(edges: seq<Edge<Int32>>, v: nat, typeIds: seq<Int32>): nat
  {
    if |typeIds| == 0 then 0
    else TypeDegreeSum(edges, v, typeIds[..|typeIds| - 1]) + DegreeOrIncoming(edges, v, typeIds[|typeIds| - 1])
  }

  /** Sum, over the listed labels that `v` carries (a repeated label counts again), of the
      type-degree sum of `v`. */
  function LabelTypeDegreeSum(edges: seq<Edge<Int32>>, v: nat, labels: set<Int32>, labelIds: seq<Int32>, typeIds: seq<Int32>): (r: nat)
    ensures Hits(labelIds, labels) == 0 || |typeIds| == 0 ==> r == 0
  {
    if |labelIds| == 0 then 0
    else
      LabelTypeDegreeSum(edges, v, labels, labelIds[..|labelIds| - 1], typeIds)
        + (if labelIds[|labelIds| - 1] in labels then TypeDegreeSum(edges, v, typeIds) else 0)
  }

  /** A slot after contributions adding up to `sum`: -1 until the first one arrives, which
      replaces it; later ones add. */
  function Settle(contributed: bool, sum: nat): int {
    if contributed then sum else -1
  }

  /** The value `computeDegrees` leaves for node `v`: -1 when `v` carries none of the labels
      (or no type is listed), otherwise one full type-degree sum per listed label it carries. */
  function ExpectedDegree(g: TokenGraph, v: nat, labelIds: seq<Int32>, typeIds: seq<Int32>): int
    requires g.Valid() && v < g.n
  {
    Settle(Hits(labelIds, g.labels[v]) > 0 && |typeIds| > 0,
           LabelTypeDegreeSum(g.edges, v, g.labels[v], labelIds, typeIds))
  }

  function ExpectedDegrees(g: TokenGraph, labelIds: seq<Int32>, typeIds: seq<Int32>): (r: seq<int>)
    requires g.Valid()
    ensures |r| == g.n && forall v :: 0 <= v < g.n ==> r[v] == ExpectedDegree(g, v, labelIds, typeIds)
  {
    seq(g.n, v requires 0 <= v < g.n => ExpectedDegree(g, v, labelIds, typeIds))
  }

  /** Slot of `v` part-way through label `i`: after types `..j`, and after type `j` too when
      `visited`. */
  ghost function Partial(g: TokenGraph, v: nat, labelIds: seq<Int32>, typeIds: seq<Int32>, i: nat, j: nat, visited: bool): int
    requires g.Valid() && v < g.n && i < |labelIds| && j <= |typeIds| && (visited ==> j < |typeIds|)
  {
    var here := labelIds[i] in g.labels[v];
    Settle((Hits(labelIds[..i], g.labels[v]) > 0 && |typeIds| > 0) || (here && j > 0) || visited,
           LabelTypeDegreeSum(g.edges, v, g.labels[v], labelIds[..i], typeIds)
           + (if here then TypeDegreeSum(g.edges, v, typeIds[..j]) else 0)
           + (if visited then DegreeOrIncoming(g.edges, v, typeIds[j]) else 0))
  }

  /** One contribution to a slot: it replaces a negative slot and adds to any other. */
  function Contribute(slot: int, degree: nat): int {
    if slot < 0 then degree else slot + degree
  }

  lemma PartialStart(g: TokenGraph, v: nat, labelIds: seq<Int32>, typeIds: seq<Int32>, i: nat)
    requires g.Valid() && v < g.n && i < |labelIds|
    ensures Partial(g, v, labelIds, typeIds, i, 0, false) == ExpectedDegree(g, v, labelIds[..i], typeIds)
  {
  }

  lemma PartialStep(g: TokenGraph, v: nat, labelIds: seq<Int32>, typeIds: seq<Int32>, i: nat, j: nat)
    requires g.Valid() && v < g.n && i < |labelIds| && j < |typeIds|
    ensures Partial(g, v, labelIds, typeIds, i, j + 1, false)
            == if labelIds[i] in g.labels[v]
               then Contribute(Partial(g, v, labelIds, typeIds, i, j, false), DegreeOrIncoming(g.edges, v, typeIds[j]))
               else Partial(g, v, labelIds, typeIds, i, j, false)
  {
    assert typeIds[..j + 1][..j] == typeIds[..j];
  }

  lemma PartialEnd(g: TokenGraph, v: nat, labelIds: seq<Int32>, typeIds: seq<Int32>, i: nat)
    requires g.Valid() && v < g.n && i < |labelIds|
    ensures Partial(g, v, labelIds, typeIds, i, |typeIds|, false) == ExpectedDegree(g, v, labelIds[..i + 1], typeIds)
  {
    assert typeIds[..|typeIds|] == typeIds;
    assert labelIds[..i + 1][..i] == labelIds[..i];
  }

  /** The innermost loop of `computeDegrees`: every node carrying `labelId` receives its
      degree for type `t`; no other slot changes. */
  method ContributeLabelType(g: TokenGraph, degrees: seq<int>, labelId: Int32, t: Int32) returns (r: seq<int>)
    requires g.Valid() && |degrees| == g.n
    ensures |r| == g.n
    ensures forall v :: 0 <= v < g.n ==>
              r[v] == if labelId in g.labels[v] then Contribute(degrees[v], DegreeOrIncoming(g.edges, v, t)) else degrees[v]
  {
    var nodes := NodesWithLabel(g, labelId);
    r := degrees;
    var k := 0;
    while k < |nodes|
      invariant 0 <= k <= |nodes|
      invariant |r| == g.n
      invariant forall v :: 0 <= v < g.n ==>
                  r[v] == if v in nodes[..k] then Contribute(degrees[v], DegreeOrIncoming(g.edges, v, t)) else degrees[v]
    {
      var node := nodes[k];
      var outDegree := DegreeOrIncoming(g.edges, node, t);
      assert node !in nodes[..k] by {
        forall m | 0 <= m < k ensures nodes[m] != node { }
      }
      if r[node] < 0 {
        r := r[node := outDegree];
      } else {
        r := r[node := r[node] + outDegree];
      }
      assert nodes[..k + 1] == nodes[..k] + [node];
      k := k + 1;
    }
    assert nodes[..k] == nodes;
  }

  /** `computeDegrees`: for each label, for each type, for each node carrying the label, add
      the node's outgoing degree of that type (its incoming degree when the outgoing one is
      not positive) into its slot, the first contribution replacing the initial -1. */
  method ComputeDegrees(g: TokenGraph, labelIds: seq<Int32>, typeIds: seq<Int32>) returns (degrees: seq<int>)
    requires g.Valid()
    ensures |degrees| == g.n
    ensures forall v :: 0 <= v < g.n ==> degrees[v] == ExpectedDegree(g, v, labelIds, typeIds)
  {
    degrees := seq(g.n, _ => -1);
    var i := 0;
    while i < |labelIds|
      invariant 0 <= i <= |labelIds|
      invariant |degrees| == g.n
      invariant forall v :: 0 <= v < g.n ==> degrees[v] == ExpectedDegree(g, v, labelIds[..i], typeIds)
    {
      forall v | 0 <= v < g.n ensures degrees[v] == Partial(g, v, labelIds, typeIds, i, 0, false) {
        PartialStart(g, v, labelIds, typeIds, i);
      }
      var j := 0;
      while j < |typeIds|
        invariant 0 <= j <= |typeIds|
        invariant |degrees| == g.n
        invariant forall v :: 0 <= v < g.n ==> degrees[v] == Partial(g, v, labelIds, typeIds, i, j, false)
      {
        degrees := ContributeLabelType(g, degrees, labelIds[i], typeIds[j]);
        forall v | 0 <= v < g.n ensures degrees[v] == Partial(g, v, labelIds, typeIds, i, j + 1, false) {
          PartialStep(g, v, labelIds, typeIds, i, j);
        }
        j := j + 1;
      }
      forall v | 0 <= v < g.n ensures degrees[v] == ExpectedDegree(g, v, labelIds[..i + 1], typeIds) {
        PartialEnd(g, v, labelIds, typeIds, i);
      }
      i := i + 1;
    }
    assert labelIds[..i] == labelIds;
  }

  /** A node is counted once per listed label it carries: a node carrying both labels gets
      twice the type-degree sum. */
  lemma {:induction false} DegreeCountsEachLabel(g: TokenGraph, v: nat, labelIds: seq<Int32>, typeIds: seq<Int32>)
    requires g.Valid() && v < g.n
    ensures var h := Hits(labelIds, g.labels[v]);
            ExpectedDegree(g, v, labelIds, typeIds)
            == if h > 0 && |typeIds| > 0 then h * TypeDegreeSum(g.edges, v, typeIds) else -1
  {
    LabelSumIsHitsTimesTypeSum(g.edges, v, g.labels[v], labelIds, typeIds);
  }

  lemma {:induction false} LabelSumIsHitsTimesTypeSum(edges: seq<Edge<Int32>>, v: nat, labels: set<Int32>,
                                                       labelIds: seq<Int32>, typeIds: seq<Int32>)
    ensures LabelTypeDegreeSum(edges, v, labels, labelIds, typeIds) == Hits(labelIds, labels) * TypeDegreeSum(edges, v, typeIds)
  {
    if |labelIds| > 0 {
      var init := labelIds[..|labelIds| - 1];
      LabelSumIsHitsTimesTypeSum(edges, v, labels, init, typeIds);
      if labelIds[|labelIds| - 1] in labels {
        MulSucc(Hits(init, labels), TypeDegreeSum(edges, v, typeIds));
      }
    }
  }

  /** The product of two positive counts is positive: a labelled node (h matching labels) with
      a positive type-degree sum s has a non-zero degree (used by `StartNodeDegreeNonZero`). */
  lemma MulPositive(h: nat, s: nat)
    requires h >= 1 && s >= 1
    ensures h * s >= 1
  {
    if h > 1 {
      MulPositive(h - 1, s);
      MulSucc(h - 1, s);
    }
  }

  /** One more matching label adds one more type-degree sum (the induction step of
      `LabelSumIsHitsTimesTypeSum`). */
  lemma MulSucc(h: nat, s: nat)
    ensures (h + 1) * s == h * s + s
  {
  }

  // ---------------------------------------------------------------------------------------
  // One iteration: startIteration, then the visitor over every relationship

  /** `startIteration`: a node with degree -1 keeps its `src`; every other node's `src` becomes
      `ALPHA * dst / degree`; then every `dst` entry, labeled or not, is reset to
      `ONE_MINUS_ALPHA`. */
  method StartIteration(src: seq<real>, dst: seq<real>, degrees: seq<int>, d: Damping) returns (src': seq<real>, dst': seq<real>)
    requires |src| == |dst| == |degrees|
    ensures |src'| == |dst'| == |src|
    ensures forall v :: 0 <= v < |src| && degrees[v] == -1 ==> src'[v] == src[v]
    ensures forall v :: 0 <= v < |src| && degrees[v] != -1 ==> src'[v] == Share(d, dst[v], degrees[v])
    ensures forall v :: 0 <= v < |dst| ==> dst'[v] == d.oneMinusAlpha
  {
    src' := src;
    var node := 0;
    while node < |src|
      invariant 0 <= node <= |src| && |src'| == |src|
      invariant forall v :: node <= v < |src| ==> src'[v] == src[v]
      invariant forall v :: 0 <= v < node && degrees[v] == -1 ==> src'[v] == src[v]
      invariant forall v :: 0 <= v < node && degrees[v] != -1 ==> src'[v] == Share(d, dst[v], degrees[v])
    {
      if degrees[node] != -1 {
        src' := src'[node := Share(d, dst[node], degrees[node])];
      }
      node := node + 1;
    }
    dst' := seq(|dst|, _ => d.oneMinusAlpha);
  }

  function StartIterationRef(r: Ranks, degrees: seq<int>, d: Damping): (r': Ranks)
    requires |r.src| == |r.dst| == |degrees|
    ensures |r'.src| == |r'.dst| == |degrees|
  {
    Ranks(seq(|r.src|, v requires 0 <= v < |r.src| =>
                if degrees[v] == -1 then r.src[v] else Share(d, r.dst[v], degrees[v])),
          seq(|r.dst|, _ => d.oneMinusAlpha))
  }

  /** The visitor: a relationship whose type is one of `typeIds` adds `src[start]` to
      `dst[end]`; nothing else changes. */
  function Visit(dst: seq<real>, src: seq<real>, typeIds: seq<Int32>, e: Edge<Int32>): (r: seq<real>)
    requires e.start < |src| && e.end < |dst|
    ensures |r| == |dst|
    ensures e.relType in typeIds ==> r[e.end] == dst[e.end] + src[e.start]
    ensures forall v :: 0 <= v < |dst| && (v != e.end || e.relType !in typeIds) ==> r[v] == dst[v]
  {
    if e.relType in typeIds then dst[e.end := dst[e.end] + src[e.start]] else dst
  }

  /** Total `src` carried into `v` by the relevant relationships of `edges`. */
  function Inflow(edges: seq<Edge<Int32>>, src: seq<real>, typeIds: seq<Int32>, v: nat): real
    requires forall i :: 0 <= i < |edges| ==> edges[i].start < |src|
  {
    if |edges| == 0 then 0.0
    else
      var e := edges[|edges| - 1];
      Inflow(edges[..|edges| - 1], src, typeIds, v) + (if e.end == v && e.relType in typeIds then src[e.start] else 0.0)
  }

  /** Visiting every relationship of `edges` in turn adds to each node exactly its inflow. */
  method Pass(dst: seq<real>, src: seq<real>, typeIds: seq<Int32>, edges: seq<Edge<Int32>>) returns (r: seq<real>)
    requires |src| == |dst| && EdgesWithin(edges, |dst|)
    ensures |r| == |dst|
    ensures forall v :: 0 <= v < |dst| ==> r[v] == dst[v] + Inflow(edges, src, typeIds, v)
  {
    r := dst;
    var k := 0;
    while k < |edges|
      invariant 0 <= k <= |edges| && |r| == |dst|
      invariant forall v :: 0 <= v < |dst| ==> r[v] == dst[v] + Inflow(edges[..k], src, typeIds, v)
    {
      r := Visit(r, src, typeIds, edges[k]);
      assert edges[..k + 1][..k] == edges[..k];
      k := k + 1;
    }
    assert edges[..k] == edges;
  }

  function PassRef(dst: seq<real>, src: seq<real>, typeIds: seq<Int32>, edges: seq<Edge<Int32>>): (r: seq<real>)
    requires |src| == |dst| && EdgesWithin(edges, |dst|)
    ensures |r| == |dst|
  {
    seq(|dst|, v requires 0 <= v < |dst| => dst[v] + Inflow(edges, src, typeIds, v))
  }

  /** The arrays after `k` complete iterations, both starting all-zero. */
  function Passes(g: TokenGraph, degrees: seq<int>, typeIds: seq<Int32>, d: Damping, k: nat): (r: Ranks)
    requires g.Valid() && |degrees| == g.n
    ensures |r.src| == |r.dst| == g.n
  {
    if k == 0 then Ranks(seq(g.n, _ => 0.0), seq(g.n, _ => 0.0))
    else
      var s := StartIterationRef(Passes(g, degrees, typeIds, d, k - 1), degrees, d);
      Ranks(s.src, PassRef(s.dst, s.src, typeIds, g.edges))
  }

  /** `dst` after `iterations` passes from all-zero arrays, or, when the kernel reports a
      vanished relationship at a visit that is reached, `dst` as that visit left it. */
  function IterationsRun(g: TokenGraph, degrees: seq<int>, typeIds: seq<Int32>, d: Damping, iterations: nat, fault: Option<Fault>): (r: seq<real>)
    requires g.Valid() && |degrees| == g.n
    ensures |r| == g.n
  {
    if fault.Some? && fault.value.DuringVisit? && fault.value.iteration < iterations && fault.value.index < |g.edges| then
      var s := StartIterationRef(Passes(g, degrees, typeIds, d, fault.value.iteration), degrees, d);
      PassRef(s.dst, s.src, typeIds, g.edges[..fault.value.index])
    else Passes(g, degrees, typeIds, d, iterations).dst
  }

  /** The `dst` array `compute` leaves behind: the fixed labels and types resolved through the
      label lookup, `iterations` passes (none when it is not positive), cut short where the
      kernel reports a vanished entity, since that exception is caught and only printed. */
  function DenseRun(g: TokenGraph, labelGetForName: string -> Int32, iterations: Int32, d: Damping, fault: Option<Fault>): (r: seq<real>)
    requires g.Valid()
    ensures |r| == g.n
  {
    var typeIds := Tokens(FIXED_TYPES, labelGetForName);
    var degrees := ExpectedDegrees(g, Tokens(FIXED_LABELS, labelGetForName), typeIds);
    if fault == Some(DuringDegrees) then seq(g.n, _ => 0.0)
    else IterationsRun(g, degrees, typeIds, d, if iterations <= 0 then 0 else iterations as nat, fault)
  }

  /** One iteration: `startIteration`, then the visitor over every relationship of `edges`. */
  method Iteration(before: Ranks, degrees: seq<int>, typeIds: seq<Int32>, d: Damping, edges: seq<Edge<Int32>>) returns (after: Ranks)
    requires |before.src| == |before.dst| == |degrees| && EdgesWithin(edges, |degrees|)
    ensures var s := StartIterationRef(before, degrees, d);
            after == Ranks(s.src, PassRef(s.dst, s.src, typeIds, edges))
  {
    var src, dst := StartIteration(before.src, before.dst, degrees, d);
    assert Ranks(src, dst) == StartIterationRef(before, degrees, d);
    dst := Pass(dst, src, typeIds, edges);
    after := Ranks(src, dst);
  }

  /** The iteration loop of `compute`, stopped by a vanished relationship if one is met. */
  method RunIterations(g: TokenGraph, degrees: seq<int>, typeIds: seq<Int32>, d: Damping, iterations: nat, fault: Option<Fault>)
    returns (dst: seq<real>)
    requires g.Valid() && |degrees| == g.n
    ensures dst == IterationsRun(g, degrees, typeIds, d, iterations, fault)
  {
    var ranks := Ranks(seq(g.n, _ => 0.0), seq(g.n, _ => 0.0));
    assert EdgesWithin(g.edges, g.n);
    var iteration := 0;
    while iteration < iterations
      invariant 0 <= iteration <= iterations
      invariant ranks == Passes(g, degrees, typeIds, d, iteration)
      invariant fault.Some? && fault.value.DuringVisit? && fault.value.index < |g.edges| ==> iteration <= fault.value.iteration
    {
      if fault.Some? && fault.value.DuringVisit? && fault.value.iteration == iteration && fault.value.index < |g.edges| {
        ranks := Iteration(ranks, degrees, typeIds, d, g.edges[..fault.value.index]);
        return ranks.dst;
      }
      ranks := Iteration(ranks, degrees, typeIds, d, g.edges);
      iteration := iteration + 1;
    }
    return ranks.dst;
  }

  /** `compute(label, type, iterations)`: `labelName` and `typeName` are never read; the fixed
      lists are used instead, and `iterations` is the number of passes. */
  method Compute(g: TokenGraph, labelGetForName: string -> Int32, labelName: string, typeName: string, iterations: Int32,
                 d: Damping, fault: Option<Fault>) returns (store: DenseStore)
    requires g.Valid()
    ensures store == Computed(DenseRun(g, labelGetForName, iterations, d, fault))
    ensures iterations <= 0 ==> forall v :: 0 <= v < g.n ==> store.dst[v] == 0.0
  {
    var labelIds := Tokens(FIXED_LABELS, labelGetForName);
    var typeIds := Tokens(FIXED_TYPES, labelGetForName);
    if fault == Some(DuringDegrees) {
      return Computed(seq(g.n, _ => 0.0));
    }
    var degrees := ComputeDegrees(g, labelIds, typeIds);
    assert degrees == ExpectedDegrees(g, labelIds, typeIds);
    var dst := RunIterations(g, degrees, typeIds, d, if iterations <= 0 then 0 else iterations as nat, fault);
    return Computed(dst);
  }

  /** Nothing flows along relationships whose start nodes all have `src` 0. */
  lemma {:induction false} InflowOfZeros(edges: seq<Edge<Int32>>, src: seq<real>, typeIds: seq<Int32>, v: nat)
    requires forall i :: 0 <= i < |edges| ==> edges[i].start < |src|
    requires forall i :: 0 <= i < |edges| && edges[i].relType in typeIds ==> src[edges[i].start] == 0.0
    ensures Inflow(edges, src, typeIds, v) == 0.0
  {
    if |edges| > 0 {
      InflowOfZeros(edges[..|edges| - 1], src, typeIds, v);
    }
  }

  /** The type-degree sum is at least the degree for any one of the types. */
  lemma {:induction false} TypeDegreeSumCovers(edges: seq<Edge<Int32>>, v: nat, typeIds: seq<Int32>, j: nat)
    requires j < |typeIds|
    ensures TypeDegreeSum(edges, v, typeIds) >= DegreeOrIncoming(edges, v, typeIds[j])
  {
    if j < |typeIds| - 1 {
      TypeDegreeSumCovers(edges, v, typeIds[..|typeIds| - 1], j);
    }
  }

  /** A node that starts a relationship of a listed type never has degree 0, so the division
      by a zero degree only ever happens at nodes whose `src` is never read. */
  lemma StartNodeDegreeNonZero(g: TokenGraph, labelIds: seq<Int32>, typeIds: seq<Int32>, i: nat)
    requires g.Valid() && i < |g.edges| && g.edges[i].relType in typeIds
    ensures ExpectedDegree(g, g.edges[i].start, labelIds, typeIds) != 0
  {
    var u := g.edges[i].start;
    DegreeCountsEachLabel(g, u, labelIds, typeIds);
    var h := Hits(labelIds, g.labels[u]);
    if h > 0 {
      var j :| 0 <= j < |typeIds| && typeIds[j] == g.edges[i].relType;
      assert OutDegree(g.edges, u, typeIds[j]) > 0;
      TypeDegreeSumCovers(g.edges, u, typeIds, j);
      var t := TypeDegreeSum(g.edges, u, typeIds);
      MulPositive(h, t);
    }
  }

  /** A node whose degree stays -1 never has its `src` written, so after any number of passes
      its `src` is still the initial 0 and it sends nothing along its relationships. */
  lemma {:induction false} UnlabeledSourceStaysZero(g: TokenGraph, degrees: seq<int>, typeIds: seq<Int32>, d: Damping, k: nat, v: nat)
    requires g.Valid() && |degrees| == g.n
    requires v < g.n && degrees[v] == -1
    ensures Passes(g, degrees, typeIds, d, k).src[v] == 0.0
  {
    if k > 0 {
      UnlabeledSourceStaysZero(g, degrees, typeIds, d, k - 1, v);
    }
  }

  /** In the first iteration every relationship of a listed type starts at a node whose `src`
      is still 0: its degree is not -1 (it was reset) and not 0 (it has this relationship). */
  lemma FirstSourcesSilent(g: TokenGraph, labelIds: seq<Int32>, typeIds: seq<Int32>, d: Damping)
    requires g.Valid()
    ensures var degrees := ExpectedDegrees(g, labelIds, typeIds);
            forall i :: 0 <= i < |g.edges| && g.edges[i].relType in typeIds ==>
              StartIterationRef(Passes(g, degrees, typeIds, d, 0), degrees, d).src[g.edges[i].start] == 0.0
  {
    var degrees := ExpectedDegrees(g, labelIds, typeIds);
    var s := StartIterationRef(Passes(g, degrees, typeIds, d, 0), degrees, d);
    forall i | 0 <= i < |g.edges| && g.edges[i].relType in typeIds ensures s.src[g.edges[i].start] == 0.0 {
      StartNodeDegreeNonZero(g, labelIds, typeIds, i);
    }
  }

  /** With no iteration every rank is 0; after exactly one, every rank is `ONE_MINUS_ALPHA`,
      because every `src` was still 0 when the relationships were visited. */
  lemma FirstIterations(g: TokenGraph, labelGetForName: string -> Int32, d: Damping)
    requires g.Valid()
    ensures forall v :: 0 <= v < g.n ==> DenseRun(g, labelGetForName, 0, d, None)[v] == 0.0
    ensures forall v :: 0 <= v < g.n ==> DenseRun(g, labelGetForName, 1, d, None)[v] == d.oneMinusAlpha
  {
    var typeIds := Tokens(FIXED_TYPES, labelGetForName);
    var degrees := ExpectedDegrees(g, Tokens(FIXED_LABELS, labelGetForName), typeIds);
    var s := StartIterationRef(Passes(g, degrees, typeIds, d, 0), degrees, d);
    FirstSourcesSilent(g, Tokens(FIXED_LABELS, labelGetForName), typeIds, d);
    forall v | 0 <= v < g.n ensures DenseRun(g, labelGetForName, 1, d, None)[v] == d.oneMinusAlpha {
      InflowOfZeros(g.edges, s.src, typeIds, v);
    }
  }

  /** `getResult(node)`: -1 before any `compute`, otherwise the `dst` entry at `(int) node`;
      an index outside the array throws. */
  function GetResult(store: DenseStore, node: int): (r: Result<real>)
    ensures store.Uncomputed? ==> r == Success(-1.0)
    ensures store.Computed? ==> (r.Success? <==> 0 <= Wrap32(node) < |store.dst|)
    ensures store.Computed? && 0 <= node <= MAX_INT && node < |store.dst| ==> r == Success(store.dst[node])
    ensures r.Failure? ==> r.error == IndexOutOfBoundsException
  {
    match store
    case Uncomputed => Success(-1.0)
    case Computed(dst) =>
      var i := Wrap32(node);
      if 0 <= i < |dst| then Success(dst[i]) else Failure(IndexOutOfBoundsException)
  }

  /** `(int) node` keeps only the low 32 bits of the id, so ids 2^32 apart read the same slot. */
  lemma GetResultWraps(store: DenseStore, node: int)
    ensures GetResult(store, node + TWO_32) == GetResult(store, node)
  {
    WrapCongruent(node + TWO_32, node);
  }
}
