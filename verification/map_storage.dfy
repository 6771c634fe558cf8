/** `PageRankMapStorage`: ranks kept in hash maps keyed by node id, over the nodes carrying the
    configured labels, each relationship weighted by the weight its type is configured with. */
module MapStorage {
  import opened Errors
  import opened JavaInt
  import opened Graphs
  import opened Collectors
  import opened Config
  import opened PageRank
  import opened NodeUtils

  /** A `Long2DoubleMap` from node id to rank (or to weight sum). */
  type RankMap = map<nat, real>

  /** `srcMap` and `dstMap`. */
  datatype Maps = Maps(src: RankMap, dst: RankMap)

  /** The maps after some relationship visits, and the exception that cut them short, if any. */
  datatype Step = Step(maps: Maps, thrown: Option<JavaException>)

  /** What `compute(config)` leaves in the `dstMap` field (`None` while it is null), and the
      exception it threw, if any. */
  datatype MapRun = MapRun(dstMap: Option<RankMap>, thrown: Option<JavaException>)

  /** The keys of `m` are exactly the listed nodes. */
  predicate KeyedBy(m: RankMap, nodes: seq<nat>) {
    (forall v :: v in m ==> v in nodes) && (forall i :: 0 <= i < |nodes| ==> nodes[i] in m)
  }

  // ---------------------------------------------------------------------------------------
  // The maps built before the first iteration

  /** `emptyNodeMap`: every node bound to 0.0; a node listed twice makes `toMap` throw. */
  function EmptyNodeMap(nodes: seq<nat>): (r: Result<RankMap>)
    ensures r.Success? <==> Distinct(nodes)
    ensures r.Failure? ==> r.error == IllegalStateException
    ensures r.Success? ==> KeyedBy(r.value, nodes) && forall v :: v in r.value ==> r.value[v] == 0.0
  {
    var r := ToMap(nodes, (v: nat) => v, (v: nat) => Success(0.0));
    assert r.Success? ==> forall v :: v in r.value <==> v in nodes by {
      if r.Success? {
        forall v ensures v in r.value <==> v in nodes {
          if v in nodes {
            var i :| 0 <= i < |nodes| && nodes[i] == v;
          }
        }
      }
    }
    r
  }

  /** `config.getWeights().get(rel.getType().name())` unboxed to a `double`: a null weight map,
      or a name without a weight, throws. */
  function RelationshipWeight(weights: Option<map<string, real>>, t: RelationshipType): (r: Result<real>)
    ensures r.Success? <==> weights.Some? && t.name in weights.value
    ensures r.Success? ==> r.value == weights.value[t.name]
    ensures r.Failure? ==> r.error == NullPointerException
  {
    if weights.None? || t.name !in weights.value then Failure(NullPointerException) else Success(weights.value[t.name])
  }

  /** The value `weightMap` computes for node `v`: the weights of its outgoing relationships of
      the listed types, summed. Unlike `NodeUtils`, a type without a weight is not skipped: it
      throws. */
  function StrictWeightSum(edges: seq<Edge<RelationshipType>>, v: nat, relTypes: seq<RelationshipType>,
                           weights: Option<map<string, real>>): (r: Result<real>)
    ensures r.Success? <==> forall i :: 0 <= i < |edges| && edges[i].start == v && edges[i].relType in relTypes ==>
                                          RelationshipWeight(weights, edges[i].relType).Success?
    ensures r.Failure? ==> r.error == NullPointerException
    ensures (forall i :: 0 <= i < |edges| ==> !(edges[i].start == v && edges[i].relType in relTypes)) ==> r == Success(0.0)
  {
    if |edges| == 0 then Success(0.0)
    else
      var e := edges[|edges| - 1];
      assert forall i :: 0 <= i < |edges| - 1 ==> edges[..|edges| - 1][i] == edges[i];
      var rest :- StrictWeightSum(edges[..|edges| - 1], v, relTypes, weights);
      if e.start == v && e.relType in relTypes then
        var w :- RelationshipWeight(weights, e.relType);
        Success(rest + w)
      else Success(rest)
  }

  /** The weight of each listed type, as far as the configuration gives one. */
  function ConfiguredWeights(relTypes: seq<RelationshipType>, weights: Option<map<string, real>>): map<RelationshipType, real> {
    if weights.None? then map[] else map t | t in relTypes && t.name in weights.value :: weights.value[t.name]
  }

  /** Where the map variant's sum succeeds, it is `NodeUtils`' weighted sum over the configured
      weights: the two differ only in that `NodeUtils` skips what this one throws on. */
  lemma {:induction false} StrictWeightSumAgrees(edges: seq<Edge<RelationshipType>>, v: nat, relTypes: seq<RelationshipType>,
                                                 weights: Option<map<string, real>>)
    requires StrictWeightSum(edges, v, relTypes, weights).Success?
    ensures StrictWeightSum(edges, v, relTypes, weights).value
              == EdgeWeightSumForNode(edges, v, relTypes, ConfiguredWeights(relTypes, weights))
  {
    if |edges| > 0 {
      StrictWeightSumAgrees(edges[..|edges| - 1], v, relTypes, weights);
    }
  }

  /** `weightMap`: one entry per node, holding its strict weight sum. With distinct nodes it
      throws exactly when some node's sum does, and then it is a null dereference. */
  function WeightMap(g: NamedGraph, nodes: seq<nat>, relTypes: seq<RelationshipType>,
                     weights: Option<map<string, real>>): (r: Result<RankMap>)
    ensures Distinct(nodes) ==>
              (r.Success? <==> forall i :: 0 <= i < |nodes| ==> StrictWeightSum(g.edges, nodes[i], relTypes, weights).Success?)
    ensures Distinct(nodes) && r.Failure? ==> r.error == NullPointerException
    ensures r.Success? ==> KeyedBy(r.value, nodes)
    ensures r.Success? ==> forall i :: 0 <= i < |nodes| ==>
              StrictWeightSum(g.edges, nodes[i], relTypes, weights).Success? &&
              r.value[nodes[i]] == StrictWeightSum(g.edges, nodes[i], relTypes, weights).value
  {
    var value := (v: nat) => StrictWeightSum(g.edges, v, relTypes, weights);
    var r := ToMap(nodes, (v: nat) => v, value);
    assert r.Success? ==> forall v :: v in r.value <==> v in nodes by {
      if r.Success? {
        forall v ensures v in r.value <==> v in nodes {
          if v in nodes {
            var i :| 0 <= i < |nodes| && nodes[i] == v;
          }
        }
      }
    }
    assert Distinct(nodes) && r.Failure? ==> r.error == NullPointerException by {
      if Distinct(nodes) && r.Failure? {
        var i :| 0 <= i < |nodes| && value(nodes[i]) == Failure(r.error);
      }
    }
    r
  }

  // ---------------------------------------------------------------------------------------
  // perform_iteration

  lemma DistinctPrefix(nodes: seq<nat>)
    requires |nodes| > 0 && Distinct(nodes)
    ensures Distinct(nodes[..|nodes| - 1]) && nodes[|nodes| - 1] !in nodes[..|nodes| - 1]
    ensures forall i :: 0 <= i < |nodes| - 1 ==> nodes[..|nodes| - 1][i] == nodes[i]
  {
    var init := nodes[..|nodes| - 1];
    forall i | 0 <= i < |init| ensures init[i] != nodes[|nodes| - 1] {
      assert init[i] == nodes[i];
    }
  }

  /** The first loop of `perform_iteration`: for each node, `src` becomes `ALPHA` times its
      `dst`, and then its `dst` becomes `ONE_MINUS_ALPHA`. */
  function ResetNodes(m: Maps, nodes: seq<nat>, d: Damping): (r: Maps)
    requires Distinct(nodes)
    requires forall i :: 0 <= i < |nodes| ==> nodes[i] in m.src && nodes[i] in m.dst
    ensures r.src.Keys == m.src.Keys && r.dst.Keys == m.dst.Keys
    ensures forall v :: v in m.dst ==> r.dst[v] == if v in nodes then d.oneMinusAlpha else m.dst[v]
    ensures forall v :: v in m.src && v in m.dst ==> r.src[v] == if v in nodes then d.alpha * m.dst[v] else m.src[v]
  {
    if |nodes| == 0 then m
    else
      var v := nodes[|nodes| - 1];
      var init := nodes[..|nodes| - 1];
      DistinctPrefix(nodes);
      var r := ResetNodes(m, init, d);
      ResetNodesStep(m, nodes, r, d);
      ResetOne(r, v, d)
  }

  /** Resetting the last node on top of the reset of the others resets them all. */
  lemma ResetNodesStep(m: Maps, nodes: seq<nat>, r: Maps, d: Damping)
    requires |nodes| > 0 && nodes[|nodes| - 1] in m.src && nodes[|nodes| - 1] in m.dst
    requires nodes[|nodes| - 1] !in nodes[..|nodes| - 1]
    requires r.src.Keys == m.src.Keys && r.dst.Keys == m.dst.Keys
    requires forall u :: u in m.dst ==> r.dst[u] == if u in nodes[..|nodes| - 1] then d.oneMinusAlpha else m.dst[u]
    requires forall u :: u in m.src && u in m.dst ==>
               r.src[u] == if u in nodes[..|nodes| - 1] then d.alpha * m.dst[u] else m.src[u]
    ensures forall u :: u in m.dst ==>
              ResetOne(r, nodes[|nodes| - 1], d).dst[u] == if u in nodes then d.oneMinusAlpha else m.dst[u]
    ensures forall u :: u in m.src && u in m.dst ==>
              ResetOne(r, nodes[|nodes| - 1], d).src[u] == if u in nodes then d.alpha * m.dst[u] else m.src[u]
  {
    var v := nodes[|nodes| - 1];
    var init := nodes[..|nodes| - 1];
    assert nodes == init + [v];
    var r' := ResetOne(r, v, d);
    forall u | u in m.dst ensures r'.dst[u] == if u in nodes then d.oneMinusAlpha else m.dst[u] {
      if u != v {
        assert u in nodes <==> u in init;
      }
    }
    forall u | u in m.src && u in m.dst ensures r'.src[u] == if u in nodes then d.alpha * m.dst[u] else m.src[u] {
      if u != v {
        assert u in nodes <==> u in init;
      }
    }
  }

  /** One node of that loop: `src[v] := ALPHA * dst[v]`, then `dst[v] := ONE_MINUS_ALPHA`. */
  function ResetOne(m: Maps, v: nat, d: Damping): (r: Maps)
    requires v in m.src && v in m.dst
    ensures r.src.Keys == m.src.Keys && r.dst.Keys == m.dst.Keys
    ensures r.src[v] == d.alpha * m.dst[v] && r.dst[v] == d.oneMinusAlpha
    ensures forall u :: u in m.src && u != v ==> r.src[u] == m.src[u]
    ensures forall u :: u in m.dst && u != v ==> r.dst[u] == m.dst[u]
  {
    Maps(m.src[v := d.alpha * m.dst[v]], m.dst[v := d.oneMinusAlpha])
  }

  /** One relationship of a listed type: the START node's entry is overwritten with the END
      node's rank plus the start's share, `src[start] * w / weightMap[start]`; nothing else changes. */
  function VisitEdge(m: Maps, e: Edge<RelationshipType>, w: real, wm: RankMap): (r: Maps)
    requires e.start in m.src && e.end in m.dst && e.start in wm && wm[e.start] != 0.0
    ensures r.src == m.src && r.dst.Keys == m.dst.Keys + {e.start}
    ensures r.dst[e.start] == m.dst[e.end] + m.src[e.start] * w / wm[e.start]
    ensures forall v :: v in m.dst && v != e.start ==> r.dst[v] == m.dst[v]
  {
    Maps(m.src, m.dst[e.start := m.dst[e.end] + m.src[e.start] * w / wm[e.start]])
  }

  /** Every relationship of a listed type joins two of `keys` and starts at a node whose weight
      sum is a usable divisor. */
  predicate Visitable(edges: seq<Edge<RelationshipType>>, relTypes: seq<RelationshipType>, keys: set<nat>, wm: RankMap) {
    forall i :: 0 <= i < |edges| && edges[i].relType in relTypes ==>
      edges[i].start in keys && edges[i].end in keys && edges[i].start in wm && wm[edges[i].start] != 0.0
  }

  lemma VisitablePrefix(edges: seq<Edge<RelationshipType>>, relTypes: seq<RelationshipType>, keys: set<nat>, wm: RankMap)
    requires |edges| > 0 && Visitable(edges, relTypes, keys, wm)
    ensures Visitable(edges[..|edges| - 1], relTypes, keys, wm)
    ensures forall i :: 0 <= i < |edges| - 1 ==> edges[..|edges| - 1][i] == edges[i]
  {
  }

  /** The second loop of `perform_iteration`, over all relationships in order: relationships of
      other types are skipped, and a missing weight throws and leaves the maps as they are at
      that point. Only start nodes of visited relationships change. */
  function VisitEdges(m: Maps, edges: seq<Edge<RelationshipType>>, relTypes: seq<RelationshipType>,
                      weights: Option<map<string, real>>, wm: RankMap): (r: Step)
    requires m.src.Keys == m.dst.Keys && Visitable(edges, relTypes, m.dst.Keys, wm)
    ensures r.maps.src == m.src && r.maps.dst.Keys == m.dst.Keys
    ensures forall v :: v in m.dst && (forall i :: 0 <= i < |edges| && edges[i].relType in relTypes ==> edges[i].start != v)
              ==> r.maps.dst[v] == m.dst[v]
    ensures r.thrown.Some? <==> exists i :: 0 <= i < |edges| && edges[i].relType in relTypes &&
                                            RelationshipWeight(weights, edges[i].relType).Failure?
    ensures r.thrown.Some? ==> r.thrown.value == NullPointerException
  {
    if |edges| == 0 then Step(m, None)
    else
      var e := edges[|edges| - 1];
      var init := edges[..|edges| - 1];
      VisitablePrefix(edges, relTypes, m.dst.Keys, wm);
      var s := VisitEdges(m, init, relTypes, weights, wm);
      if s.thrown.Some? || e.relType !in relTypes then s
      else
        match RelationshipWeight(weights, e.relType)
        case Failure(x) => Step(s.maps, Some(x))
        case Success(w) => Step(VisitEdge(s.maps, e, w, wm), None)
  }

  /** The maps after `k` calls of `perform_iteration`, both starting at `zeros`; the first
      exception ends the run. */
  function Iterations(g: NamedGraph, nodes: seq<nat>, relTypes: seq<RelationshipType>, weights: Option<map<string, real>>,
                      wm: RankMap, d: Damping, zeros: RankMap, k: nat): (r: Step)
    requires Distinct(nodes) && KeyedBy(zeros, nodes) && Visitable(g.edges, relTypes, zeros.Keys, wm)
    ensures r.maps.src.Keys == zeros.Keys && r.maps.dst.Keys == zeros.Keys
  {
    if k == 0 then Step(Maps(zeros, zeros), None)
    else
      var s := Iterations(g, nodes, relTypes, weights, wm, d, zeros, k - 1);
      if s.thrown.Some? then s
      else VisitEdges(ResetNodes(s.maps, nodes, d), g.edges, relTypes, weights, wm)
  }

  /** A run of iterations throws exactly when at least one iteration runs and some relationship
      of a listed type has no configured weight, and then it is a null dereference. */
  lemma {:induction false} IterationsThrowIff(g: NamedGraph, nodes: seq<nat>, relTypes: seq<RelationshipType>,
                                              weights: Option<map<string, real>>, wm: RankMap, d: Damping, zeros: RankMap, k: nat)
    requires Distinct(nodes) && KeyedBy(zeros, nodes) && Visitable(g.edges, relTypes, zeros.Keys, wm)
    ensures Iterations(g, nodes, relTypes, weights, wm, d, zeros, k).thrown.Some? <==>
              k > 0 && exists i :: 0 <= i < |g.edges| && g.edges[i].relType in relTypes &&
                                   RelationshipWeight(weights, g.edges[i].relType).Failure?
    ensures Iterations(g, nodes, relTypes, weights, wm, d, zeros, k).thrown.Some? ==>
              Iterations(g, nodes, relTypes, weights, wm, d, zeros, k).thrown.value == NullPointerException
  {
    if k > 0 {
      IterationsThrowIff(g, nodes, relTypes, weights, wm, d, zeros, k - 1);
    }
  }

  /** After at least one complete iteration, a listed node with no outgoing relationship of a
      listed type sits at `ONE_MINUS_ALPHA`, whatever points at it: updates land on start nodes. */
  lemma NoOutgoingEndsAtBase(g: NamedGraph, nodes: seq<nat>, relTypes: seq<RelationshipType>, weights: Option<map<string, real>>,
                             wm: RankMap, d: Damping, zeros: RankMap, k: nat, v: nat)
    requires Distinct(nodes) && KeyedBy(zeros, nodes) && Visitable(g.edges, relTypes, zeros.Keys, wm)
    requires k > 0 && Iterations(g, nodes, relTypes, weights, wm, d, zeros, k).thrown.None?
    requires v in nodes && forall i :: 0 <= i < |g.edges| && g.edges[i].relType in relTypes ==> g.edges[i].start != v
    ensures Iterations(g, nodes, relTypes, weights, wm, d, zeros, k).maps.dst[v] == d.oneMinusAlpha
  {
    var s := Iterations(g, nodes, relTypes, weights, wm, d, zeros, k - 1);
    assert s.thrown.None?;
    var reset := ResetNodes(s.maps, nodes, d);
    assert reset.dst[v] == d.oneMinusAlpha;
  }

  // ---------------------------------------------------------------------------------------
  // compute and getResult

  /** What the model needs of the graph and configuration: every relationship of a listed type
      joins two listed nodes, and its start node's weight sum is not zero (fastutil's 0.0 for
      an absent key and IEEE division by zero are outside the model). */
  predicate WellDefined(g: NamedGraph, config: PageRankConfig)
    requires g.Valid()
  {
    config.labels.Some? && config.relationships.Some? ==>
      var relTypes := RelationshipTypesWithLabels(config.relationships.value);
      && (forall i :: 0 <= i < |g.edges| && g.edges[i].relType in relTypes ==>
            Hits(config.labels.value, g.labels[g.edges[i].start]) > 0 && Hits(config.labels.value, g.labels[g.edges[i].end]) > 0)
      && (forall v: nat :: v < g.n && HasOutgoing(g.edges, v, relTypes) ==>
            StrictWeightSum(g.edges, v, relTypes, config.weights) != Success(0.0))
  }

  /** `v` has an outgoing relationship of one of the types. */
  predicate HasOutgoing(edges: seq<Edge<RelationshipType>>, v: nat, relTypes: seq<RelationshipType>) {
    exists i :: 0 <= i < |edges| && edges[i].start == v && edges[i].relType in relTypes
  }

  /** Under `WellDefined`, once both maps are built the relationships can be visited. */
  lemma WellDefinedVisitable(g: NamedGraph, config: PageRankConfig, zeros: RankMap, wm: RankMap)
    requires g.Valid() && WellDefined(g, config) && config.labels.Some? && config.relationships.Some?
    requires KeyedBy(zeros, NodesWithLabels(g, config.labels.value))
    requires WeightMap(g, NodesWithLabels(g, config.labels.value), RelationshipTypesWithLabels(config.relationships.value),
                       config.weights) == Success(wm)
    ensures Visitable(g.edges, RelationshipTypesWithLabels(config.relationships.value), zeros.Keys, wm)
  {
    var nodes := NodesWithLabels(g, config.labels.value);
    var relTypes := RelationshipTypesWithLabels(config.relationships.value);
    forall i | 0 <= i < |g.edges| && g.edges[i].relType in relTypes
      ensures g.edges[i].start in zeros && g.edges[i].end in zeros && g.edges[i].start in wm && wm[g.edges[i].start] != 0.0
    {
      var start := g.edges[i].start;
      assert start in nodes;
      var j :| 0 <= j < |nodes| && nodes[j] == start;
      assert HasOutgoing(g.edges, start, relTypes);
      assert wm[nodes[j]] == StrictWeightSum(g.edges, nodes[j], relTypes, config.weights).value;
    }
  }

  /** `compute(config)` from the point where both node maps are built: the relationship types,
      the weight map, then the iterations. Once the nodes are distinct, it throws exactly when
      some node's weight sum throws, or when an iteration runs and meets a relationship of a
      configured type without a weight; either way it is a null dereference. */
  function RunOnNodes(g: NamedGraph, config: PageRankConfig, d: Damping, nodes: seq<nat>, zeros: RankMap): (r: MapRun)
    requires g.Valid() && WellDefined(g, config) && config.labels.Some? && config.relationships.Some?
    requires nodes == NodesWithLabels(g, config.labels.value) && Distinct(nodes) && KeyedBy(zeros, nodes)
    ensures r.dstMap.Some? && r.dstMap.value.Keys == zeros.Keys
    ensures r.thrown.Some? ==> r.thrown.value == NullPointerException
    ensures config.iterations <= 0 && r.thrown.None? ==> r.dstMap == Some(zeros)
    ensures var relTypes := RelationshipTypesWithLabels(config.relationships.value);
            r.thrown.Some? <==>
              || (exists i :: 0 <= i < |nodes| && StrictWeightSum(g.edges, nodes[i], relTypes, config.weights).Failure?)
              || (config.iterations > 0 &&
                  exists i :: 0 <= i < |g.edges| && g.edges[i].relType in relTypes &&
                              RelationshipWeight(config.weights, g.edges[i].relType).Failure?)
  {
    var relTypes := RelationshipTypesWithLabels(config.relationships.value);
    var w := WeightMap(g, nodes, relTypes, config.weights);
    if w.Failure? then MapRun(Some(zeros), Some(w.error))
    else
      WellDefinedVisitable(g, config, zeros, w.value);
      var k: nat := if config.iterations < 0 then 0 else config.iterations;
      IterationsThrowIff(g, nodes, relTypes, config.weights, w.value, d, zeros, k);
      var s := Iterations(g, nodes, relTypes, config.weights, w.value, d, zeros, k);
      MapRun(Some(s.maps.dst), s.thrown)
  }

  /** The rank map holds exactly the nodes carrying at least one of `labels`. */
  ghost predicate KeyedByLabels(g: NamedGraph, m: RankMap, labels: seq<string>)
    requires g.Valid()
  {
    forall v: nat :: v in m <==> v < g.n && Hits(labels, g.labels[v]) > 0
  }

  /** A map keyed by the labelled node list holds exactly the nodes carrying a listed label. */
  lemma KeyedByLabelled(g: NamedGraph, labels: seq<string>, m: RankMap)
    requires g.Valid() && KeyedBy(m, NodesWithLabels(g, labels))
    ensures KeyedByLabels(g, m, labels)
  {
    var nodes := NodesWithLabels(g, labels);
    forall v: nat | v < g.n && Hits(labels, g.labels[v]) > 0 ensures v in m {
      assert v in nodes;
      var i :| 0 <= i < |nodes| && nodes[i] == v;
    }
  }

  /** `compute(config)`, given what `dstMap` held before (`None` while null). A null label list
      throws before anything is assigned; a node listed twice throws from the first
      `emptyNodeMap`, before `dstMap` is assigned; a null relationship list throws after. */
  function ComputeConfig(g: NamedGraph, config: PageRankConfig, d: Damping, before: Option<RankMap>): (r: MapRun)
    requires g.Valid() && WellDefined(g, config)
    ensures config.labels.None? ==> r == MapRun(before, Some(NullPointerException))
    ensures config.labels.Some? ==>
              (r.thrown == Some(IllegalStateException) <==> !Distinct(NodesWithLabels(g, config.labels.value)))
    ensures config.labels.Some? && !Distinct(NodesWithLabels(g, config.labels.value)) ==> r.dstMap == before
    ensures config.labels.Some? && Distinct(NodesWithLabels(g, config.labels.value)) ==>
              r.dstMap.Some? && KeyedByLabels(g, r.dstMap.value, config.labels.value)
    ensures config.labels.Some? && config.relationships.None? && Distinct(NodesWithLabels(g, config.labels.value)) ==>
              r.thrown == Some(NullPointerException) && forall v :: v in r.dstMap.value ==> r.dstMap.value[v] == 0.0
    ensures r.thrown.Some? ==> r.thrown.value in {NullPointerException, IllegalStateException}
  {
    if config.labels.None? then MapRun(before, Some(NullPointerException))
    else ComputeOnLabels(g, config, d, before)
  }

  /** `compute(config)` once the label list is known to be non-null: the nodes are listed, and
      `emptyNodeMap` either throws on a repeated node or gives `dstMap` its keys. */
  function ComputeOnLabels(g: NamedGraph, config: PageRankConfig, d: Damping, before: Option<RankMap>): (r: MapRun)
    requires g.Valid() && WellDefined(g, config) && config.labels.Some?
    ensures var nodes := NodesWithLabels(g, config.labels.value);
            && (r.thrown == Some(IllegalStateException) <==> !Distinct(nodes))
            && (!Distinct(nodes) ==> r.dstMap == before)
            && (Distinct(nodes) ==> r.dstMap.Some? && KeyedByLabels(g, r.dstMap.value, config.labels.value))
            && (Distinct(nodes) && config.relationships.None? ==>
                  r.thrown == Some(NullPointerException) && forall v :: v in r.dstMap.value ==> r.dstMap.value[v] == 0.0)
    ensures r.thrown.Some? ==> r.thrown.value == NullPointerException || r.thrown.value == IllegalStateException
  {
    var nodes := NodesWithLabels(g, config.labels.value);
    var empty := EmptyNodeMap(nodes);
    if empty.Failure? then
      assert !Distinct(nodes) && empty.error == IllegalStateException;
      MapRun(before, Some(IllegalStateException))
    else RunConfigured(g, config, d, nodes, empty.value)
  }

  /** The part of `compute(config)` after `dstMap` is assigned: a null relationship list
      throws at once, leaving every rank 0; otherwise the weighted run on the nodes. */
  function RunConfigured(g: NamedGraph, config: PageRankConfig, d: Damping, nodes: seq<nat>, zeros: RankMap): (r: MapRun)
    requires g.Valid() && WellDefined(g, config) && config.labels.Some?
    requires nodes == NodesWithLabels(g, config.labels.value) && Distinct(nodes) && KeyedBy(zeros, nodes)
    requires forall v :: v in zeros ==> zeros[v] == 0.0
    ensures r.dstMap.Some? && r.dstMap.value.Keys == zeros.Keys
    ensures KeyedByLabels(g, r.dstMap.value, config.labels.value)
    ensures r.thrown.Some? ==> r.thrown.value == NullPointerException
    ensures config.relationships.None? ==>
              r.thrown == Some(NullPointerException) && forall v :: v in r.dstMap.value ==> r.dstMap.value[v] == 0.0
  {
    KeyedByLabelled(g, config.labels.value, zeros);
    if config.relationships.None? then MapRun(Some(zeros), Some(NullPointerException))
    else RunOnNodes(g, config, d, nodes, zeros)
  }

  /** The rank map holds exactly the nodes carrying `labelName`. */
  ghost predicate KeyedByLabel(g: NamedGraph, m: RankMap, labelName: string)
    requires g.Valid()
  {
    forall v: nat :: v in m <==> v < g.n && labelName in g.labels[v]
  }

  /** `compute(label, type, iterations)`: one label, one type and a null weight map. */
  function Compute(g: NamedGraph, labelName: string, typeName: string, iterations: Int32, d: Damping,
                   before: Option<RankMap>): (r: MapRun)
    requires g.Valid() && WellDefined(g, NewConfig(Some([labelName]), Some([typeName]), iterations))
    ensures r.dstMap.Some? && KeyedByLabel(g, r.dstMap.value, labelName)
    ensures r.thrown.Some? ==> r.thrown == Some(NullPointerException)
  {
    SingleLabelNodes(g, labelName);
    assert Distinct(NodesWithLabels(g, [labelName]));
    ComputeConfig(g, NewConfig(Some([labelName]), Some([typeName]), iterations), d, before)
  }

  /** `getResult(node)`: -1 while `dstMap` is null and for an id it has no entry for. */
  function GetResult(dstMap: Option<RankMap>, node: int): (r: real)
    ensures dstMap.None? ==> r == -1.0
    ensures dstMap.Some? && node >= 0 && node in dstMap.value ==> r == dstMap.value[node]
    ensures dstMap.Some? && (node < 0 || node !in dstMap.value) ==> r == -1.0
  {
    if dstMap.Some? && node >= 0 && node in dstMap.value then dstMap.value[node] else -1.0
  }

  // ---------------------------------------------------------------------------------------
  // Properties of whole runs

  /** `initializeNodes` lists a node once per configured label it carries, so `emptyNodeMap`
      throws exactly when some node carries two of the labels, or carries a label that is
      configured twice. */
  lemma SharedNodeFails(g: NamedGraph, labels: seq<string>)
    requires g.Valid()
    ensures !Distinct(NodesWithLabels(g, labels)) <==> exists v :: 0 <= v < g.n && Hits(labels, g.labels[v]) >= 2
  {
    var nodes := NodesWithLabels(g, labels);
    DistinctIffSingleOccurrences(nodes);
    forall v: nat | v < g.n ensures multiset(NodesWithLabels(g, labels))[v] == Hits(labels, g.labels[v]) {
      NodesWithLabelsMultiplicity(g, labels, v);
    }
    forall x: nat | x >= g.n ensures multiset(NodesWithLabels(g, labels))[x] == 0 {
      assert x !in nodes;
    }
  }

  /** With no iteration, every listed node reads 0.0 and every other id reads -1. */
  lemma ZeroIterationsLeaveZeros(g: NamedGraph, config: PageRankConfig, d: Damping, before: Option<RankMap>)
    requires g.Valid() && WellDefined(g, config)
    requires config.labels.Some? && config.relationships.Some? && config.iterations <= 0
    requires Distinct(NodesWithLabels(g, config.labels.value))
    requires forall v :: 0 <= v < g.n && Hits(config.labels.value, g.labels[v]) > 0 ==>
               StrictWeightSum(g.edges, v, RelationshipTypesWithLabels(config.relationships.value), config.weights).Success?
    ensures ComputeConfig(g, config, d, before).thrown.None?
    ensures forall v: nat :: GetResult(ComputeConfig(g, config, d, before).dstMap, v)
                               == if v < g.n && Hits(config.labels.value, g.labels[v]) > 0 then 0.0 else -1.0
  {
    var nodes := NodesWithLabels(g, config.labels.value);
    var relTypes := RelationshipTypesWithLabels(config.relationships.value);
    var zeros := EmptyNodeMap(nodes).value;
    assert forall i :: 0 <= i < |nodes| ==> StrictWeightSum(g.edges, nodes[i], relTypes, config.weights).Success? by {
      forall i | 0 <= i < |nodes| ensures StrictWeightSum(g.edges, nodes[i], relTypes, config.weights).Success? {
        assert nodes[i] in nodes;
      }
    }
    assert ComputeConfig(g, config, d, before) == ComputeOnLabels(g, config, d, before);
    assert ComputeOnLabels(g, config, d, before) == RunConfigured(g, config, d, nodes, zeros);
    assert RunConfigured(g, config, d, nodes, zeros) == RunOnNodes(g, config, d, nodes, zeros);
  }

  /** After at least one iteration that ran through, a listed node with no outgoing relationship
      of a configured type reads `ONE_MINUS_ALPHA`, however many relationships end at it. */
  lemma RankWithoutOutgoing(g: NamedGraph, config: PageRankConfig, d: Damping, before: Option<RankMap>, v: nat)
    requires g.Valid() && WellDefined(g, config)
    requires config.labels.Some? && config.relationships.Some? && config.iterations > 0
    requires ComputeConfig(g, config, d, before).thrown.None?
    requires v < g.n && Hits(config.labels.value, g.labels[v]) > 0
    requires forall i :: 0 <= i < |g.edges| && g.edges[i].relType in RelationshipTypesWithLabels(config.relationships.value) ==>
               g.edges[i].start != v
    ensures GetResult(ComputeConfig(g, config, d, before).dstMap, v) == d.oneMinusAlpha
  {
    var nodes := NodesWithLabels(g, config.labels.value);
    var relTypes := RelationshipTypesWithLabels(config.relationships.value);
    var zeros := EmptyNodeMap(nodes).value;
    var wm := WeightMap(g, nodes, relTypes, config.weights).value;
    WellDefinedVisitable(g, config, zeros, wm);
    NoOutgoingEndsAtBase(g, nodes, relTypes, config.weights, wm, d, zeros, config.iterations, v);
  }

  /** Listing the nodes of one label: the list is that label's `findNodes` result, no node
      occurs twice, and a node is hit by the one-label list exactly when it carries the label. */
  predicate LabelListedOnce(g: NamedGraph, labelName: string)
    requires g.Valid()
  {
    && NodesWithLabels(g, [labelName]) == NodesWithLabel(g, labelName)
    && Distinct(NodesWithLabel(g, labelName))
    && forall v: nat :: v < g.n ==> (Hits([labelName], g.labels[v]) > 0 <==> labelName in g.labels[v])
  }

  lemma SingleLabelNodes(g: NamedGraph, labelName: string)
    requires g.Valid()
    ensures LabelListedOnce(g, labelName)
  {
    assert [labelName][..0] == [] && NodesWithLabels(g, []) == [];
    assert NodesWithLabels(g, [labelName]) == [] + NodesWithLabel(g, labelName);
  }

  /** Some node carrying the label has an outgoing relationship of the type. */
  predicate LabelledEdgeOfType(g: NamedGraph, labelName: string, typeName: string)
    requires g.Valid()
  {
    exists i :: 0 <= i < |g.edges| && g.edges[i].relType.name == typeName && labelName in g.labels[g.edges[i].start]
  }

  /** The three-argument `compute` configures no weights, so it throws, with a null dereference,
      exactly when some node carrying the label has an outgoing relationship of the type. */
  lemma ThreeArgumentThrowsIff(g: NamedGraph, labelName: string, typeName: string, iterations: Int32, d: Damping,
                               before: Option<RankMap>)
    requires g.Valid() && WellDefined(g, NewConfig(Some([labelName]), Some([typeName]), iterations))
    ensures var r := Compute(g, labelName, typeName, iterations, d, before);
              (r.thrown.Some? <==> LabelledEdgeOfType(g, labelName, typeName)) &&
              (r.thrown.Some? ==> r.thrown == Some(NullPointerException))
  {
    if LabelledEdgeOfType(g, labelName, typeName) {
      ThreeArgumentThrows(g, labelName, typeName, iterations, d, before);
    } else {
      ThreeArgumentRunsThrough(g, labelName, typeName, iterations, d, before);
    }
  }

  /** `Compute` is the configured run on the label's nodes. */
  lemma ThreeArgumentRun(g: NamedGraph, labelName: string, typeName: string, iterations: Int32, d: Damping,
                         before: Option<RankMap>)
    requires g.Valid() && WellDefined(g, NewConfig(Some([labelName]), Some([typeName]), iterations))
    ensures LabelListedOnce(g, labelName)
    ensures RelationshipTypesWithLabels([typeName]) == [RelationshipType(typeName)]
    ensures Compute(g, labelName, typeName, iterations, d, before)
            == RunOnNodes(g, NewConfig(Some([labelName]), Some([typeName]), iterations), d, NodesWithLabel(g, labelName),
                          EmptyNodeMap(NodesWithLabel(g, labelName)).value)
  {
    SingleLabelNodes(g, labelName);
  }

  lemma ThreeArgumentThrows(g: NamedGraph, labelName: string, typeName: string, iterations: Int32, d: Damping,
                            before: Option<RankMap>)
    requires g.Valid() && WellDefined(g, NewConfig(Some([labelName]), Some([typeName]), iterations))
    requires exists i :: 0 <= i < |g.edges| && g.edges[i].relType.name == typeName && labelName in g.labels[g.edges[i].start]
    ensures Compute(g, labelName, typeName, iterations, d, before).thrown == Some(NullPointerException)
  {
    ThreeArgumentRun(g, labelName, typeName, iterations, d, before);
    var j := LabelledEdgeBreaksWeightSum(g, labelName, typeName);
    LabelledNodeThrows(g, labelName, typeName, iterations, d, j);
  }

  /** A labelled node whose weight sum throws makes the run throw. */
  lemma LabelledNodeThrows(g: NamedGraph, labelName: string, typeName: string, iterations: Int32, d: Damping, j: nat)
    requires g.Valid() && WellDefined(g, NewConfig(Some([labelName]), Some([typeName]), iterations))
    requires LabelListedOnce(g, labelName)
    requires j < |NodesWithLabel(g, labelName)|
    requires StrictWeightSum(g.edges, NodesWithLabel(g, labelName)[j], [RelationshipType(typeName)], None).Failure?
    ensures RunOnNodes(g, NewConfig(Some([labelName]), Some([typeName]), iterations), d, NodesWithLabel(g, labelName),
                       EmptyNodeMap(NodesWithLabel(g, labelName)).value).thrown == Some(NullPointerException)
  {
    SingleRelationshipType(typeName);
  }

  lemma ThreeArgumentRunsThrough(g: NamedGraph, labelName: string, typeName: string, iterations: Int32, d: Damping,
                                 before: Option<RankMap>)
    requires g.Valid() && WellDefined(g, NewConfig(Some([labelName]), Some([typeName]), iterations))
    requires !exists i :: 0 <= i < |g.edges| && g.edges[i].relType.name == typeName && labelName in g.labels[g.edges[i].start]
    ensures Compute(g, labelName, typeName, iterations, d, before).thrown.None?
  {
    var nodes := NodesWithLabel(g, labelName);
    ThreeArgumentRun(g, labelName, typeName, iterations, d, before);
    NoEdgeOfType(g, labelName, typeName, iterations);
    QuietRun(g, NewConfig(Some([labelName]), Some([typeName]), iterations), d, nodes, EmptyNodeMap(nodes).value);
  }

  /** With no relationship of a configured type, the run throws nothing. */
  lemma QuietRun(g: NamedGraph, config: PageRankConfig, d: Damping, nodes: seq<nat>, zeros: RankMap)
    requires g.Valid() && WellDefined(g, config) && config.labels.Some? && config.relationships.Some?
    requires nodes == NodesWithLabels(g, config.labels.value) && Distinct(nodes) && KeyedBy(zeros, nodes)
    requires forall i :: 0 <= i < |g.edges| ==> g.edges[i].relType !in RelationshipTypesWithLabels(config.relationships.value)
    ensures RunOnNodes(g, config, d, nodes, zeros).thrown.None?
  {
  }

  /** Under `WellDefined` every relationship of the type starts at a node with the label; so
      when none does, there is no relationship of the type at all. */
  lemma NoEdgeOfType(g: NamedGraph, labelName: string, typeName: string, iterations: Int32)
    requires g.Valid() && WellDefined(g, NewConfig(Some([labelName]), Some([typeName]), iterations))
    requires !exists i :: 0 <= i < |g.edges| && g.edges[i].relType.name == typeName && labelName in g.labels[g.edges[i].start]
    ensures forall i :: 0 <= i < |g.edges| ==> g.edges[i].relType != RelationshipType(typeName)
    ensures forall i :: 0 <= i < |g.edges| ==> g.edges[i].relType !in RelationshipTypesWithLabels([typeName])
  {
    SingleLabelNodes(g, labelName);
    SingleRelationshipType(typeName);
    forall i | 0 <= i < |g.edges| ensures g.edges[i].relType != RelationshipType(typeName) {
      if g.edges[i].relType == RelationshipType(typeName) {
        assert false;
      }
    }
  }

  /** With no weights configured, a labelled node with an outgoing relationship of the type
      has a weight sum that throws. */
  lemma LabelledEdgeBreaksWeightSum(g: NamedGraph, labelName: string, typeName: string) returns (j: nat)
    requires g.Valid()
    requires exists i :: 0 <= i < |g.edges| && g.edges[i].relType.name == typeName && labelName in g.labels[g.edges[i].start]
    ensures j < |NodesWithLabel(g, labelName)| &&
              StrictWeightSum(g.edges, NodesWithLabel(g, labelName)[j], [RelationshipType(typeName)], None).Failure?
  {
    var i :| 0 <= i < |g.edges| && g.edges[i].relType.name == typeName && labelName in g.labels[g.edges[i].start];
    var nodes := NodesWithLabel(g, labelName);
    assert g.edges[i].start in nodes;
    j :| 0 <= j < |nodes| && nodes[j] == g.edges[i].start;
    assert g.edges[i].relType == RelationshipType(typeName);
    assert StrictWeightSum(g.edges, nodes[j], [RelationshipType(typeName)], None).Failure?;
  }
}
