/** `NodeUtils`: name-level helpers that resolve relationship types, collect the nodes carrying
    some labels, resolve per-type weights and sum the weighted outgoing relationships of nodes. */
module NodeUtils {
  import opened Errors
  import opened Graphs
  import opened Collectors

  /** `RelationshipType.withName(name)`; two types are equal exactly when their names are. */
  datatype RelationshipType = RelationshipType(name: string)

  /** A graph whose labels are names and whose relationships carry `RelationshipType`s. */
  type NamedGraph = Graph<string, RelationshipType>

  /** `getRelationshipTypesWithLabels`: one relationship type per name, in the same order. */
  function RelationshipTypesWithLabels(labels: seq<string>): (r: seq<RelationshipType>)
    ensures |r| == |labels|
    ensures forall i :: 0 <= i < |labels| ==> r[i].name == labels[i]
  {
    seq(|labels|, i requires 0 <= i < |labels| => RelationshipType(labels[i]))
  }

  lemma SingleRelationshipType(name: string)
    ensures RelationshipTypesWithLabels([name]) == [RelationshipType(name)]
  {
  }

  /** `getNodesWithLabels`: the nodes of each label in turn, concatenated, duplicates kept. */
  function NodesWithLabels(g: NamedGraph, labels: seq<string>): (r: seq<nat>)
    requires g.Valid()
    ensures forall v: nat :: v in r <==> v < g.n && Hits(labels, g.labels[v]) > 0
  {
    if |labels| == 0 then []
    else NodesWithLabels(g, labels[..|labels| - 1]) + NodesWithLabel(g, labels[|labels| - 1])
  }

  /** A node occurs in `getNodesWithLabels` once per listed label it carries: a node with two
      of the labels is listed twice. */
  lemma {:induction false} NodesWithLabelsMultiplicity(g: NamedGraph, labels: seq<string>, v: nat)
    requires g.Valid() && v < g.n
    ensures multiset(NodesWithLabels(g, labels))[v] == Hits(labels, g.labels[v])
  {
    if |labels| > 0 {
      NodesWithLabelsMultiplicity(g, labels[..|labels| - 1], v);
      IncreasingOccursOnce(NodesWithLabel(g, labels[|labels| - 1]), v);
    }
  }

  /** A sequence repeats no element exactly when every element occurs in it at most once. */
  lemma DistinctIffSingleOccurrences(s: seq<nat>)
    ensures (forall i, j :: 0 <= i < j < |s| ==> s[i] != s[j]) <==> (forall x :: multiset(s)[x] <= 1)
  {
    if forall i, j :: 0 <= i < j < |s| ==> s[i] != s[j] {
      forall x ensures multiset(s)[x] <= 1 {
        DistinctOccursOnce(s, x);
      }
    }
    if exists i, j :: 0 <= i < j < |s| && s[i] == s[j] {
      var i, j :| 0 <= i < j < |s| && s[i] == s[j];
      assert s == s[..j] + [s[j]] + s[j + 1..];
      assert s[i] in s[..j];
      assert multiset(s)[s[j]] >= 2;
    }
  }

  lemma {:induction false} DistinctOccursOnce(s: seq<nat>, x: nat)
    requires forall i, j :: 0 <= i < j < |s| ==> s[i] != s[j]
    ensures multiset(s)[x] <= 1
  {
    if |s| > 0 {
      var init := s[..|s| - 1];
      assert s == init + [s[|s| - 1]];
      DistinctOccursOnce(init, x);
      assert s[|s| - 1] !in init by {
        forall i | 0 <= i < |init| ensures init[i] != s[|s| - 1] {
          assert init[i] == s[i];
        }
      }
    }
  }

  /** `getEdgeWeightSumForNode`: the summed weight of the relationships leaving `v` whose type
      is one of `relTypes`; a type without an entry in `relWeights` is skipped. */
  function EdgeWeightSumForNode(edges: seq<Edge<RelationshipType>>, v: nat, relTypes: seq<RelationshipType>,
                                relWeights: map<RelationshipType, real>): (r: real)
    ensures (forall i :: 0 <= i < |edges| ==> !(edges[i].start == v && edges[i].relType in relTypes && edges[i].relType in relWeights))
              ==> r == 0.0
    ensures (forall t :: t in relWeights ==> relWeights[t] >= 0.0) ==> r >= 0.0
  {
    if |edges| == 0 then 0.0
    else
      var e := edges[|edges| - 1];
      EdgeWeightSumForNode(edges[..|edges| - 1], v, relTypes, relWeights)
        + (if e.start == v && e.relType in relTypes && e.relType in relWeights then relWeights[e.relType] else 0.0)
  }

  /** With every relevant type weighted 1.0 the weighted sum is the plain count of relevant
      outgoing relationships. */
  lemma {:induction false} UniformWeightsCountEdges(edges: seq<Edge<RelationshipType>>, v: nat, relTypes: seq<RelationshipType>,
                                                     relWeights: map<RelationshipType, real>)
    requires forall t :: t in relTypes ==> t in relWeights && relWeights[t] == 1.0
    ensures EdgeWeightSumForNode(edges, v, relTypes, relWeights) == |Outgoing(edges, v, relTypes)| as real
  {
    if |edges| > 0 {
      UniformWeightsCountEdges(edges[..|edges| - 1], v, relTypes, relWeights);
    }
  }

  /** `getEdgeWeightSumForNodes`: one entry per node, holding its weighted out-sum; a node
      listed twice makes `toMap` throw. */
  function EdgeWeightSumForNodes(g: NamedGraph, nodes: seq<nat>, relTypes: seq<RelationshipType>,
                                 relWeights: map<RelationshipType, real>): (r: Result<map<nat, real>>)
    ensures r.Success? <==> Distinct(nodes)
    ensures r.Failure? ==> r.error == IllegalStateException
    ensures r.Success? ==> r.value.Keys == set i | 0 <= i < |nodes| :: nodes[i]
    ensures r.Success? ==> forall v :: v in r.value ==> r.value[v] == EdgeWeightSumForNode(g.edges, v, relTypes, relWeights)
  {
    ToMap(nodes, (v: nat) => v, (v: nat) => Success(EdgeWeightSumForNode(g.edges, v, relTypes, relWeights)))
  }

  /** `getRelationshipTypeWeights`: each given type mapped to its configured weight, or to
      `defaultWeight` when its name has none. A null weight map throws on the first type; a
      type listed twice makes `toMap` throw. */
  function RelationshipTypeWeights(relTypes: seq<RelationshipType>, weights: Option<map<string, real>>,
                                   defaultWeight: real): (r: Result<map<RelationshipType, real>>)
    ensures weights.Some? ==>
              (r.Success? <==> forall i, j :: 0 <= i < j < |relTypes| ==> relTypes[i] != relTypes[j])
    ensures weights.Some? && r.Failure? ==> r.error == IllegalStateException
    ensures weights.None? ==> (r.Success? <==> |relTypes| == 0)
    ensures weights.None? && r.Failure? ==> r.error == NullPointerException
    ensures r.Success? ==> r.value.Keys == set i | 0 <= i < |relTypes| :: relTypes[i]
    ensures r.Success? ==> forall t :: t in r.value ==>
              r.value[t] == (if t.name in weights.value then weights.value[t.name] else defaultWeight)
  {
    ToMap(relTypes, (t: RelationshipType) => t,
          (t: RelationshipType) =>
            if weights.None? then Failure(NullPointerException)
            else if t.name in weights.value then Success(weights.value[t.name])
            else Success(defaultWeight))
  }
}
