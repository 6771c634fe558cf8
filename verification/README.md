# PageRank over a labelled property graph, modelled in Dafny

This project models the PageRank procedures of a Neo4j extension. The modelled code is
`NodeUtils`, `PageRankConfig` and the three `PageRank` implementations:

- `PageRankArrayStorageSPI`: sequential. Ranks are `float` arrays indexed by node id.
- `PageRankArrayStorageParallelSPI`: parallel. Ranks are fixed-point `int`s held in an
  `AtomicIntegerArray`.
- `PageRankMapStorage`: ranks are hash maps keyed by node id. Each relationship is weighted
  by the weight configured for its type.

The graph is an immutable value. It has nodes `0..n-1`, each with a set of labels, and a
sequence of typed, directed relationships (`Graphs.Graph`, in `graph.dfy`).

- The two array variants see labels and types as kernel token ids.
- `NodeUtils` and the map variant see them as names.

Every Java exception the modelled code can throw is a value: `Errors.Result`, or the `thrown`
field of a run record. These are `NullPointerException`, `IllegalStateException` (from
`Collectors.toMap` on a repeated key) and `IndexOutOfBoundsException`.

Files:

- `errors.dfy`: `Result`, `Option` and the exception kinds.
- `java_int.dfy`: the range of a Java `int` and its 32-bit wrap-around.
- `graph.dfy`: the graph, label lookup by node, and relationship degrees.
- `collectors.dfy`: `Collectors.toMap` as written. Values are computed in order. A repeated key
  throws.
- `config.dfy`: `PageRankConfig`. Every field of reference type may be null.
- `pagerank.dfy`: the damping constants, and the label and type lists that both array variants
  hard-code.
- `node_utils.dfy`: `NodeUtils`.
- `array_storage.dfy`: `PageRankArrayStorageSPI`.
- `parallel_storage.dfy`: `PageRankArrayStorageParallelSPI`. The worker pool is a schedule: the
  order in which the work units ran.
- `map_storage.dfy`: `PageRankMapStorage`.

Behaviour the model reproduces exactly as the code has it:

- Both array variants ignore the label and type they are given. They always use the labels
  `Profile` and `Project` and the types `FOLLOWS`, `COMMENTED_ON` and `LICENSED`. They
  resolve the type names through the label lookup (`labelGetForName`).
- The parallel variant always runs 200 passes, whatever iteration count it is given.
- In both array variants, a node whose degree is still -1 is skipped by `startIteration`.
  - Sequential variant: such a node's `src` stays 0, and `Arrays.fill` still resets its `dst`.
  - Parallel variant: neither its `src` nor its `dst` is ever reset.
- The parallel variant builds degrees by merging collected entries. The merge reads
  `degree[e[1]]`: the slot indexed by the degree, not the degree itself. A degree as large as
  the node count is an index out of range. Every slot starts at -1 and every slot the merge
  copies from is still -1, so the add branch never runs and a merge that does not throw
  leaves every node at degree -1.
- Consequently the parallel `compute` never ranks anything: `startIteration` skips every
  node, `src` stays 0, every pass adds 0, and every rank stays 0, on every graph and for
  every interleaving of the work units (or the merge throws, with every rank 0 too).
- In the map variant, a relationship's update is written into its START node:
  `dstMap[start] := dstMap[end] + share`. Each visit overwrites the previous one.
- The map variant's weight sums do not default a missing weight. A null weight map, or a type
  without a weight, throws `NullPointerException`. In particular, the three-argument `compute`
  configures no weights, so it throws whenever a listed node has an outgoing relationship of
  the type.
- A node carrying two of the configured labels is listed twice. The map variant's first
  `toMap` then throws `IllegalStateException`.

Further facts about the code that a reader might not expect:

- Node lists keep duplicates: a node is listed once per configured label it carries.
- Zero iterations leave every rank at 0.
- The map variant has no default weight: a missing weight throws.
- The parallel variant's `getResult` returns 0 before any `compute`, where the sequential
  variant returns -1.

## Model

| member | source | states |
|---|---|---|
| NodeUtils.RelationshipTypesWithLabels | src/main/java/com/maxdemarzi/processing/pagerank/NodeUtils.java:19-23 | one relationship type per name, same length, the i-th named by the i-th name |
| NodeUtils.NodesWithLabels | src/main/java/com/maxdemarzi/processing/pagerank/NodeUtils.java:25-29 | a node is listed exactly when it exists and carries at least one of the labels |
| NodeUtils.NodesWithLabelsMultiplicity | src/main/java/com/maxdemarzi/processing/pagerank/NodeUtils.java:25-29 | a node is listed once per listed label it carries, so duplicates are kept |
| NodeUtils.EdgeWeightSumForNode | src/main/java/com/maxdemarzi/processing/pagerank/NodeUtils.java:38-43 | the sum is 0 when no outgoing relationship of a listed type has a weight, and is non-negative when all weights are |
| NodeUtils.UniformWeightsCountEdges | src/main/java/com/maxdemarzi/processing/pagerank/NodeUtils.java:38-43 | with every listed type weighted 1.0, the weighted sum is the count of the node's outgoing relationships of those types |
| NodeUtils.EdgeWeightSumForNodes | src/main/java/com/maxdemarzi/processing/pagerank/NodeUtils.java:31-36 | succeeds iff no node is listed twice, otherwise IllegalState; the keys are the listed nodes, each bound to its own weight sum |
| NodeUtils.RelationshipTypeWeights | src/main/java/com/maxdemarzi/processing/pagerank/NodeUtils.java:45-53 | each type is bound to its configured weight or to the default; a repeated type gives IllegalState; a null weight map fails, with NPE, unless the type list is empty |
| Collectors.ToMap | src/main/java/com/maxdemarzi/processing/pagerank/NodeUtils.java:33-35 | succeeds iff keys are distinct and every value succeeds; the keys are the elements' keys, bound to their values; with all values computed a failure is IllegalState; with distinct keys a failure is some element's own exception; when the first element's value throws, that exception is what the collector throws |
| Config.NewConfig | src/main/java/com/maxdemarzi/processing/pagerank/PageRankConfig.java:23-27 | the three-argument constructor leaves the weight map null |
| Config.DefaultConfig | src/main/java/com/maxdemarzi/processing/pagerank/PageRankConfig.java:29 | the no-argument constructor leaves labels, types and weights null and the iteration count 0 |
| Config.GetLabels | src/main/java/com/maxdemarzi/processing/pagerank/PageRankConfig.java:31-33 | storing back the returned labels leaves the configuration unchanged |
| Config.GetRelationships | src/main/java/com/maxdemarzi/processing/pagerank/PageRankConfig.java:35-37 | storing back the returned types leaves the configuration unchanged |
| Config.GetIterations | src/main/java/com/maxdemarzi/processing/pagerank/PageRankConfig.java:39-41 | storing back the returned count leaves the configuration unchanged |
| Config.GetWeights | src/main/java/com/maxdemarzi/processing/pagerank/PageRankConfig.java:65-67 | storing back the returned weight map leaves the configuration unchanged |
| Config.SetLabels | src/main/java/com/maxdemarzi/processing/pagerank/PageRankConfig.java:43-45 | the labels are the given ones; types, weights and count are unchanged |
| Config.SetRelationships | src/main/java/com/maxdemarzi/processing/pagerank/PageRankConfig.java:47-49 | the types are the given ones; labels, weights and count are unchanged |
| Config.SetIterations | src/main/java/com/maxdemarzi/processing/pagerank/PageRankConfig.java:51-53 | the count is the given one; labels, types and weights are unchanged |
| Config.SetWeights | src/main/java/com/maxdemarzi/processing/pagerank/PageRankConfig.java:69-71 | the weight map is the given one; labels, types and count are unchanged |
| Config.ConstructorGetters | src/main/java/com/maxdemarzi/processing/pagerank/PageRankConfig.java:23-41 | the getters return the constructor's arguments, and the weights stay null |
| Config.GetAfterSet | src/main/java/com/maxdemarzi/processing/pagerank/PageRankConfig.java:43-71 | each getter returns what its setter stored last |
| Config.SettersFrame | src/main/java/com/maxdemarzi/processing/pagerank/PageRankConfig.java:43-71 | each setter leaves the other three fields unchanged |
| PageRank.Tokens | src/main/java/com/maxdemarzi/processing/pagerank/PageRankArrayStorageSPI.java:46-47 | one token per name, in order, each the label lookup of its name |
| Graphs.DegreeOrIncoming | src/main/java/com/maxdemarzi/processing/pagerank/PageRankArrayStorageSPI.java:92-96 | the outgoing degree when positive, otherwise the incoming degree; 0 exactly when the node has neither outgoing nor incoming relationships of the type |
| ArrayStorage.ContributeLabelType | src/main/java/com/maxdemarzi/processing/pagerank/PageRankArrayStorageSPI.java:88-103 | each node carrying the label has its slot replaced (when negative) or increased by its degree for the type; every other slot is unchanged |
| ArrayStorage.ComputeDegrees | src/main/java/com/maxdemarzi/processing/pagerank/PageRankArrayStorageSPI.java:81-108 | the loop's result equals the reference degree of every node |
| ArrayStorage.DegreeCountsEachLabel | src/main/java/com/maxdemarzi/processing/pagerank/PageRankArrayStorageSPI.java:85-106 | a node's degree is -1 when it carries none of the labels (or no type is listed), otherwise its type-degree sum times the number of listed labels it carries |
| ArrayStorage.StartIteration | src/main/java/com/maxdemarzi/processing/pagerank/PageRankArrayStorageSPI.java:73-79 | nodes of degree -1 keep their `src`; every other node's `src` becomes `ALPHA * dst / degree` (the unspecified non-finite value for degree 0); every `dst` becomes `ONE_MINUS_ALPHA` |
| ArrayStorage.Visit | src/main/java/com/maxdemarzi/processing/pagerank/PageRankArrayStorageSPI.java:51-57 | a relationship of a listed type adds `src[start]` to `dst[end]`; nothing else changes |
| ArrayStorage.Pass | src/main/java/com/maxdemarzi/processing/pagerank/PageRankArrayStorageSPI.java:62-65 | after visiting every relationship, each node's `dst` has grown by exactly its inflow from relevant relationships |
| ArrayStorage.Iteration | src/main/java/com/maxdemarzi/processing/pagerank/PageRankArrayStorageSPI.java:59-66 | one iteration equals the reference start-iteration followed by the reference pass |
| ArrayStorage.RunIterations | src/main/java/com/maxdemarzi/processing/pagerank/PageRankArrayStorageSPI.java:59-70 | the iteration loop equals the reference run, including a run cut short by a vanished relationship |
| ArrayStorage.Compute | src/main/java/com/maxdemarzi/processing/pagerank/PageRankArrayStorageSPI.java:33-71 | `compute` leaves the reference dense run in `dst`, whatever label and type it is given; with no iteration every rank is 0 |
| ArrayStorage.UnlabeledSourceStaysZero | src/main/java/com/maxdemarzi/processing/pagerank/PageRankArrayStorageSPI.java:73-77 | a node of degree -1 keeps `src` 0 through any number of passes |
| ArrayStorage.StartNodeDegreeNonZero | src/main/java/com/maxdemarzi/processing/pagerank/PageRankArrayStorageSPI.java:81-108 | a node that starts a relationship of a listed type never has degree 0, so a division by a zero degree never feeds the visitor |
| ArrayStorage.FirstSourcesSilent | src/main/java/com/maxdemarzi/processing/pagerank/PageRankArrayStorageSPI.java:73-79 | in the first iteration every relationship of a listed type starts at a node whose `src` is 0 |
| ArrayStorage.FirstIterations | src/main/java/com/maxdemarzi/processing/pagerank/PageRankArrayStorageSPI.java:59-79 | with no iteration every rank is 0; after exactly one, every rank is `ONE_MINUS_ALPHA` |
| ArrayStorage.GetResult | src/main/java/com/maxdemarzi/processing/pagerank/PageRankArrayStorageSPI.java:110-113 | -1 before any `compute`; otherwise the entry at `(int) node`, and an index out of range exactly when the cast id is outside the array |
| ArrayStorage.GetResultWraps | src/main/java/com/maxdemarzi/processing/pagerank/PageRankArrayStorageSPI.java:112 | node ids 2^32 apart give the same result, because `(int) node` keeps the low 32 bits |
| ParallelStorage.NodeEntries | src/main/java/com/maxdemarzi/processing/pagerank/PageRankArrayStorageParallelSPI.java:100-109 | one `{id, deg}` entry per listed type, in type order, each with the outgoing-or-incoming degree |
| ParallelStorage.DegreeEntriesShape | src/main/java/com/maxdemarzi/processing/pagerank/PageRankArrayStorageParallelSPI.java:95-111 | an entry is collected iff its node carries a listed label and its degree is the node's degree for some listed type |
| ParallelStorage.EntryExistsIff | src/main/java/com/maxdemarzi/processing/pagerank/PageRankArrayStorageParallelSPI.java:95-111 | a node gets an entry iff it carries a listed label and some type is listed |
| ParallelStorage.MergeStep | src/main/java/com/maxdemarzi/processing/pagerank/PageRankArrayStorageParallelSPI.java:114-118 | only the entry's node slot changes; a slot at -1 takes the value of slot `degree[e[1]]`; any other slot adds it modulo 2^32, exactly when the sum fits in an `int` |
| ParallelStorage.Merge | src/main/java/com/maxdemarzi/processing/pagerank/PageRankArrayStorageParallelSPI.java:113-120 | succeeds iff every entry's node and degree index the array, otherwise index out of range; when it succeeds every node's degree is -1 |
| ParallelStorage.MergeDegrees | src/main/java/com/maxdemarzi/processing/pagerank/PageRankArrayStorageParallelSPI.java:113-120 | the merge loop equals the reference merge |
| ParallelStorage.MergeFailureSticks | src/main/java/com/maxdemarzi/processing/pagerank/PageRankArrayStorageParallelSPI.java:113-120 | once an entry is out of range, the whole merge throws, whatever follows |
| ParallelStorage.MergeReadsSlotOfDegree | src/main/java/com/maxdemarzi/processing/pagerank/PageRankArrayStorageParallelSPI.java:115 | a single entry `{0, 2}` on three nodes leaves node 0 at -1: the copied value is slot 2, not the degree 2 |
| ParallelStorage.MergeDegreeOutOfRange | src/main/java/com/maxdemarzi/processing/pagerank/PageRankArrayStorageParallelSPI.java:115 | an entry whose degree equals the node count throws index out of range |
| ParallelStorage.StartIteration | src/main/java/com/maxdemarzi/processing/pagerank/PageRankArrayStorageParallelSPI.java:80-86 | nodes of degree -1 keep both `src` and `dst`; every other node gets `dst = ONE_MINUS_ALPHA_INT` and `src = toInt(ALPHA * toFloat(old dst) / degree)`, the quotient being the unspecified non-finite value for degree 0 |
| ParallelStorage.Visit | src/main/java/com/maxdemarzi/processing/pagerank/PageRankArrayStorageParallelSPI.java:62-66 | a relationship of a listed type adds `src[start]` to `dst[end]` with 32-bit wrap-around; nothing else changes |
| ParallelStorage.InflowPermutation | src/main/java/com/maxdemarzi/processing/pagerank/PageRankArrayStorageParallelSPI.java:71-72 | the total carried into a node does not depend on the order in which the pool visits the relationships |
| ParallelStorage.Pass | src/main/java/com/maxdemarzi/processing/pagerank/PageRankArrayStorageParallelSPI.java:71-72 | visiting the relationships in any order adds to each node its exact inflow, wrapped once to 32 bits |
| ParallelStorage.PassAnyOrder | src/main/java/com/maxdemarzi/processing/pagerank/PageRankArrayStorageParallelSPI.java:71-72 | a pass in any rearrangement of the relationships ends where a pass in graph order does |
| ParallelStorage.Iteration | src/main/java/com/maxdemarzi/processing/pagerank/PageRankArrayStorageParallelSPI.java:68-73 | one iteration in any visiting order equals the reference start-iteration followed by the reference pass |
| ParallelStorage.RunPasses | src/main/java/com/maxdemarzi/processing/pagerank/PageRankArrayStorageParallelSPI.java:68-73 | whatever the schedule, the loop ends at the reference state after 200 passes |
| ParallelStorage.ParallelRun | src/main/java/com/maxdemarzi/processing/pagerank/PageRankArrayStorageParallelSPI.java:44-78 | `dst` is allocated with one entry per node; the run throws iff the degree merge does, and then it is index out of range; either way every rank is 0 |
| ParallelStorage.Compute | src/main/java/com/maxdemarzi/processing/pagerank/PageRankArrayStorageParallelSPI.java:44-78 | for any interleaving of the degree work units and any visiting schedule, `compute` equals the reference run, so every rank is 0; the label, type and iteration count are ignored |
| ParallelStorage.UnlabeledDegreeStaysMinusOne | src/main/java/com/maxdemarzi/processing/pagerank/PageRankArrayStorageParallelSPI.java:88-123 | a node carrying none of the labels (or any node, when no type is listed) keeps degree -1, as every node does |
| ParallelStorage.UnresetSourceStaysZero | src/main/java/com/maxdemarzi/processing/pagerank/PageRankArrayStorageParallelSPI.java:80-86 | a node of degree -1 keeps `src` 0 through any number of passes |
| ParallelStorage.UnresetRankAccumulates | src/main/java/com/maxdemarzi/processing/pagerank/PageRankArrayStorageParallelSPI.java:80-86 | for any degree array, a node of degree -1 is never reset: each pass adds its inflow to its previous `dst` |
| ParallelStorage.InflowOfZeros | src/main/java/com/maxdemarzi/processing/pagerank/PageRankArrayStorageParallelSPI.java:62-66 | with every `src` 0, no relationship carries anything into any node |
| ParallelStorage.UnrankedPassesStayZero | src/main/java/com/maxdemarzi/processing/pagerank/PageRankArrayStorageParallelSPI.java:68-86 | when every degree is -1, `src` and `dst` stay 0 through any number of passes |
| ParallelStorage.GetResult | src/main/java/com/maxdemarzi/processing/pagerank/PageRankArrayStorageParallelSPI.java:125-128 | 0 before any `compute`; otherwise `toFloat` of the entry at `(int) node`, and an index out of range exactly when the cast id is outside the array |
| ParallelStorage.GetResultWraps | src/main/java/com/maxdemarzi/processing/pagerank/PageRankArrayStorageParallelSPI.java:127 | node ids 2^32 apart give the same result, because `(int) node` keeps the low 32 bits |
| MapStorage.EmptyNodeMap | src/main/java/com/maxdemarzi/processing/pagerank/PageRankMapStorage.java:52-54 | succeeds iff no node is listed twice, otherwise IllegalState; every listed node is bound to 0.0 |
| MapStorage.RelationshipWeight | src/main/java/com/maxdemarzi/processing/pagerank/PageRankMapStorage.java:71 | the configured weight of the type's name; a null map or a missing name is a null dereference |
| MapStorage.StrictWeightSum | src/main/java/com/maxdemarzi/processing/pagerank/PageRankMapStorage.java:68-73 | succeeds iff every relevant outgoing relationship has a weight, otherwise NPE; 0.0 when there is no relevant outgoing relationship |
| MapStorage.StrictWeightSumAgrees | src/main/java/com/maxdemarzi/processing/pagerank/PageRankMapStorage.java:62-74 | where it succeeds, the map variant's sum equals the `NodeUtils` weighted sum over the configured weights |
| MapStorage.WeightMap | src/main/java/com/maxdemarzi/processing/pagerank/PageRankMapStorage.java:62-74 | with distinct nodes it succeeds iff every node's sum does, otherwise NPE; the keys are the nodes, each bound to its own sum |
| MapStorage.SharedNodeFails | src/main/java/com/maxdemarzi/processing/pagerank/PageRankMapStorage.java:76-80 | the node list repeats a node iff some node carries two of the labels, counting a label listed twice |
| MapStorage.ResetNodes | src/main/java/com/maxdemarzi/processing/pagerank/PageRankMapStorage.java:86-89 | each listed node gets `src = ALPHA * dst` and `dst = ONE_MINUS_ALPHA`; other entries and the key sets are unchanged |
| MapStorage.ResetOne | src/main/java/com/maxdemarzi/processing/pagerank/PageRankMapStorage.java:87-88 | the node gets `src = ALPHA * dst` and `dst = ONE_MINUS_ALPHA`; every other entry is unchanged |
| MapStorage.VisitEdge | src/main/java/com/maxdemarzi/processing/pagerank/PageRankMapStorage.java:93-100 | the START node's `dst` becomes the end node's `dst` plus `src[start] * w / weightMap[start]`; nothing else changes |
| MapStorage.VisitEdges | src/main/java/com/maxdemarzi/processing/pagerank/PageRankMapStorage.java:91-101 | `src` and the key sets are unchanged; a node starting no relevant relationship keeps its `dst`; the loop throws iff some relevant relationship's type has no weight, and then it is NPE |
| MapStorage.Iterations | src/main/java/com/maxdemarzi/processing/pagerank/PageRankMapStorage.java:44-46 | the iterations never add or drop a key of either map |
| MapStorage.IterationsThrowIff | src/main/java/com/maxdemarzi/processing/pagerank/PageRankMapStorage.java:44-46 | the iterations throw iff at least one runs and some relevant relationship's type has no weight, and then it is NPE |
| MapStorage.NoOutgoingEndsAtBase | src/main/java/com/maxdemarzi/processing/pagerank/PageRankMapStorage.java:85-102 | after at least one completed iteration, a listed node starting no relevant relationship sits at `ONE_MINUS_ALPHA`, whatever points at it |
| MapStorage.RunOnNodes | src/main/java/com/maxdemarzi/processing/pagerank/PageRankMapStorage.java:41-47 | `dstMap` keeps the node map's keys; with no iteration and no exception it stays all 0.0; it throws iff some node's weight sum throws, or an iteration runs and meets a relevant type without a weight, and then it is NPE |
| MapStorage.ComputeConfig | src/main/java/com/maxdemarzi/processing/pagerank/PageRankMapStorage.java:34-50 | null labels throw NPE and leave `dstMap` as it was; a repeated node throws IllegalState and leaves `dstMap`; otherwise `dstMap` is keyed by exactly the labelled nodes; null types throw NPE with all ranks 0; only NPE or IllegalState is thrown |
| MapStorage.ComputeOnLabels | src/main/java/com/maxdemarzi/processing/pagerank/PageRankMapStorage.java:36-47 | with a non-null label list: IllegalState exactly when a node is listed twice, and then `dstMap` is untouched; otherwise `dstMap` holds exactly the labelled nodes; a null type list then throws NPE with every rank 0 |
| MapStorage.RunConfigured | src/main/java/com/maxdemarzi/processing/pagerank/PageRankMapStorage.java:38-47 | once `dstMap` is assigned it holds exactly the labelled nodes; a null type list throws NPE with every rank 0; only NPE is thrown |
| MapStorage.KeyedByLabelled | src/main/java/com/maxdemarzi/processing/pagerank/PageRankMapStorage.java:36-37 | `dstMap` built from the node list holds exactly the nodes carrying a listed label |
| MapStorage.GetResult | src/main/java/com/maxdemarzi/processing/pagerank/PageRankMapStorage.java:105-108 | -1 while `dstMap` is null or has no entry for the id, else the stored rank |
| MapStorage.ZeroIterationsLeaveZeros | src/main/java/com/maxdemarzi/processing/pagerank/PageRankMapStorage.java:34-50 | with no iteration and every weight sum defined, nothing is thrown and every labelled node reads 0.0 while every other id reads -1 |
| MapStorage.RankWithoutOutgoing | src/main/java/com/maxdemarzi/processing/pagerank/PageRankMapStorage.java:85-102 | after a completed run with iterations, a labelled node starting no relevant relationship reads `ONE_MINUS_ALPHA` |
| MapStorage.SingleLabelNodes | src/main/java/com/maxdemarzi/processing/pagerank/PageRankMapStorage.java:76-80 | with one label, the node list is that label's nodes, each once |
| MapStorage.Compute | src/main/java/com/maxdemarzi/processing/pagerank/PageRankMapStorage.java:30-32 | `compute(label, type, iterations)` always assigns `dstMap`, keyed by exactly the nodes carrying the label; whatever it throws is NPE |
| MapStorage.ThreeArgumentRun | src/main/java/com/maxdemarzi/processing/pagerank/PageRankMapStorage.java:30-32 | the three-argument `compute` is the configured run on the label's nodes, each listed once, with the single named type |
| MapStorage.ThreeArgumentThrowsIff | src/main/java/com/maxdemarzi/processing/pagerank/PageRankMapStorage.java:30-32 | for graphs whose relationships of the type join labelled nodes, `compute(label, type, iterations)` throws iff some node with the label has an outgoing relationship of the type, and then it is NPE, because no weights are configured |
| MapStorage.ThreeArgumentThrows | src/main/java/com/maxdemarzi/processing/pagerank/PageRankMapStorage.java:30-32 | a labelled node with an outgoing relationship of the type makes the three-argument `compute` throw NPE |
| MapStorage.ThreeArgumentRunsThrough | src/main/java/com/maxdemarzi/processing/pagerank/PageRankMapStorage.java:30-32 | without such a relationship the three-argument `compute` throws nothing |
| MapStorage.LabelledNodeThrows | src/main/java/com/maxdemarzi/processing/pagerank/PageRankMapStorage.java:41-47 | a labelled node whose weight sum throws makes the run throw NPE |
| MapStorage.QuietRun | src/main/java/com/maxdemarzi/processing/pagerank/PageRankMapStorage.java:41-47 | with no relationship of a configured type, the run throws nothing |
| MapStorage.LabelledEdgeBreaksWeightSum | src/main/java/com/maxdemarzi/processing/pagerank/PageRankMapStorage.java:62-74 | with no weights configured, a labelled node with an outgoing relationship of the type has a weight sum that throws |

## Left out

- Transactions, the kernel's statement context and `tx.success()`: the graph is an immutable
  value read in one piece.
- `NodeCounter` and `numberOfNodes`: the node count is the graph's `n`. `NodeCounter` is not
  part of this model.
- `Utils.toInt` / `Utils.toFloat` are not part of this model. They are an arbitrary
  conversion pair (`ParallelStorage.FixedPoint`), and `ALPHA` / `ONE_MINUS_ALPHA` are
  parameters (`PageRank.Damping`).
- Floating point: `float` and `double` arithmetic is exact `real` arithmetic, with no rounding
  and no `(float)` narrowing.
- IEEE infinities and NaN are not modelled.
  - In the array variants, `ALPHA * rank / 0` (a node whose degree is 0) is an unspecified
    value: `Damping.overZero` of the rank. In the sequential variant such a node's `src` is
    never read (`ArrayStorage.StartNodeDegreeNonZero`).
  - The map variant requires every start node of a relevant relationship to have a non-zero
    weight sum (`MapStorage.WellDefined`).
- fastutil's default of 0.0 for an absent key is not modelled. `WellDefined` also requires
  relevant relationships to join listed nodes, so no absent key is read.
- `runOperations` and the `ExecutorService` are not modelled. Their only observable effects are
  modelled as parameters: the order in which the degree work units append their entries (any
  rearrangement), and the order in which each pass visits the relationships (any
  rearrangement). Data races on the shared `ArrayList` and on `src` are out of scope.
- `ArrayStorage.ComputeDegrees`: degrees are unbounded integers, and the 32-bit wrap of the
  Java `int` degree sum is not modelled. A node's sum is (configured labels it carries, counted
  with repeats) × (per-type degrees summed over the configured types, counted with repeats),
  so it wraps once that product exceeds 2^31 - 1.
- `EntityNotFoundException` in the parallel variant is not modelled. The sequential variant
  models it as a `Fault` parameter: a vanished entity during the degree count or at one
  relationship visit.
- `findNodes` / `nodesGetForLabel` are assumed to return nodes in increasing id order. Node
  ids are assumed to fit in an `int`, so `(int) startNode` is the id itself.
- A relationship type matches a listed one when their names are equal. Neo4j's token identity
  is not modelled.
- Neo4j's `getRelationships(OUTGOING)` with an empty type array (all types) is not modelled.
  An empty type list selects no relationship.
- Null arrays passed to `NodeUtils`, a null `relWeights` map passed to
  `getEdgeWeightSumForNode` (dereferenced as soon as the node has an outgoing relationship),
  and null values stored inside a weight map are not modelled: the map parameter is a value.
  A missing name is modelled; a present name bound to null is not.
- `PageRankConfig.toString` and the JAXB annotations are not modelled.
- `MapStorage.Iterations`: its own contract states only that keys are preserved. What the
  iterations throw is stated by `MapStorage.IterationsThrowIff`, and the ranks by
  `MapStorage.NoOutgoingEndsAtBase`. No closed form of the ranks after several iterations is
  stated.
