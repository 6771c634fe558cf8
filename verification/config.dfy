/** `PageRankConfig`: the labels, relationship types, per-type weights and iteration count of
    one computation. Java arrays and maps are references, so every field may be null; the
    no-argument constructor leaves all of them at their defaults (null, null, null, 0). */
module Config {
  import opened Errors
  import opened JavaInt

  datatype PageRankConfig = PageRankConfig(
    labels: Option<seq<string>>,
    relationships: Option<seq<string>>,
    weights: Option<map<string, real>>,
    iterations: Int32)

  /** `new PageRankConfig(labels, relationships, iterations)`. */
  function NewConfig(labels: Option<seq<string>>, relationships: Option<seq<string>>, iterations: Int32): (c: PageRankConfig)
    ensures c.weights == None
  {
    PageRankConfig(labels, relationships, None, iterations)
  }

  /** `new PageRankConfig()`. */
  function DefaultConfig(): (c: PageRankConfig)
    ensures c.labels == None && c.relationships == None && c.weights == None && c.iterations == 0
  {
    PageRankConfig(None, None, None, 0)
  }

  /** `getLabels()`: storing back what it returns changes nothing. */
  function GetLabels(c: PageRankConfig): (r: Option<seq<string>>)
    ensures SetLabels(c, r) == c
  { c.labels }

  /** `getRelationships()`: storing back what it returns changes nothing. */
  function GetRelationships(c: PageRankConfig): (r: Option<seq<string>>)
    ensures SetRelationships(c, r) == c
  { c.relationships }

  /** `getWeights()`: storing back what it returns changes nothing. */
  function GetWeights(c: PageRankConfig): (r: Option<map<string, real>>)
    ensures SetWeights(c, r) == c
  { c.weights }

  /** `getIterations()`: storing back what it returns changes nothing. */
  function GetIterations(c: PageRankConfig): (r: Int32)
    ensures SetIterations(c, r) == c
  { c.iterations }

  /** `setLabels(labels)`: stores the labels and leaves the other three fields alone. */
  function SetLabels(c: PageRankConfig, labels: Option<seq<string>>): (r: PageRankConfig)
    ensures r.labels == labels
    ensures r.relationships == c.relationships && r.weights == c.weights && r.iterations == c.iterations
  { c.(labels := labels) }

  /** `setRelationships(relationships)`: stores the types and leaves the other three fields alone. */
  function SetRelationships(c: PageRankConfig, relationships: Option<seq<string>>): (r: PageRankConfig)
    ensures r.relationships == relationships
    ensures r.labels == c.labels && r.weights == c.weights && r.iterations == c.iterations
  { c.(relationships := relationships) }

  /** `setWeights(weights)`: stores the weight map and leaves the other three fields alone. */
  function SetWeights(c: PageRankConfig, weights: Option<map<string, real>>): (r: PageRankConfig)
    ensures r.weights == weights
    ensures r.labels == c.labels && r.relationships == c.relationships && r.iterations == c.iterations
  { c.(weights := weights) }

  /** `setIterations(iterations)`: stores the count and leaves the other three fields alone. */
  function SetIterations(c: PageRankConfig, iterations: Int32): (r: PageRankConfig)
    ensures r.iterations == iterations
    ensures r.labels == c.labels && r.relationships == c.relationships && r.weights == c.weights
  { c.(iterations := iterations) }

  /** The three-argument constructor's getters return its arguments, and the weights stay null. */
  lemma ConstructorGetters(labels: Option<seq<string>>, relationships: Option<seq<string>>, iterations: Int32)
    ensures GetLabels(NewConfig(labels, relationships, iterations)) == labels
    ensures GetRelationships(NewConfig(labels, relationships, iterations)) == relationships
    ensures GetIterations(NewConfig(labels, relationships, iterations)) == iterations
    ensures GetWeights(NewConfig(labels, relationships, iterations)) == None
  {
  }

  /** Each getter returns what its setter stored last. */
  lemma GetAfterSet(c: PageRankConfig, labels: Option<seq<string>>, relationships: Option<seq<string>>,
                    weights: Option<map<string, real>>, iterations: Int32)
    ensures GetLabels(SetLabels(c, labels)) == labels
    ensures GetRelationships(SetRelationships(c, relationships)) == relationships
    ensures GetWeights(SetWeights(c, weights)) == weights
    ensures GetIterations(SetIterations(c, iterations)) == iterations
  {
  }

  /** Each setter leaves the other three fields as they were. */
  lemma SettersFrame(c: PageRankConfig, labels: Option<seq<string>>, relationships: Option<seq<string>>,
                     weights: Option<map<string, real>>, iterations: Int32)
    ensures var d := SetLabels(c, labels);
              GetRelationships(d) == GetRelationships(c) && GetWeights(d) == GetWeights(c) && GetIterations(d) == GetIterations(c)
    ensures var d := SetRelationships(c, relationships);
              GetLabels(d) == GetLabels(c) && GetWeights(d) == GetWeights(c) && GetIterations(d) == GetIterations(c)
    ensures var d := SetWeights(c, weights);
              GetLabels(d) == GetLabels(c) && GetRelationships(d) == GetRelationships(c) && GetIterations(d) == GetIterations(c)
    ensures var d := SetIterations(c, iterations);
              GetLabels(d) == GetLabels(c) && GetRelationships(d) == GetRelationships(c) && GetWeights(d) == GetWeights(c)
  {
  }
}
