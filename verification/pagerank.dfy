/** What the three PageRank variants share: the damping constants of the `PageRank` interface
    (not part of this model, so they are parameters) and the label and type lists the dense
    variants hard-code. */
module PageRank {
  import opened JavaInt

  /** `ALPHA` and `ONE_MINUS_ALPHA`, and what `ALPHA * rank / 0` stands for: Java's floating
      point division by a zero degree gives an infinity or NaN, which `real` cannot hold, so
      that value is left open, as a function of the rank. */
  datatype Damping = Damping(alpha: real, oneMinusAlpha: real, overZero: real -> real)

  /** The node labels the dense variants always use, whatever label they are given. */
  const FIXED_LABELS: seq<string> := ["Profile", "Project"]

  /** The relationship types the dense variants always use, whatever type they are given. */
  const FIXED_TYPES: seq<string> := ["FOLLOWS", "COMMENTED_ON", "LICENSED"]

  /** `Arrays.stream(names).map(ops::labelGetForName)`: the kernel token of each name, in order.
      The dense variants resolve their relationship type names with the LABEL lookup too, so
      one lookup function serves both lists. */
  function Tokens(names: seq<string>, labelGetForName: string -> Int32): (ids: seq<Int32>)
    ensures |ids| == |names|
    ensures forall i :: 0 <= i < |names| ==> ids[i] == labelGetForName(names[i])
  {
    if |names| == 0 then [] else Tokens(names[..|names| - 1], labelGetForName) + [labelGetForName(names[|names| - 1])]
  }

  /** What a node sends along each of its relationships: `ALPHA * rank / degree`, or the
      non-finite quotient when the degree is 0. */
  function Share(d: Damping, rank: real, degree: int): (r: real)
    ensures degree != 0 ==> r * degree as real == d.alpha * rank
  {
    if degree == 0 then d.overZero(rank) else d.alpha * rank / degree as real
  }
}
