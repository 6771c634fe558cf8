/** `Collectors.toMap(keyMapper, valueMapper)` on a sequential stream, the way the PageRank
    core builds every one of its per-node and per-type maps. Elements are consumed in order;
    for each one the value is computed first (it may throw) and then the key is inserted,
    and a key seen before throws `IllegalStateException`. */
module Collectors {
  import opened Errors

  /** No two elements share a key. */
  predicate DistinctKeys<E, K(==)>(items: seq<E>, key: E -> K) {
    forall i, j :: 0 <= i < j < |items| ==> key(items[i]) != key(items[j])
  }

  predicate AllValuesSucceed<E, V>(items: seq<E>, value: E -> Result<V>) {
    forall i :: 0 <= i < |items| ==> value(items[i]).Success?
  }

  /** The collector as written, element by element. */
  function Collect<E, K(==), V>(items: seq<E>, key: E -> K, value: E -> Result<V>): Result<map<K, V>>
  {
    if |items| == 0 then Success(map[])
    else
      var last := items[|items| - 1];
      match Collect(items[..|items| - 1], key, value)
      case Failure(e) => Failure(e)
      case Success(m) =>
        match value(last)
        case Failure(e) => Failure(e)
        case Success(v) => if key(last) in m then Failure(IllegalStateException) else Success(m[key(last) := v])
  }

  lemma {:induction false} CollectSucceeds<E, K, V>(items: seq<E>, key: E -> K, value: E -> Result<V>)
    ensures Collect(items, key, value).Success? <==> DistinctKeys(items, key) && AllValuesSucceed(items, value)
    ensures Collect(items, key, value).Success? ==>
              Collect(items, key, value).value.Keys == set i | 0 <= i < |items| :: key(items[i])
  {
    if |items| > 0 {
      var init := items[..|items| - 1];
      var last := items[|items| - 1];
      CollectSucceeds(init, key, value);
      assert forall i :: 0 <= i < |init| ==> init[i] == items[i];
      if Collect(init, key, value).Success? && value(last).Success? {
        var m := Collect(init, key, value).value;
        if key(last) in m {
          var i :| 0 <= i < |init| && key(init[i]) == key(last);
          assert key(items[i]) == key(items[|items| - 1]);
        } else {
          assert (set i | 0 <= i < |items| :: key(items[i])) == m.Keys + {key(last)};
        }
      }
    }
  }

  lemma {:induction false} CollectValues<E, K, V>(items: seq<E>, key: E -> K, value: E -> Result<V>)
    ensures Collect(items, key, value).Success? ==>
              forall i :: 0 <= i < |items| ==>
                key(items[i]) in Collect(items, key, value).value && value(items[i]).Success? &&
                Collect(items, key, value).value[key(items[i])] == value(items[i]).value
    ensures Collect(items, key, value).Failure? && AllValuesSucceed(items, value) ==>
              Collect(items, key, value).error == IllegalStateException
    ensures Collect(items, key, value).Failure? && DistinctKeys(items, key) ==>
              exists i :: 0 <= i < |items| && value(items[i]) == Failure(Collect(items, key, value).error)
  {
    if |items| > 0 {
      var init := items[..|items| - 1];
      CollectValues(init, key, value);
      CollectSucceeds(init, key, value);
      assert forall i :: 0 <= i < |init| ==> init[i] == items[i];
    }
  }

  /** The first element's value is computed before any key is inserted, so when it throws,
      that is what the collector throws. */
  lemma {:induction false} CollectFirstFails<E, K, V>(items: seq<E>, key: E -> K, value: E -> Result<V>)
    ensures |items| > 0 && value(items[0]).Failure? ==> Collect(items, key, value) == Failure(value(items[0]).error)
  {
    if |items| > 1 {
      var init := items[..|items| - 1];
      assert init[0] == items[0];
      CollectFirstFails(init, key, value);
    }
  }

  /** `Collectors.toMap`: succeeds exactly when no key repeats and no value throws; then the
      map has exactly the elements' keys, each bound to its element's value. */
  function ToMap<E, K(==), V>(items: seq<E>, key: E -> K, value: E -> Result<V>): (r: Result<map<K, V>>)
    ensures r.Success? <==> DistinctKeys(items, key) && AllValuesSucceed(items, value)
    ensures r.Success? ==> r.value.Keys == set i | 0 <= i < |items| :: key(items[i])
    ensures r.Success? ==> forall i :: 0 <= i < |items| ==> r.value[key(items[i])] == value(items[i]).value
    ensures r.Failure? && AllValuesSucceed(items, value) ==> r.error == IllegalStateException
    ensures r.Failure? && DistinctKeys(items, key) ==> exists i :: 0 <= i < |items| && value(items[i]) == Failure(r.error)
    ensures |items| > 0 && value(items[0]).Failure? ==> r == Failure(value(items[0]).error)
  {
    CollectFirstFails(items, key, value);
    CollectSucceeds(items, key, value);
    CollectValues(items, key, value);
    Collect(items, key, value)
  }
}
