/** Many results as one: all the values in order, or the first error. */
module Collecting {
  import opened Wrappers

  /** All the values, or the first error among them. */
  function Collect<T, E>(results: seq<Result<T, E>>): Result<seq<T>, E> {
    if results == [] then Ok([])
    else
      match results[0]
      case Err(e) => Err(e)
      case Ok(item) => After([item], Collect(results[1..]))
  }

  /** A result with what was read before it put in front. */
  function After<T, E>(before: seq<T>, rest: Result<seq<T>, E>): Result<seq<T>, E> {
    match rest
    case Err(e) => Err(e)
    case Ok(items) => Ok(before + items)
  }

  lemma {:induction false} Collected<T, E>(results: seq<Result<T, E>>, items: seq<T>)
    ensures Collect(results) == Ok(items) <==>
      |items| == |results| && forall k | 0 <= k < |results| :: results[k] == Ok(items[k])
  {
    if results != [] && items != [] {
      Collected(results[1..], items[1..]);
      assert items == [items[0]] + items[1..];
      if Collect(results) == Ok(items) {
        forall k | 0 <= k < |results|
          ensures results[k] == Ok(items[k])
        {
          assert k > 0 ==> results[k] == results[1..][k - 1];
        }
      }
    }
  }

  lemma CollectedAt<T, E>(results: seq<Result<T, E>>, items: seq<T>, k: nat)
    requires Collect(results) == Ok(items) && k < |results|
    ensures |items| == |results| && results[k] == Ok(items[k])
  {
    Collected(results, items);
  }

  lemma {:induction false} CollectedError<T, E>(results: seq<Result<T, E>>)
    requires Collect(results).Err?
    ensures Err(Collect(results).error) in results
  {
    if results[0].Ok? {
      CollectedError(results[1..]);
    }
  }

  lemma AfterNothing<T, E>(rest: Result<seq<T>, E>)
    ensures After([], rest) == rest
  {
    if rest.Ok? {
      assert [] + rest.value == rest.value;
    }
  }

  lemma AfterOneMore<T, E>(before: seq<T>, item: T, rest: Result<seq<T>, E>)
    ensures After(before + [item], rest) == After(before, After([item], rest))
  {
    if rest.Ok? {
      assert before + [item] + rest.value == before + ([item] + rest.value);
    }
  }

  /** What collecting comes to once the results before index i are in hand. */
  lemma CollectStep<T, E>(results: seq<Result<T, E>>, before: seq<T>, i: nat)
    requires i < |results| && Collect(results) == After(before, Collect(results[i..]))
    ensures results[i].Err? ==> Collect(results) == Err(results[i].error)
    ensures results[i].Ok? ==> Collect(results) == After(before + [results[i].value], Collect(results[i + 1..]))
  {
    assert results[i..][1..] == results[i + 1..];
    if results[i].Ok? {
      AfterOneMore(before, results[i].value, Collect(results[i + 1..]));
    }
  }
}
