// Optional values and results, for the exceptions and error returns of the sources.
module Outcomes {

  datatype Option<+T> = None | Some(value: T)

  datatype Result<+T, +E> = Success(value: T) | Failure(error: E)

  // What was emitted so far, followed by the rest if the rest succeeds.
  function Prefixed<T>(prefix: seq<T>, rest: Option<seq<T>>): Option<seq<T>> {
    if rest.None? then None else Some(prefix + rest.value)
  }

  lemma {:induction false} PrefixedTwice<T>(a: seq<T>, b: seq<T>, rest: Option<seq<T>>)
    ensures Prefixed(a, Prefixed(b, rest)) == Prefixed(a + b, rest)
    ensures Prefixed([], rest) == rest
  {
    if rest.Some? {
      assert a + (b + rest.value) == a + b + rest.value;
      assert [] + rest.value == rest.value;
    }
  }
}
