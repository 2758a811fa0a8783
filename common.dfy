/**
 * Option and Result, the shapes the Rust code returns (`Option<T>` and
 * `anyhow::Result<T>`), and the walk over a hash container in its
 * unspecified order.
 */
module Common {

  datatype Option<+T> = None | Some(value: T)

  /** `anyhow::Result`: the error is kept as its message text. */
  datatype Result<+T> = Ok(value: T) | Err(message: string)

  /**
   * The request a query runs under (engine/mod.rs). The timestamp is kept in
   * its rendered text form, the only form the audit trail hashes.
   */
  datatype QueryContext = QueryContext(query: string, language: string, timestamp: string, requestId: string)

  /** No element occurs twice. */
  predicate Distinct<T(==)>(xs: seq<T>)
  {
    forall a, b :: 0 <= a < b < |xs| ==> xs[a] != xs[b]
  }

  /**
   * Iterating a `HashSet`, or the keys of a `HashMap`: every element once,
   * in an order the model leaves open.
   */
  method Collect<T(==)>(s: set<T>) returns (xs: seq<T>)
    ensures Distinct(xs) && (set x | x in xs) == s && |xs| == |s|
  {
    xs := [];
    var rest := s;
    while rest != {}
      invariant Distinct(xs)
      invariant forall x :: x in xs ==> x in s && x !in rest
      invariant rest <= s
      invariant forall x :: x in s ==> x in xs || x in rest
      invariant |xs| + |rest| == |s|
      decreases |rest|
    {
      var x :| x in rest;
      xs := xs + [x];
      rest := rest - {x};
    }
    assert (set x | x in xs) == s;
  }
}
