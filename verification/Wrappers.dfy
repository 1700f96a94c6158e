// Optional values and error-carrying results, used for the source's nil pointers and error returns,
// and the choice of the next key when ranging over a map.
module Wrappers {

  datatype Option<+T> = None | Some(value: T)

  datatype Result<+T, +E> = Ok(value: T) | Err(error: E) {

    predicate IsFailure() {
      Err?
    }

    function PropagateFailure<U>(): (r: Result<U, E>)
      requires Err?
    {
      Err(error)
    }

    function Extract(): T
      requires Ok?
    {
      value
    }
  }

  function AtLeastZero(i: int): nat {
    if i > 0 then i else 0
  }

  // Ranging over a Go map visits its keys in an unspecified order: any remaining key may come next.
  method Pick<T(==)>(keys: set<T>) returns (k: T)
    requires keys != {}
    ensures k in keys
  {
    k :| k in keys;
  }
}
