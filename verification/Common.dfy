/** Small shared vocabulary: optional values, error-carrying results and bytes. */
module Common {

  datatype Option<+T> = None | Some(value: T)

  datatype Result<+T, +E> = Ok(value: T) | Err(error: E)

  type byte = x: int | 0 <= x < 256

  /** The library's FieldMap: values by name, in the form a codec stores them. */
  class FieldStore<T> {
    var fields: map<string, T>

    constructor ()
      ensures fields == map[]
    {
      fields := map[];
    }
  }

  /** No element twice. */
  predicate AllDifferent<T(==)>(xs: seq<T>) { forall i, j | 0 <= i < j < |xs| :: xs[i] != xs[j] }

  function Max(a: int, b: int): (m: int)
    ensures m >= a && m >= b && (m == a || m == b)
  {
    if a >= b then a else b
  }

  /** 2^n. */
  function Pow2(n: nat): (p: nat)
    ensures p >= 1
  {
    if n == 0 then 1 else 2 * Pow2(n - 1)
  }
}
