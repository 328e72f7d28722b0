/** Python values as they reach the boundary of the k-means engine.
    The validators of both source modules inspect arbitrary values with
    `isinstance`; this datatype is the part of Python's value space they
    distinguish. */
module Values {

  datatype Option<T> = None | Some(value: T)

  /** The one exception the validators can raise on their own (indexing an empty list). */
  datatype Error = IndexError

  datatype Result<T> = Ok(value: T) | Err(error: Error)

  /** A Python value: an int, a float (modelled exactly, as a real), a string,
      a list, or None. */
  datatype Value =
    | VInt(i: int)
    | VFloat(f: real)
    | VStr(s: string)
    | VList(elems: seq<Value>)
    | VNone

  /** `isinstance(v, (int, float))` */
  predicate IsNumber(v: Value) {
    v.VInt? || v.VFloat?
  }

  /** The numeric value of an int or a float. */
  function AsReal(v: Value): real
    requires IsNumber(v)
  {
    if v.VInt? then v.i as real else v.f
  }
}
