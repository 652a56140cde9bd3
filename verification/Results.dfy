/** Values for optional fields and for operations that raise. */
module Results {
  datatype Option<+T> = None | Some(value: T)

  datatype Result<+T, +E> = Ok(value: T) | Err(error: E)

  /** The first error reported, if any check reports one. */
  function FirstOf<E(!new)>(errors: seq<Option<E>>): (r: Option<E>)
    ensures r.None? <==> forall i :: 0 <= i < |errors| ==> errors[i].None?
  {
    if errors == [] then None else if errors[0].Some? then errors[0] else FirstOf(errors[1..])
  }
}
