/** The library's error taxonomy and its optional-value container.

    Only the observable rule of `optional::value()` is kept: reading an empty
    optional is an error (`bad_optional_access`), reading an engaged one yields
    the stored value. The placement-new storage behind it is not modelled. */
module Optional {

  /** An optional value, as `std::optional` / the library's own `optional`. */
  datatype Option<+T> = None | Some(value: T)

  /** The two exceptions the library itself raises. */
  datatype Failure =
    | BadOptionalAccess      // reading an empty optional
    | InvocationSlotError    // at least one slot threw during an emission

  /** Either a value or the library exception that was raised instead. */
  datatype Result<+T> = Ok(value: T) | Err(error: Failure)

  /** `optional::value()`: the stored value, or `bad_optional_access` when disengaged. */
  function Value<T>(o: Option<T>): (r: Result<T>)
    ensures r.Ok? <==> o.Some?
    ensures r.Ok? ==> r.value == o.value
    ensures r.Err? ==> r.error == BadOptionalAccess
  {
    match o
    case Some(v) => Ok(v)
    case None => Err(BadOptionalAccess)
  }

  /** `optional::value_or(val)`: never raises. */
  function ValueOr<T>(o: Option<T>, default: T): T
  {
    match o
    case Some(v) => v
    case None => default
  }

  /** `value_or` agrees with `value` wherever `value` succeeds, and falls back
      to the default exactly where `value` raises. */
  lemma ValueOrAgreesWithValue<T>(o: Option<T>, default: T)
    ensures Value(o).Ok? ==> ValueOr(o, default) == Value(o).value
    ensures Value(o).Err? ==> ValueOr(o, default) == default
  {
  }
}
