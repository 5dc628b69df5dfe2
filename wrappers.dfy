/** Optional values and error-carrying results, used wherever the modelled
 *  code returns "nothing", a null pointer or an invalid ID, or throws. */
module Wrappers {

  datatype Option<T> = None | Some(value: T)
  {
    predicate IsSome() { this.Some? }
  }

  /** `Err` carries a short description of the exception the source throws. */
  datatype Result<T> = Ok(value: T) | Err(error: string)
  {
    predicate IsOk() { this.Ok? }
  }
}
