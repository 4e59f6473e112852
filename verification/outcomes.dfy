/** Outcomes of the fallible operations of the geolocation engine.

    The script signals failure in two ways: by returning `None`
    (the terrain solver and the raster lookup) and by raising an exception
    (the flat and spherical solvers, the telemetry parser). `Option` models
    the first, `Result` the second.
 */
module Outcomes {

  datatype Option<+T> = None | Some(value: T)

  datatype Result<+T, +E> = Ok(value: T) | Err(error: E) {
    predicate IsFailure() {
      Err?
    }

    function PropagateFailure<U>(): Result<U, E>
      requires Err?
    {
      Err(error)
    }

    function Extract(): T
      requires Ok?
    {
      value
    }
  }
}
