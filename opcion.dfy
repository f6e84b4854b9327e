/** An optional value, used where the source returns null or falls back to a default. */
module Opcion {

  datatype Option<T> = None | Some(value: T)
}
