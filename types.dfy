/** Value types shared by the modules of the model. */
module Types {

  /** A C pointer that may be NULL. */
  datatype Option<+T> = None | Some(value: T)

  /** One byte as `recv` and `fwrite` move it. */
  type byte = bv8

  /** An opaque handle to a parsed static configuration (`config_t *`). */
  datatype Config = Config(handle: nat)

  /** An opaque handle to a caller's `struct sigaction`. */
  datatype Handler = Handler(handle: nat)
}
