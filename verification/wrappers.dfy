/** Optional values, results, and the three-way shape of a field in a partial payload. */
module Wrappers {
  datatype Option<+T> = None | Some(value: T)

  datatype Result<+T, +E> = Ok(value: T) | Err(error: E)

  /** A field of a partial payload: absent (`undefined`), or given with a value that may itself be null. */
  datatype Field<+T> = Absent | Given(value: T) {
    function Or(stored: T): T {
      if Given? then value else stored
    }
  }
}
