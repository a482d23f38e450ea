/** The absent-or-present value used for parsed numbers and lookups. */
module Optional {

  /** `None` stands for a value that is not there: a JavaScript `NaN` from
      a failed number parse, or `undefined` from a search with no hit. */
  datatype Option<+T> = None | Some(value: T)
}
