/** A minimal optional-value type, used for parse results and error slots. */
module Optional {

  datatype Option<+T> = None | Some(value: T)
}
