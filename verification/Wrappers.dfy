/** The one result wrapper the models share. */
module Wrappers {
  datatype Option<+T> = None | Some(value: T)

  /** What is there, in a sequence. */
  function Items<T>(o: Option<T>): seq<T> {
    if o.None? then [] else [o.value]
  }
}
