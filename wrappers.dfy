/** The source's `null` results (a failed fetch, an unparseable snapshot, a
    missing coordinate) as an explicit optional value. */
module Wrappers {

  datatype Option<+T> = None | Some(value: T)
}
