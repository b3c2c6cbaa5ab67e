/** The optional value the source writes as `string | null` or an unset environment variable. */
module Wrappers {

  datatype Option<+T> = None | Some(value: T)

}
