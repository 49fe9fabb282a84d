/** The optional value used wherever the scraper's JSON may hold nothing. */
module Wrappers {

  datatype Option<+T> = None | Some(value: T)
}
