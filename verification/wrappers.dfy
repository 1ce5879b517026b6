/** A value that may be absent: a lookup that found nothing, a value that does not decode. */
module Wrappers {

  datatype Option<+T> = None | Some(value: T)

}
