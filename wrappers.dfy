/** Number-or-missing cells and unavailable pages are both modelled with Option. */
module Wrappers {

  datatype Option<+T> = None | Some(value: T)
}
