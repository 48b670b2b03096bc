/** The optional value shared by the legend, the grid pass and the overlay renderer. */
module Wrappers {
  datatype Option<T> = None | Some(value: T)
}
