/** The optional value the tracker keeps in its helper slot; `None` stands for
    the `null` the JavaScript class starts with. */
module Wrappers {

  datatype Option<+T> = None | Some(value: T)
}
