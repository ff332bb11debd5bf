/** Option, used for the script's "no value" outcomes: `None` from a failed fit,
    "no index found" from a search. */
module Wrappers {

  datatype Option<+T> = None | Some(value: T)
}
