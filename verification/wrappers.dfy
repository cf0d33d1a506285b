/** The optional value: `load_previous_manifest` returning `None`, or `FileAction.sidecar_path` left unset. */
module Wrappers {

  datatype Option<+T> = None | Some(value: T)
}
