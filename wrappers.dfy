/** The absent-or-present value used where the page reads something that may be missing
    (`localStorage.getItem` answers `null` for an absent name). */
module Wrappers {

  datatype Option<+T> = None | Some(value: T)

}
