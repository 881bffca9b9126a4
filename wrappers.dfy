/** The optional value used wherever the script reads something that may be absent
    (`localStorage.getItem` returning null, `Array.prototype.find` returning undefined). */
module Wrappers {

  datatype Option<+T> = None | Some(value: T)
}
