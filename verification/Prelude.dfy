/** Shared small types. */
module Prelude {

  datatype Option<+T> = None | Some(value: T)

  /** Strings of the original hold bytes. */
  ghost predicate Bytes(s: string) {
    forall i :: 0 <= i < |s| ==> s[i] as int < 256
  }
}
