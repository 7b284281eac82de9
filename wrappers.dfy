/** Optional values: Kotlin's nullable types (`Char?`, `MatchResult?`) become `Option`. */
module Wrappers {

  datatype Option<+T> = None | Some(value: T)
}
