/** Failure-carrying return types shared by the enrollment and user modules. */
module Wrappers {

  /** A value that may be absent (Rust's `Option`). */
  datatype Option<+T> = None | Some(value: T)

  /** A value or an error (Rust's `Result`). */
  datatype Result<+R, +E> = Success(value: R) | Failure(error: E)

  /** A unit result: the operation passed or failed with an error (Rust's `Result<(), E>`). */
  datatype Outcome<+E> = Pass | Fail(error: E)
}

/** Character classes of generated identifiers and codes. */
module Charset {

  /** An ASCII letter or digit, the alphabet of the alphanumeric random generator. */
  predicate IsAlphanumericChar(c: char) {
    ('a' <= c <= 'z') || ('A' <= c <= 'Z') || ('0' <= c <= '9')
  }

  /** A string of `n` alphanumeric characters, as the random generator produces. */
  predicate IsAlphanumeric(s: string, n: nat) {
    |s| == n && forall i :: 0 <= i < |s| ==> IsAlphanumericChar(s[i])
  }
}
