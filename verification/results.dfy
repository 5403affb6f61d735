/** Option and Result wrappers shared by the migration and assortivity models. */
module Results {

  /** A value that may be absent: a null reference or a missing key. */
  datatype Option<T> = None | Some(value: T)

  /** The outcome of an operation that either succeeds or raises an exception. */
  datatype Result<T, E> = Ok(value: T) | Err(error: E)
}

/** ASCII case conversion as done by the C library's toupper and tolower. */
module Text {

  function ToUpperChar(c: char): (u: char)
  {
    if 'a' <= c <= 'z' then (c as int - 32) as char else c
  }

  function ToLowerChar(c: char): (l: char)
  {
    if 'A' <= c <= 'Z' then (c as int + 32) as char else c
  }

  /** The string with every ASCII lower-case letter upper-cased. */
  function ToUpper(s: string): (u: string)
    ensures |u| == |s|
    ensures forall i :: 0 <= i < |s| ==> u[i] == ToUpperChar(s[i])
  {
    seq(|s|, i requires 0 <= i < |s| => ToUpperChar(s[i]))
  }

  /** The string with every ASCII upper-case letter lower-cased. */
  function ToLower(s: string): (l: string)
    ensures |l| == |s|
    ensures forall i :: 0 <= i < |s| ==> l[i] == ToLowerChar(s[i])
  {
    seq(|s|, i requires 0 <= i < |s| => ToLowerChar(s[i]))
  }

  /** Upper-casing twice changes nothing more than upper-casing once. */
  lemma ToUpperIdempotent(s: string)
    ensures ToUpper(ToUpper(s)) == ToUpper(s)
  {
  }

  /** Comparing lower-cased strings ignores the case of ASCII letters. */
  lemma ToLowerIgnoresCase(s: string)
    ensures ToLower(ToUpper(s)) == ToLower(s)
  {
  }
}
