/** Shared vocabulary: optional values, results of operations that can fail, and byte strings. */
module Common {
  datatype Option<+T> = None | Some(value: T)

  /** The outcome of an operation that raises in the source: a value, or the exception's message or kind. */
  datatype Result<+T, +E> = Ok(value: T) | Err(error: E)

  type Bytes = seq<bv8>

  /** `s.startswith(prefix)` */
  predicate StartsWith(s: string, prefix: string) {
    |prefix| <= |s| && s[..|prefix|] == prefix
  }

  /** `s.endswith(suffix)` */
  predicate EndsWith(s: string, suffix: string) {
    |suffix| <= |s| && s[|s| - |suffix|..] == suffix
  }

  /** The length of the leading run of characters other than `stop`: where `s.split(stop)[0]` ends. */
  function FieldLength(s: string, stop: char): (n: nat)
    ensures n <= |s|
    ensures forall j :: 0 <= j < n ==> s[j] != stop
    ensures n < |s| ==> s[n] == stop
  {
    if |s| == 0 || s[0] == stop then 0 else 1 + FieldLength(s[1..], stop)
  }
}
