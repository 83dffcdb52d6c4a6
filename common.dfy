/** Shared vocabulary of the model: optional values, results, the error kinds of
    `collie-core/src/error.rs`, timestamps, and the whitespace trimming the sync
    pass applies to every text field (Rust's `str::trim`). */
module Common {

  /** chrono timestamps become integers (seconds since an epoch, all in UTC). */
  type Timestamp = int

  datatype Option<+T> = None | Some(value: T)

  datatype Result<+T, +E> = Ok(value: T) | Err(error: E)

  /** Why the SQLite store rejected a statement. */
  datatype StorageError =
    | UniqueViolation(constraint: string)  // a UNIQUE column or index already holds the value
    | ForeignKeyViolation                  // items.feed_id names no feed
    | EmptySetList                         // an UPDATE built with no column to set
    | ReadFailure                          // a SELECT failed (I/O, locking, ...)
    | AmbiguousColumn(column: string)      // a column named without its table exists in two joined tables

  /** The error enum of collie-core. */
  datatype Error =
    | InvalidEnumKey(key: string, enumName: string)
    | SyndicationParsingFailure
    | TransportFailure
    | StorageFailure(cause: StorageError)

  /** Unicode White_Space, the set Rust's `char::is_whitespace` tests. */
  predicate IsWhitespace(c: char) {
    || ('\t' <= c <= '\r')
    || c == ' '
    || c == '\U{85}'
    || c == '\U{A0}'
    || c == '\U{1680}'
    || ('\U{2000}' <= c <= '\U{200A}')
    || c == '\U{2028}'
    || c == '\U{2029}'
    || c == '\U{202F}'
    || c == '\U{205F}'
    || c == '\U{3000}'
  }

  /** Drops the leading whitespace: the result is the longest suffix that does not
      start with whitespace, and everything dropped is whitespace. */
  function TrimStart(s: string): (r: string)
    ensures |r| <= |s| && r == s[|s| - |r|..]
    ensures forall i :: 0 <= i < |s| - |r| ==> IsWhitespace(s[i])
    ensures r == [] || !IsWhitespace(r[0])
  {
    if |s| > 0 && IsWhitespace(s[0]) then TrimStart(s[1..]) else s
  }

  /** Drops the trailing whitespace. */
  function TrimEnd(s: string): (r: string)
    ensures |r| <= |s| && r == s[..|r|]
    ensures forall i :: |r| <= i < |s| ==> IsWhitespace(s[i])
    ensures r == [] || !IsWhitespace(r[|r| - 1])
  {
    if |s| > 0 && IsWhitespace(s[|s| - 1]) then TrimEnd(s[..|s| - 1]) else s
  }

  /** Where `Trim(s)` starts inside `s`. */
  function TrimOffset(s: string): nat {
    |s| - |TrimStart(s)|
  }

  /** Rust's `str::trim`: `s` with the whitespace at both ends removed. The result is
      the slice of `s` at `TrimOffset(s)`, everything outside it is whitespace, and it
      neither starts nor ends with whitespace. */
  function Trim(s: string): (r: string)
    ensures TrimOffset(s) + |r| <= |s| && r == s[TrimOffset(s)..TrimOffset(s) + |r|]
    ensures forall i :: 0 <= i < TrimOffset(s) ==> IsWhitespace(s[i])
    ensures forall i :: TrimOffset(s) + |r| <= i < |s| ==> IsWhitespace(s[i])
    ensures r == [] || (!IsWhitespace(r[0]) && !IsWhitespace(r[|r| - 1]))
  {
    var t := TrimStart(s);
    var r := TrimEnd(t);
    assert r != [] ==> r[0] == t[0];
    r
  }

  /** A string with no whitespace at either end is left alone by `Trim`; in
      particular trimming twice is trimming once. */
  lemma {:induction false} TrimFixesTrimmed(s: string)
    requires s == [] || (!IsWhitespace(s[0]) && !IsWhitespace(s[|s| - 1]))
    ensures Trim(s) == s
  {
    assert TrimStart(s) == s;
    assert TrimEnd(s) == s;
  }

  lemma TrimIdempotent(s: string)
    ensures Trim(Trim(s)) == Trim(s)
  {
    TrimFixesTrimmed(Trim(s));
  }
}
