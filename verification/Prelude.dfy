/** Options, results and small functions shared by the other modules. */
module Prelude {
  datatype Option<+T> = None | Some(value: T)

  datatype Result<+T, +E> = Ok(value: T) | Err(error: E)

  /** A text field as it was parsed: absent, malformed, or a value. */
  datatype Field<+T> = Absent | Malformed | Given(value: T)

  /** How a write ends for its caller. With LostAnswer it took effect although the caller sees an error. */
  datatype Outcome = Succeeds | Fails | LostAnswer

  function Min(a: int, b: int): int { if a < b then a else b }

  function Max(a: int, b: int): int { if a < b then b else a }

  lemma Pick<T>(s: set<T>) returns (x: T)
    requires s != {}
    ensures x in s
  {
    x :| x in s;
  }
}
