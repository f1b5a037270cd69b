/**
 * What a decoding step yields. `Outcome` is the result of decoding at a
 * position of the input: the value and the position just after it, or the
 * error that stops decoding there.
 */
module Results {
  import opened Ints

  datatype Option<T> = None | Some(value: T)

  /**
   * The errors a decode session can end with. `EOF` is the stream running dry
   * (Go's io.EOF). `NegativeLength` stands for Go's runtime panic when a
   * negative length reaches `make([]byte, n)`. `NegativeCount` is
   * bufio.ErrNegativeCount from `Discard`. The others are the decoder's own
   * checks; their message text is not modelled.
   */
  datatype Error =
    | EOF
    | NegativeLength
    | NegativeCount
    | UnexpectedVersion(version: byte)
    | SanityCheckFailed(marker: byte)
    | InvalidFooter(got: seq<byte>)

  datatype Outcome<T> = Done(value: T, next: nat) | Fail(error: Error)

  /** The error an outcome ends with, if any. */
  function ErrorOf<T>(o: Outcome<T>): Option<Error>
  {
    if o.Fail? then Some(o.error) else None
  }

  /**
   * A decoder's observable state after a step agrees with the step's outcome:
   * on success the value returned and the position reached are the decoded
   * ones and no error is reported; on failure the step's error is reported.
   */
  ghost predicate Follows<T>(o: Outcome<T>, v: T, err: Option<Error>, pos: nat)
  {
    (o.Done? ==> err.None? && v == o.value && pos == o.next) && (o.Fail? ==> err == Some(o.error))
  }

  /** As `Follows`, for a step whose decoded value the decoder discards. */
  ghost predicate Reached<T>(o: Outcome<T>, err: Option<Error>, pos: nat)
  {
    (o.Done? ==> err.None? && pos == o.next) && (o.Fail? ==> err == Some(o.error))
  }
}
