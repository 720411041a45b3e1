/** Shared vocabulary of the event service: identifiers, instants, the
    exceptions the services throw, and Java's notion of a blank string. */
module Common {

  datatype Option<+T> = None | Some(value: T)

  /** The exceptions the services throw. Each one aborts the surrounding
      transaction, so a failed operation leaves every entity as it was. */
  datatype Error =
    | NotFound            // NotFoundException: missing user, event, category or request
    | NotFoundRecordInDb  // NotFoundRecordInBDException: missing event on the admin path
    | Validation          // ValidationException: wrong owner, date too soon, foreign request
    | ConflictData        // ConflictDataException: state or limit conflict
    | OperationFailed     // OperationFailedException: illegal admin transition
    | InvalidDateTime     // InvalidDateTimeException: admin date too soon
    | Duplicate           // DuplicateException: second request for the same event

  datatype Result<+T> = Success(value: T) | Failure(error: Error)

  type UserId = int
  type EventId = int
  type CategoryId = int
  type RequestId = int

  /** A LocalDateTime, counted in nanoseconds (its resolution) on one time line. */
  type Time = int

  /** LocalDateTime.plusHours(1), in nanoseconds. */
  const Hour: int := 3_600_000_000_000

  /** Character.isWhitespace: the Unicode space, line and paragraph separators
      other than the non-breaking ones, and the controls U+0009..U+000D, U+001C..U+001F. */
  predicate IsWhitespace(c: char) {
    var u := c as int;
    || 9 <= u <= 13
    || 28 <= u <= 32
    || u == 0x1680
    || 0x2000 <= u <= 0x2006
    || 0x2008 <= u <= 0x200A
    || u == 0x2028 || u == 0x2029 || u == 0x205F || u == 0x3000
  }

  /** String.isBlank: empty, or whitespace only. */
  predicate IsBlank(s: string) {
    forall i :: 0 <= i < |s| ==> IsWhitespace(s[i])
  }

  /** The guard `x != null && !x.isBlank()` the services put on every text field of an update. */
  predicate Supplied(s: Option<string>) {
    s.Some? && !IsBlank(s.value)
  }
}
