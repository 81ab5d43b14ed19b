/** Shared vocabulary: optional values, the typed failures the services throw,
    and the ASCII string helpers that stand for Java's `toLowerCase`,
    `equalsIgnoreCase`, `isBlank` and SQL `LIKE '%t%'`. */
module Common {

  datatype Option<+T> = None | Some(value: T)

  /** One constructor per exception class the core throws. Russian message
      texts are not modelled; the format arguments that identify the culprit
      are kept, and so are the English messages the tests check. */
  datatype Error =
    | UserNotFound(userId: int)
    | ItemNotFound(itemId: int)
    | ItemIsNotAvailable(itemId: int)
    | WrongBookingTime
    | AccessDenied
    | BookingNotFound(bookingId: int)
    | BookingCannotBeChanged(bookingId: int)
    | InvalidSortType(message: string)
    | ItemRequestNotFound(requestId: int)
    | UserCannotCommentItem(userId: int, itemId: int)
    | LackOfInformation
    | EmailAlreadyExists(email: string)
    | ValidationFailed                  // javax.validation.ValidationException in the gateway
    | ConstraintViolation               // ConstraintViolationException from a @Validated controller's parameter constraints
    | IllegalArgument(message: string)  // IllegalArgumentException raised by the gateway's state parser
    | InvalidPageRequest                // IllegalArgumentException from PageRequest.of
    | DivisionByZero                    // ArithmeticException from `from / size` with size == 0
    | NoEnumConstant(name: string)      // IllegalArgumentException from an enum's built-in valueOf

  datatype Result<+T> = Ok(value: T) | Err(error: Error)

  datatype Outcome = Pass | Fail(error: Error)

  /** A set that is not empty has an element, so a loop may pick one. */
  lemma NonEmptyHasMember(s: set<int>)
    requires s != {}
    ensures exists x :: x in s
  {
    assert (forall x :: x !in s) ==> s == {};
  }

  /** Java's `Character.toLowerCase`, restricted to ASCII letters. */
  function LowerChar(c: char): char
  {
    if 'A' <= c <= 'Z' then (c as int + 32) as char else c
  }

  /** Java's `Character.toUpperCase`, restricted to ASCII letters. */
  function UpperChar(c: char): char
  {
    if 'a' <= c <= 'z' then (c as int - 32) as char else c
  }

  function Lower(s: string): (r: string)
    ensures |r| == |s|
    ensures forall i :: 0 <= i < |s| ==> r[i] == LowerChar(s[i])
  {
    seq(|s|, i requires 0 <= i < |s| => LowerChar(s[i]))
  }

  /** Lowering twice is lowering once. */
  lemma LowerIdempotent(s: string)
    ensures Lower(Lower(s)) == Lower(s)
  {
    assert forall i :: 0 <= i < |s| ==> LowerChar(LowerChar(s[i])) == LowerChar(s[i]);
  }

  /** `String.equalsIgnoreCase` over ASCII: same length, same characters up to case. */
  predicate EqualsIgnoreCase(a: string, b: string)
  {
    |a| == |b| && forall i :: 0 <= i < |a| ==> UpperChar(a[i]) == UpperChar(b[i])
  }

  /** `Character.isWhitespace` on the ASCII range: space, \t \n \u000B \f \r and U+001C..U+001F. */
  predicate IsWhitespace(c: char)
  {
    c == ' ' || '\t' <= c <= '\r' || '\U{1C}' <= c <= '\U{1F}'
  }

  /** `String.isBlank`: empty or only whitespace. */
  predicate IsBlank(s: string)
  {
    forall i :: 0 <= i < |s| ==> IsWhitespace(s[i])
  }

  /** `String.contains`, and SQL `x LIKE '%t%'` with no wildcard inside t. */
  predicate Contains(s: string, t: string)
    decreases |s|
  {
    t <= s || (|s| > 0 && Contains(s[1..], t))
  }
}
