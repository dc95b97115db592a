/**
 * The two small value shapes the container passes around: a reference that
 * may be null, and what a checker does when asked (accept, or raise an
 * error).
 */
module CheckerResults {

  /** A Java reference that may be null, such as an absent content stream. */
  datatype Maybe<+T> = Absent | Present(value: T)

  /** A checker's verdict: it returns silently (Passed) or raises an error (Failed). */
  datatype CheckResult<+E> = Passed | Failed(error: E)
}
