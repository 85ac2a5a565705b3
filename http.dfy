/** Failure values of the HTTP endpoints and the small formatting helpers their replies use. */
module Http {

  /** An `HTTPException` raised by an endpoint: a status code and a detail text. */
  datatype HttpError = HttpError(status: int, detail: string)

  /** The outcome of an endpoint: its reply, or the exception it raised. */
  datatype Result<+T> = Ok(value: T) | Err(error: HttpError)

  /** The character of a decimal digit. */
  function DigitChar(d: nat): (c: char)
    requires d < 10
    ensures '0' <= c <= '9'
  {
    (d + '0' as int) as char
  }

  /** Python's `str(n)` for a non-negative integer (the count in the reply messages). */
  function Decimal(n: nat): (s: string)
    ensures |s| >= 1
    ensures forall i :: 0 <= i < |s| ==> '0' <= s[i] <= '9'
    decreases n
  {
    if n < 10 then [DigitChar(n)] else Decimal(n / 10) + [DigitChar(n % 10)]
  }
}
