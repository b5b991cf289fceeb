/**
  The closed error taxonomy: `CustomError` and its six subclasses. Each subclass fixes
  a status code and (except validation) a default message; the base constructor derives
  `status` ("fail" or "error") from the decimal text of the code and marks the error
  operational.
 */
module CustomErrors {
  import opened Wrappers
  import opened Json

  datatype Kind = Validation | Authentication | Authorization | NotFound | Conflict | InternalServer

  /** The fields a `CustomError` instance carries besides its stack. */
  datatype CustomError = CustomError(message: string, statusCode: int, status: string, isOperational: bool)

  /** The first decimal digit of a natural number. */
  function LeadingDigit(n: nat): (d: nat)
    ensures d < 10
    ensures n > 0 ==> d > 0
  {
    if n < 10 then n else LeadingDigit(n / 10)
  }

  lemma {:induction false} NatTextStartsWithLeadingDigit(n: nat)
    ensures NatText(n)[0] == DigitChar(LeadingDigit(n))
  {
    if n >= 10 {
      NatTextStartsWithLeadingDigit(n / 10);
    }
  }

  /** `${statusCode}`.startsWith("4") ? "fail" : "error" */
  function StatusOf(statusCode: int): string {
    if IntText(statusCode)[0] == '4' then "fail" else "error"
  }

  /** The status is "fail" exactly for a non-negative code whose leading digit is 4. */
  lemma StatusOfLeadingDigit(statusCode: int)
    ensures StatusOf(statusCode) == "fail" <==> statusCode >= 0 && LeadingDigit(statusCode) == 4
    ensures StatusOf(statusCode) == "fail" || StatusOf(statusCode) == "error"
  {
    if statusCode >= 0 {
      NatTextStartsWithLeadingDigit(statusCode);
      var d := LeadingDigit(statusCode);
      assert DigitChar(d) == '4' <==> d == 4 by {
        assert "0123456789"[4] == '4';
      }
    }
  }

  /** For a three-digit HTTP status code, "fail" means exactly the 4xx class. */
  lemma StatusOfHttpCode(statusCode: int)
    requires 100 <= statusCode < 1000
    ensures StatusOf(statusCode) == "fail" <==> 400 <= statusCode < 500
  {
    StatusOfLeadingDigit(statusCode);
    assert LeadingDigit(statusCode) == statusCode / 100 by {
      assert LeadingDigit(statusCode / 10) == statusCode / 100;
    }
  }

  /** `new CustomError(message, statusCode)`. */
  function NewCustomError(message: string, statusCode: int): (e: CustomError)
    ensures e.message == message && e.statusCode == statusCode && e.isOperational
    ensures e.status == "fail" <==> statusCode >= 0 && LeadingDigit(statusCode) == 4
    ensures e.status == "fail" || e.status == "error"
  {
    StatusOfLeadingDigit(statusCode);
    CustomError(message, statusCode, StatusOf(statusCode), true)
  }

  /** The fixed code of each subclass. */
  function KindCode(kind: Kind): int {
    match kind
    case Validation => 400
    case Authentication => 401
    case Authorization => 403
    case NotFound => 404
    case Conflict => 409
    case InternalServer => 500
  }

  /** The default message of each subclass; `ValidationError` has none. */
  function DefaultMessage(kind: Kind): Option<string> {
    match kind
    case Validation => None
    case Authentication => Some("Authentication failed")
    case Authorization => Some("Access denied")
    case NotFound => Some("Resource not found")
    case Conflict => Some("Resource already exists")
    case InternalServer => Some("Internal server error")
  }

  /** `new <Kind>Error(message?)`. An omitted argument takes the subclass default; with no
      default (`ValidationError`), `Error` turns the undefined message into "". */
  function Raise(kind: Kind, message: Option<string>): (e: CustomError)
    ensures e.statusCode == KindCode(kind) && e.isOperational
    ensures message.Some? ==> e.message == message.value
    ensures message.None? ==> e.message == DefaultMessage(kind).GetOr("")
    ensures e.status == (if kind == InternalServer then "error" else "fail")
  {
    StatusOfHttpCode(KindCode(kind));
    var text := if message.Some? then message.value else DefaultMessage(kind).GetOr("");
    NewCustomError(text, KindCode(kind))
  }
}
