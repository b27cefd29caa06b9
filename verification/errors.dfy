/** The error vocabulary of middleware/errorHandler.js: the operational
    error classes and their 'fail'/'error' status, the global handler that
    maps library errors to HTTP answers, the throwing field validators and
    the pagination metadata. */
module ErrorHandling {
  import opened Common

  // ---- status-code text ----

  function Digit(d: int): (c: char)
    requires 0 <= d < 10
    ensures '0' <= c <= '9'
  {
    "0123456789"[d]
  }

  /** `${n}` for an integer. */
  function DecimalText(n: int): (s: string)
    ensures |s| >= 1
    ensures n >= 0 ==> '0' <= s[0] <= '9'
    ensures n < 0 ==> s[0] == '-'
    decreases if n < 0 then 1 - n else n
  {
    if n < 0 then "-" + DecimalText(-n)
    else if n < 10 then [Digit(n)]
    else DecimalText(n / 10) + [Digit(n % 10)]
  }

  /** The value of a string of digits, the inverse of `DecimalText`. */
  function DigitsValue(s: string): int
    decreases |s|
  {
    if |s| == 0 then 0 else 10 * DigitsValue(s[..|s| - 1]) + (s[|s| - 1] as int - '0' as int)
  }

  lemma {:induction false} DecimalTextRoundTrip(n: nat)
    ensures DigitsValue(DecimalText(n)) == n
    decreases n
  {
    if n >= 10 {
      DecimalTextRoundTrip(n / 10);
      var s := DecimalText(n);
      assert s[..|s| - 1] == DecimalText(n / 10);
    } else {
      assert DecimalText(n)[..0] == [];
    }
  }

  /** The most significant decimal digit of a natural number. */
  function Lead(n: nat): (d: nat)
    ensures d < 10
  {
    if n < 10 then n else Lead(n / 10)
  }

  lemma {:induction false} DecimalTextLeads(n: nat)
    ensures DecimalText(n)[0] == Digit(Lead(n))
    decreases n
  {
    if n >= 10 {
      DecimalTextLeads(n / 10);
    }
  }

  // ---- the error classes ----

  /** An error object as the handler sees it. `statusCode` and `status` are
      absent on errors not built by `AppError`; `items` is the `errors`
      array a library validation error carries; `path` and `value` are the
      fields of a cast error. */
  datatype Thrown = Thrown(
    name: string,
    message: string,
    statusCode: Option<int>,
    status: Option<string>,
    isOperational: bool,
    items: Option<seq<Item>>,
    path: string,
    value: string)

  /** One entry of a library error's `errors` array. */
  datatype Item = Item(path: string, message: string)

  /** 'fail' when the code's text starts with '4', 'error' otherwise. */
  function StatusFor(statusCode: int): (s: string)
    ensures s == "fail" <==> DecimalText(statusCode)[0] == '4'
    ensures s == "fail" || s == "error"
  {
    if DecimalText(statusCode)[0] == '4' then "fail" else "error"
  }

  /** For three-digit HTTP codes, 'fail' means exactly a 4xx code. */
  lemma StatusIsFailForClientErrors(code: int)
    requires 100 <= code <= 599
    ensures StatusFor(code) == "fail" <==> 400 <= code < 500
  {
    DecimalTextLeads(code);
    assert Lead(code) == code / 100 by {
      assert Lead(code) == Lead(code / 10) == Lead(code / 10 / 10);
    }
  }

  /** The text test also sees '4' in codes that are not 4xx. */
  lemma StatusFollowsLeadingDigit()
    ensures StatusFor(4) == "fail" && StatusFor(4000) == "fail" && StatusFor(-400) == "error"
  {
    DecimalTextLeads(4000);
    assert Lead(4000) == 4 by {
      assert Lead(4000) == Lead(400) == Lead(40) == Lead(4);
    }
  }

  /** `new AppError(message, statusCode)`. */
  function AppError(name: string, message: string, statusCode: int): (e: Thrown)
    ensures e.statusCode == Some(statusCode) && e.status == Some(StatusFor(statusCode))
    ensures e.isOperational && e.message == message && e.name == name && e.items.None?
  {
    Thrown(name, message, Some(statusCode), Some(StatusFor(statusCode)), true, None, "", "")
  }

  function ValidationError(message: string): Thrown {
    AppError("ValidationError", message, 400)
  }

  function NotFoundError(resource: string): Thrown {
    AppError("NotFoundError", resource + " not found", 404)
  }

  /** The optional message falls back to the class's default. */
  function UnauthorizedError(message: Option<string>): Thrown {
    AppError("UnauthorizedError", if message.Some? then message.value else "Unauthorized access", 401)
  }

  function ForbiddenError(message: Option<string>): Thrown {
    AppError("ForbiddenError", if message.Some? then message.value else "Forbidden access", 403)
  }

  function ConflictError(message: string): Thrown {
    AppError("ConflictError", message, 409)
  }

  /** Every subclass carries its fixed code and, being a client error, the
      'fail' status. */
  lemma SubclassCodes(message: string, given: Option<string>)
    ensures ValidationError(message).statusCode == Some(400) && ValidationError(message).status == Some("fail")
    ensures NotFoundError(message).statusCode == Some(404) && NotFoundError(message).status == Some("fail")
    ensures UnauthorizedError(given).statusCode == Some(401) && UnauthorizedError(given).status == Some("fail")
    ensures ForbiddenError(given).statusCode == Some(403) && ForbiddenError(given).status == Some("fail")
    ensures ConflictError(message).statusCode == Some(409) && ConflictError(message).status == Some("fail")
    ensures UnauthorizedError(None).message == "Unauthorized access" && ForbiddenError(None).message == "Forbidden access"
  {
    StatusIsFailForClientErrors(400);
    StatusIsFailForClientErrors(401);
    StatusIsFailForClientErrors(403);
    StatusIsFailForClientErrors(404);
    StatusIsFailForClientErrors(409);
  }

  // ---- the global handler ----

  /** Lines 114-115: a missing or zero code becomes 500, a missing or empty
      status 'error'. */
  function Normalize(e: Thrown): (r: Thrown)
    ensures r.statusCode.Some? && r.status.Some?
    ensures e.statusCode.Some? && e.statusCode.value != 0 ==> r.statusCode == e.statusCode
    ensures !(e.statusCode.Some? && e.statusCode.value != 0) ==> r.statusCode == Some(500)
    ensures Given(e.status) ==> r.status == e.status
    ensures !Given(e.status) ==> r.status == Some("error")
    ensures r.(statusCode := e.statusCode, status := e.status) == e
  {
    e.(statusCode := if e.statusCode.Some? && e.statusCode.value != 0 then e.statusCode else Some(500),
       status := if Given(e.status) then e.status else Some("error"))
  }

  function Messages(items: seq<Item>): (ms: seq<string>)
    ensures |ms| == |items|
    ensures forall i :: 0 <= i < |items| ==> ms[i] == items[i].message
  {
    if |items| == 0 then [] else [items[0].message] + Messages(items[1..])
  }

  /** The error names the production handler recognises. */
  datatype Kind =
    | LibraryValidation | UniqueConstraint | ForeignKey | ConnectionOrTimeout
    | InvalidToken | ExpiredToken | Cast | Unrecognised

  /** The comparisons of lines 125-139 on `error.name`. */
  function KindOf(name: string): (k: Kind)
    ensures k == LibraryValidation <==> name == "SequelizeValidationError"
    ensures k == UniqueConstraint <==> name == "SequelizeUniqueConstraintError"
    ensures k == ForeignKey <==> name == "SequelizeForeignKeyConstraintError"
    ensures k == ConnectionOrTimeout <==> name == "SequelizeConnectionError" || name == "SequelizeTimeoutError"
    ensures k == InvalidToken <==> name == "JsonWebTokenError"
    ensures k == ExpiredToken <==> name == "TokenExpiredError"
    ensures k == Cast <==> name == "CastError"
  {
    if name == "SequelizeValidationError" then LibraryValidation
    else if name == "SequelizeUniqueConstraintError" then UniqueConstraint
    else if name == "SequelizeForeignKeyConstraintError" then ForeignKey
    else if name == "SequelizeConnectionError" || name == "SequelizeTimeoutError" then ConnectionOrTimeout
    else if name == "JsonWebTokenError" then InvalidToken
    else if name == "TokenExpiredError" then ExpiredToken
    else if name == "CastError" then Cast
    else Unrecognised
  }

  /** The application's own class names are none of the library's. */
  lemma OwnNamesAreUnrecognised()
    ensures KindOf("ValidationError") == Unrecognised && KindOf("NotFoundError") == Unrecognised
    ensures KindOf("UnauthorizedError") == Unrecognised && KindOf("ForbiddenError") == Unrecognised
    ensures KindOf("ConflictError") == Unrecognised && KindOf("Error") == Unrecognised
  {
  }

  /** The production translation of library errors. A validation error
      without its `errors` array or a unique-constraint error with an empty
      one makes the handler itself throw: `None`. */
  function Translate(e: Thrown): (r: Option<Thrown>)
    ensures r.None? <==>
              || (KindOf(e.name) == LibraryValidation && e.items.None?)
              || (KindOf(e.name) == UniqueConstraint && (e.items.None? || |e.items.value| == 0))
    ensures KindOf(e.name) == Unrecognised ==> r == Some(e)
    ensures r.Some? && e.statusCode.Some? ==> r.value.statusCode.Some?
  {
    match KindOf(e.name)
    case LibraryValidation =>
      if e.items.None? then None
      else Some(ValidationError("Invalid input data: " + Join(Messages(e.items.value), ", ")))
    case UniqueConstraint =>
      if e.items.None? || |e.items.value| == 0 then None
      else Some(ConflictError(e.items.value[0].path + " already exists. Please use another value."))
    case ForeignKey => Some(ValidationError("Invalid reference to related resource"))
    case ConnectionOrTimeout => Some(AppError("Error", "Database connection failed. Please try again later.", 500))
    case InvalidToken => Some(UnauthorizedError(Some("Invalid token. Please log in again.")))
    case ExpiredToken => Some(UnauthorizedError(Some("Your token has expired. Please log in again.")))
    case Cast => Some(ValidationError("Invalid " + e.path + ": " + e.value))
    case Unrecognised => Some(e)
  }

  /** What the client receives. `details` marks the development reply, which
      also carries the error object and its stack. `HandlerFault` is the
      handler throwing on its own. */
  datatype Reply =
    | Reply(code: int, message: string, items: Option<seq<Item>>, details: bool)
    | HandlerFault

  const GenericMessage: string := "Something went wrong! Please try again later."

  /** The production reply for the translated error: operational errors
      keep their code, message and items, anything else becomes a generic
      500, and a failed translation is the handler faulting. */
  function ProductionReply(t: Option<Thrown>): (r: Reply)
    requires t.Some? ==> t.value.statusCode.Some?
    ensures r.HandlerFault? <==> t.None?
    ensures r.Reply? ==> !r.details
    ensures t.Some? && t.value.isOperational ==>
              r == Reply(t.value.statusCode.value, t.value.message, t.value.items, false)
    ensures t.Some? && !t.value.isOperational ==> r == Reply(500, GenericMessage, None, false)
  {
    if t.None? then HandlerFault
    else if t.value.isOperational then Reply(t.value.statusCode.value, t.value.message, t.value.items, false)
    else Reply(500, GenericMessage, None, false)
  }

  /** `globalErrorHandler`; `development` is `NODE_ENV === 'development'`.
      Development replies with the error as thrown (its own message and
      items, code defaulted to 500) plus details; production replies with
      the translation. */
  function GlobalErrorHandler(e: Thrown, development: bool): (r: Reply)
    ensures development ==> r == Reply(Normalize(e).statusCode.value, e.message, e.items, true)
    ensures !development ==> r == ProductionReply(Translate(Normalize(e)))
  {
    var n := Normalize(e);
    if development then Reply(n.statusCode.value, e.message, e.items, true)
    else ProductionReply(Translate(n))
  }

  /** The production mapping from error names to codes for client errors:
      validation, foreign key and cast errors are 400, unique constraints 409. */
  lemma ProductionClientCodes(e: Thrown)
    ensures KindOf(e.name) == LibraryValidation && e.items.Some? ==> GlobalErrorHandler(e, false).code == 400
    ensures KindOf(e.name) in {ForeignKey, Cast} ==> GlobalErrorHandler(e, false).code == 400
    ensures KindOf(e.name) == UniqueConstraint && e.items.Some? && |e.items.value| > 0 ==>
              GlobalErrorHandler(e, false).code == 409
  {
  }

  /** Connection and timeout errors are 500, token errors 401. */
  lemma ProductionServerAndTokenCodes(e: Thrown)
    ensures KindOf(e.name) == ConnectionOrTimeout ==> GlobalErrorHandler(e, false).code == 500
    ensures KindOf(e.name) in {InvalidToken, ExpiredToken} ==> GlobalErrorHandler(e, false).code == 401
  {
  }

  /** The application's own errors reach the client unchanged in production:
      their code and message, and nothing else. */
  lemma OwnErrorsPassThrough(name: string, message: string, code: int)
    requires code != 0
    requires KindOf(name) == Unrecognised
    ensures GlobalErrorHandler(AppError(name, message, code), false) == Reply(code, message, None, false)
  {
  }

  /** `notFoundHandler`: an unknown route answers 404 in either mode. */
  lemma UnknownRouteIs404(url: string, development: bool)
    ensures GlobalErrorHandler(NotFoundError("Route " + url + " not found"), development).code == 404
  {
    OwnNamesAreUnrecognised();
  }

  // ---- the field validators ----

  /** A request value as the validators inspect it; `Missing` is undefined. */
  datatype Value = Missing | Null | Bool(b: bool) | Num(x: real) | Text(s: string) | Object

  /** JavaScript falsiness, NaN aside. */
  predicate Falsy(v: Value) {
    v.Missing? || v.Null? || v == Bool(false) || v == Num(0.0) || v == Text("")
  }

  function Field(data: map<string, Value>, f: string): Value {
    if f in data then data[f] else Missing
  }

  /** The listed fields whose value is falsy, in list order. */
  function MissingFields(data: map<string, Value>, required: seq<string>): (ms: seq<string>)
    ensures |ms| <= |required|
  {
    if |required| == 0 then []
    else (if Falsy(Field(data, required[0])) then [required[0]] else []) + MissingFields(data, required[1..])
  }

  /** Nothing is reported missing exactly when every listed field is truthy. */
  lemma {:induction false} NoMissingFields(data: map<string, Value>, required: seq<string>)
    ensures |MissingFields(data, required)| == 0 <==> forall i :: 0 <= i < |required| ==> !Falsy(Field(data, required[i]))
  {
    if |required| > 0 {
      NoMissingFields(data, required[1..]);
      assert forall i :: 1 <= i < |required| ==> required[i] == required[1..][i - 1];
    }
  }

  /** A field is reported missing exactly when it is listed and falsy. */
  lemma {:induction false} MissingFieldsMembers(data: map<string, Value>, required: seq<string>, f: string)
    ensures f in MissingFields(data, required) <==> f in required && Falsy(Field(data, f))
  {
    if |required| > 0 {
      MissingFieldsMembers(data, required[1..], f);
      assert f in required <==> f == required[0] || f in required[1..];
    }
  }

  /** `validateRequiredFields(data, requiredFields)`: `None` when it returns,
      the thrown error otherwise. */
  function ValidateRequiredFields(data: map<string, Value>, required: seq<string>): (r: Option<Thrown>)
    ensures r.None? <==> forall i :: 0 <= i < |required| ==> !Falsy(Field(data, required[i]))
    ensures r.Some? ==> r.value == ValidationError("Missing required fields: " + Join(MissingFields(data, required), ", "))
  {
    var missing := MissingFields(data, required);
    NoMissingFields(data, required);
    if |missing| > 0 then Some(ValidationError("Missing required fields: " + Join(missing, ", ")))
    else None
  }

  /** The missing-field list keeps the order of the request list: listing
      more fields adds their missing ones after the others. */
  lemma {:induction false} MissingFieldsAppend(data: map<string, Value>, a: seq<string>, b: seq<string>)
    ensures MissingFields(data, a + b) == MissingFields(data, a) + MissingFields(data, b)
  {
    if |a| > 0 {
      MissingFieldsAppend(data, a[1..], b);
      assert (a + b)[1..] == a[1..] + b && (a + b)[0] == a[0];
      var head := if Falsy(Field(data, a[0])) then [a[0]] else [];
      assert MissingFields(data, a + b) == head + MissingFields(data, a[1..] + b);
      assert MissingFields(data, a) == head + MissingFields(data, a[1..]);
    } else {
      assert a + b == b;
    }
  }

  /** `validateNumericRange(value, fieldName, min, max)`; a missing `max` is
      the default `Infinity`. */
  function ValidateNumericRange(v: Value, fieldName: string, min: int, max: Option<int>): (r: Option<Thrown>)
    ensures r.None? <==> v.Num? && v.x >= min as real && (max.None? || v.x <= max.value as real)
    ensures r.Some? ==> r.value.statusCode == Some(400)
  {
    if !v.Num? || v.x < min as real || (max.Some? && v.x > max.value as real) then
      Some(ValidationError(fieldName + " must be a number between " + DecimalText(min) + " and "
                           + (if max.Some? then DecimalText(max.value) else "Infinity")))
    else None
  }

  /** `validateDateRange(startDate, endDate)`; `None` is a date JavaScript
      cannot parse, against which every comparison is false. */
  function ValidateDateRange(start: Option<int>, end: Option<int>): (r: Option<Thrown>)
    ensures r.Some? <==> start.Some? && end.Some? && start.value > end.value
    ensures r.Some? ==> r.value == ValidationError("Start date must be before end date")
  {
    if start.Some? && end.Some? && start.value > end.value then
      Some(ValidationError("Start date must be before end date"))
    else None
  }

  /** Equal dates pass, and so does a range with an unparsable end. */
  lemma DateRangeEdges(t: int)
    ensures ValidateDateRange(Some(t), Some(t)).None?
    ensures ValidateDateRange(Some(t), None).None?
  {
  }

  /** `validateEnum(value, fieldName, allowedValues)`. */
  function ValidateEnum(v: string, fieldName: string, allowed: seq<string>): (r: Option<Thrown>)
    ensures r.None? <==> v in allowed
    ensures r.Some? ==> r.value == ValidationError(fieldName + " must be one of: " + Join(allowed, ", "))
  {
    if v !in allowed then Some(ValidationError(fieldName + " must be one of: " + Join(allowed, ", "))) else None
  }

  // ---- getPaginationMetadata ----

  /** A JavaScript number that may have left the integers: `Math.ceil` of a
      division by zero. */
  datatype Extended = Finite(n: int) | PlusInfinity | MinusInfinity | NotANumber

  /** `Math.ceil(count / limit)`. */
  function CeilQuotient(count: int, limit: int): (r: Extended)
    ensures limit > 0 ==> r.Finite? && (r.n - 1) * limit < count <= r.n * limit
    ensures limit < 0 ==> r.Finite? && r.n * limit <= count < (r.n - 1) * limit
    ensures limit == 0 ==> r == (if count > 0 then PlusInfinity else if count < 0 then MinusInfinity else NotANumber)
  {
    if limit > 0 then Finite(CeilDiv(count, limit))
    else if limit < 0 then Finite(CeilDiv(-count, -limit))
    else if count > 0 then PlusInfinity
    else if count < 0 then MinusInfinity
    else NotANumber
  }

  /** `page < totalPages` for any JavaScript number on the right. */
  predicate Below(page: int, pages: Extended) {
    match pages
    case Finite(n) => page < n
    case PlusInfinity => true
    case MinusInfinity => false
    case NotANumber => false
  }

  datatype Metadata = Metadata(currentPage: int, totalPages: Extended, totalCount: int, limit: int,
                               hasNext: bool, hasPrev: bool)

  /** `getPaginationMetadata(page, limit, totalCount)`, on the numbers the
      caller passes, without clamping. */
  function GetPaginationMetadata(page: int, limit: int, totalCount: int): (m: Metadata)
    ensures m.currentPage == page && m.limit == limit && m.totalCount == totalCount
    ensures m.totalPages == CeilQuotient(totalCount, limit)
    ensures m.hasNext <==> Below(page, m.totalPages)
    ensures m.hasPrev <==> page > 1
  {
    var pages := CeilQuotient(totalCount, limit);
    Metadata(page, pages, totalCount, limit, Below(page, pages), page > 1)
  }

  /** With a positive limit the pages just cover the records, and a page
      before the last has a next one. */
  lemma MetadataPagesCoverRecords(page: int, limit: int, totalCount: int)
    requires limit > 0 && totalCount >= 0
    ensures var m := GetPaginationMetadata(page, limit, totalCount);
      && m.totalPages.Finite? && m.totalPages.n >= 0
      && (m.totalPages.n - 1) * limit < totalCount <= m.totalPages.n * limit
      && (m.hasNext <==> page < m.totalPages.n)
      && (totalCount == 0 ==> m.totalPages.n == 0 && (m.hasNext <==> page < 0))
  {
  }

  /** A limit of zero with records present reports a next page forever. */
  lemma ZeroLimitAlwaysHasNext(page: int, totalCount: int)
    requires totalCount > 0
    ensures GetPaginationMetadata(page, 0, totalCount).hasNext
  {
  }
}
