/** The explicit request rules of middleware/validation.js: the username,
    password, CNIC, password-confirmation, pagination and goal-year checks,
    and the gate that turns collected errors into a 400 answer. Each chain
    runs all of its checks and reports one message per failing check, in
    order; a missing body field reads as the empty string. */
module RequestValidation {
  import opened Common
  import ErrorHandling
  import Accounts

  /** One collected error: the field and the message of the failing check. */
  datatype Item = Item(field: string, message: string)

  /** One check of a chain: its message when it fails, nothing when it passes. */
  function Check(field: string, ok: bool, message: string): (items: seq<Item>)
    ensures ok <==> items == []
    ensures !ok ==> items == [Item(field, message)]
  {
    if ok then [] else [Item(field, message)]
  }

  // ---- character classes ----

  predicate IsDigit(c: char) { '0' <= c <= '9' }
  predicate IsLower(c: char) { 'a' <= c <= 'z' }
  predicate IsUpper(c: char) { 'A' <= c <= 'Z' }

  /** `[a-zA-Z0-9_]`. */
  predicate IsWordChar(c: char) { IsLower(c) || IsUpper(c) || IsDigit(c) || c == '_' }

  /** The characters at which `.` in a JavaScript pattern stops. */
  predicate IsLineTerminator(c: char) { c == '\n' || c == '\r' || c == '\U{2028}' || c == '\U{2029}' }

  /** U+FE0E and U+FE0F, the variation selectors that `isLength` leaves out
      of its count. */
  predicate IsPresentationSelector(c: char) { c == '\U{FE0E}' || c == '\U{FE0F}' }

  /** The length `isLength` measures: code points (a surrogate pair is one),
      less the variation selectors. */
  function MeasuredLength(s: string): (n: nat)
    ensures n <= |s|
    ensures n == |s| <==> forall i :: 0 <= i < |s| ==> !IsPresentationSelector(s[i])
  {
    if |s| == 0 then 0
    else
      var rest := MeasuredLength(s[1..]);
      assert forall i :: 1 <= i < |s| ==> s[i] == s[1..][i - 1];
      (if IsPresentationSelector(s[0]) then 0 else 1) + rest
  }

  /** A variation selector adds a character but not to the measured length,
      so five visible characters and a selector are still too short. */
  lemma SelectorsAreNotCounted()
    ensures MeasuredLength("Aa1bc\U{FE0F}") == 5
    ensures PasswordErrors("password", "Aa1bc\U{FE0F}", "", "") != []
    ensures PasswordErrors("password", "Aa1bcd", "", "") == []
  {
    assert FirstLine("Aa1bcd") == "Aa1bcd" by {
      FirstLineOfUnbroken("Aa1bcd");
    }
    assert "Aa1bcd"[0] == 'A' && "Aa1bcd"[1] == 'a' && "Aa1bcd"[2] == '1';
  }

  // ---- username ----

  /** `/^[a-zA-Z0-9_]+$/`. */
  predicate WordOnly(s: string) {
    |s| > 0 && forall i :: 0 <= i < |s| ==> IsWordChar(s[i])
  }

  /** The `username` chain of `validateAuthUser`. */
  function UsernameErrors(u: string): (items: seq<Item>)
    ensures |items| == 0 <==> 3 <= |u| <= 50 && WordOnly(u)
    ensures u == "" ==> |items| == 3
  {
    Check("username", u != "", "Username is required")
    + Check("username", 3 <= MeasuredLength(u) <= 50, "Username must be between 3 and 50 characters")
    + Check("username", WordOnly(u), "Username can only contain letters, numbers, and underscores")
  }

  // ---- password ----

  /** The text up to the first line terminator. */
  function FirstLine(s: string): (r: string)
    ensures |r| <= |s| && r == s[..|r|]
    ensures forall i :: 0 <= i < |r| ==> !IsLineTerminator(r[i])
    ensures |r| < |s| ==> IsLineTerminator(s[|r|])
  {
    if |s| == 0 || IsLineTerminator(s[0]) then "" else [s[0]] + FirstLine(s[1..])
  }

  predicate Has(s: string, member: char -> bool) {
    exists i :: 0 <= i < |s| && member(s[i])
  }

  /** `/^(?=.*[a-z])(?=.*[A-Z])(?=.*\d)/`: each lookahead scans with `.*`
      from the start, so only the first line counts. */
  predicate StrongPattern(p: string) {
    var line := FirstLine(p);
    Has(line, IsLower) && Has(line, IsUpper) && Has(line, IsDigit)
  }

  /** The `password` chain of `validateAuthUser` and the `newPassword` chain
      of `validatePasswordChange`, with their own messages. */
  function PasswordErrors(field: string, p: string, lengthMessage: string, patternMessage: string): (items: seq<Item>)
    ensures |items| == 0 <==> MeasuredLength(p) >= 6 && StrongPattern(p)
  {
    Check(field, MeasuredLength(p) >= 6, lengthMessage) + Check(field, StrongPattern(p), patternMessage)
  }

  /** The first line of a text that breaks after `line` is `line`. */
  lemma {:induction false} FirstLineStopsAtBreak(line: string, t: char, rest: string)
    requires forall i :: 0 <= i < |line| ==> !IsLineTerminator(line[i])
    requires IsLineTerminator(t)
    ensures FirstLine(line + [t] + rest) == line
    decreases |line|
  {
    if |line| > 0 {
      FirstLineStopsAtBreak(line[1..], t, rest);
      assert (line + [t] + rest)[1..] == line[1..] + [t] + rest;
    }
  }

  /** Only the first line decides the pattern: a letter or digit after a
      line break does not count, and a password whose first line lacks a
      digit is refused whatever follows. */
  lemma PatternSeesOnlyFirstLine(line: string, t: char, rest: string)
    requires forall i :: 0 <= i < |line| ==> !IsLineTerminator(line[i])
    requires IsLineTerminator(t)
    ensures StrongPattern(line + [t] + rest) <==> StrongPattern(line)
    ensures !Has(line, IsDigit) ==> PasswordErrors("password", line + [t] + rest, "", "") != []
  {
    FirstLineStopsAtBreak(line, t, rest);
    FirstLineStopsAtBreak(line, t, []);
    assert line + [t] + [] == line + [t];
    FirstLineOfUnbroken(line);
  }

  lemma {:induction false} FirstLineOfUnbroken(line: string)
    requires forall i :: 0 <= i < |line| ==> !IsLineTerminator(line[i])
    ensures FirstLine(line) == line
    decreases |line|
  {
    if |line| > 0 {
      FirstLineOfUnbroken(line[1..]);
    }
  }

  // ---- CNIC ----

  predicate DigitsAt(s: string, from: int, to: int)
    requires 0 <= from <= to <= |s|
  {
    forall i :: from <= i < to ==> IsDigit(s[i])
  }

  /** `/^\d{5}-\d{7}-\d{1}$/`. */
  predicate CnicShape(c: string) {
    |c| == 15 && DigitsAt(c, 0, 5) && c[5] == '-' && DigitsAt(c, 6, 13) && c[13] == '-' && IsDigit(c[14])
  }

  /** The optional `cnic` chain of `validateUser` and `validateUserUpdate`. */
  function CnicErrors(c: Option<string>): (items: seq<Item>)
    ensures |items| == 0 <==> c.None? || CnicShape(c.value)
  {
    if c.None? then [] else Check("cnic", CnicShape(c.value), "CNIC format should be XXXXX-XXXXXXX-X")
  }

  /** The three digit groups joined by dashes always pass. */
  lemma CnicAcceptsItsFormat(a: string, b: string, d: char)
    requires |a| == 5 && |b| == 7 && IsDigit(d)
    requires forall i :: 0 <= i < |a| ==> IsDigit(a[i])
    requires forall i :: 0 <= i < |b| ==> IsDigit(b[i])
    ensures CnicErrors(Some(a + "-" + b + "-" + [d])) == []
  {
    var c := a + "-" + b + "-" + [d];
    assert forall i :: 0 <= i < 5 ==> c[i] == a[i];
    assert forall i :: 6 <= i < 13 ==> c[i] == b[i - 6];
  }

  // ---- password change ----

  /** `validatePasswordChange`: the confirmation compares strictly, so two
      missing values match. */
  function PasswordChangeErrors(current: string, newPassword: Option<string>, confirm: Option<string>): (items: seq<Item>)
    ensures |items| == 0 <==>
              && current != ""
              && MeasuredLength(if newPassword.Some? then newPassword.value else "") >= 6
              && StrongPattern(if newPassword.Some? then newPassword.value else "")
              && confirm == newPassword
  {
    var np := if newPassword.Some? then newPassword.value else "";
    var a := Check("currentPassword", current != "", "Current password is required");
    var b := PasswordErrors("newPassword", np, "New password must be at least 6 characters",
                            "New password must contain at least one uppercase letter, one lowercase letter, and one number");
    var c := Check("confirmPassword", confirm == newPassword, "Password confirmation does not match");
    assert |a + b + c| == |a| + |b| + |c|;
    a + b + c
  }

  // ---- integers in the query ----

  /** `isInt`'s default pattern `^[-+]?[0-9]+$`. */
  predicate Numeral(s: string) {
    var body := if |s| > 0 && (s[0] == '-' || s[0] == '+') then s[1..] else s;
    |body| > 0 && forall i :: 0 <= i < |body| ==> IsDigit(body[i])
  }

  /** The value of a numeral. */
  function NumeralValue(s: string): int
    requires Numeral(s)
  {
    if s[0] == '-' then -ErrorHandling.DigitsValue(s[1..])
    else if s[0] == '+' then ErrorHandling.DigitsValue(s[1..])
    else ErrorHandling.DigitsValue(s)
  }

  /** `isInt({ min, max })`. */
  predicate IsInt(s: string, min: int, max: Option<int>) {
    Numeral(s) && min <= NumeralValue(s) && (max.None? || NumeralValue(s) <= max.value)
  }

  lemma {:induction false} DecimalTextIsDigits(n: nat)
    ensures forall i :: 0 <= i < |ErrorHandling.DecimalText(n)| ==> IsDigit(ErrorHandling.DecimalText(n)[i])
    decreases n
  {
    if n >= 10 {
      DecimalTextIsDigits(n / 10);
    }
  }

  /** The numeral of a natural number is read back as that number. */
  lemma NumeralOfNatural(n: nat)
    ensures Numeral(ErrorHandling.DecimalText(n)) && NumeralValue(ErrorHandling.DecimalText(n)) == n
  {
    DecimalTextIsDigits(n);
    ErrorHandling.DecimalTextRoundTrip(n);
  }

  /** `validatePagination`: each parameter is checked only when present. */
  function PaginationErrors(page: Option<string>, limit: Option<string>): (items: seq<Item>)
    ensures |items| == 0 <==> (page.None? || IsInt(page.value, 1, None)) && (limit.None? || IsInt(limit.value, 1, Some(100)))
  {
    (if page.None? then [] else Check("page", IsInt(page.value, 1, None), "Page must be a positive integer"))
    + (if limit.None? then [] else Check("limit", IsInt(limit.value, 1, Some(100)), "Limit must be between 1 and 100"))
  }

  /** Every page number from 1 and every limit from 1 to 100 passes when
      written as a plain numeral. */
  lemma PaginationAcceptsItsRange(page: nat, limit: nat)
    requires page >= 1 && 1 <= limit <= 100
    ensures PaginationErrors(Some(ErrorHandling.DecimalText(page)), Some(ErrorHandling.DecimalText(limit))) == []
  {
    NumeralOfNatural(page);
    NumeralOfNatural(limit);
  }

  /** Out of range is refused: page 0 and limit 101. */
  lemma PaginationRefusesOutside()
    ensures PaginationErrors(Some("0"), None) != []
    ensures PaginationErrors(None, Some("101")) != []
  {
    NumeralOfNatural(0);
    NumeralOfNatural(101);
    assert ErrorHandling.DecimalText(0) == "0";
    assert ErrorHandling.DecimalText(101) == "101" by {
      assert ErrorHandling.DecimalText(10) == "10";
    }
  }

  /** The `year` check of `validateYearlyGoals`, the same bounds the goal
      table enforces. */
  function YearErrors(year: string): (items: seq<Item>)
    ensures |items| == 0 <==> Numeral(year) && 2000 <= NumeralValue(year) <= 2100
  {
    Check("year", IsInt(year, 2000, Some(2100)), "Year must be between 2000 and 2100")
  }

  // ---- role ----

  /** The `role` chain of `validateAuthUser`. */
  function RoleErrors(role: string): (items: seq<Item>)
    ensures |items| == 0 <==> role in ["admin", "manager", "member"]
  {
    Check("role", role in ["admin", "manager", "member"], "Role must be admin, manager, or member")
  }

  /** The list shares no value with the account roles, so every role an
      account can hold is refused by this chain. */
  lemma RoleListMissesAccountRoles(r: Accounts.Role)
    ensures RoleErrors(Accounts.RoleName(r)) != []
  {
  }

  // ---- handleValidationErrors ----

  datatype Verdict = Proceed | BadRequest(code: int, message: string, errors: seq<Item>)

  /** `handleValidationErrors`: any collected error answers 400 with all of
      them, and the request goes no further. */
  function HandleValidationErrors(items: seq<Item>): (v: Verdict)
    ensures v == Proceed <==> |items| == 0
    ensures v.BadRequest? ==> v.code == 400 && v.errors == items
  {
    if |items| == 0 then Proceed else BadRequest(400, "Validation errors", items)
  }

  /** `validateAuthUser` on the explicit rules; the e-mail check is a library
      predicate and comes in as its verdict. */
  function ValidateAuthUser(username: string, emailValid: bool, password: string, role: string): (v: Verdict)
    ensures v == Proceed <==>
              3 <= |username| <= 50 && WordOnly(username) && emailValid
              && MeasuredLength(password) >= 6 && StrongPattern(password) && role in ["admin", "manager", "member"]
  {
    HandleValidationErrors(
      UsernameErrors(username)
      + Check("email", emailValid, "Valid email is required")
      + PasswordErrors("password", password, "Password must be at least 6 characters",
                       "Password must contain at least one uppercase letter, one lowercase letter, and one number")
      + RoleErrors(role))
  }
}
