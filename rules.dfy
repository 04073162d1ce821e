/**
 * The decisions the server actions make without touching the store
 * (src/lib/actions.ts): the complaint schema with its room-number rule and
 * first-error reporting, the login decision and the delete guard.
 */
module ActionRules {
  import opened Wrappers
  import opened ComplaintTypes
  import opened Decimal

  const RoomRequiredMessage := "Room number is required."
  const InvalidRoomMessage := "Invalid room number. Use 101-150, 201-250, 301-350, 401-450, or 501-550."
  const InvalidCategoryMessage := "Please select a valid category."
  const ShortDescriptionMessage := "Description must be at least 10 characters."
  /** The schema library's message for a form field that is absent (null). */
  const NotAStringMessage := "Expected string, received null"
  /** Reported when the first field error is an empty string. */
  const FallbackMessage := "Invalid data provided."

  /** The minimum description length. */
  const MinDescriptionLength: nat := 10

  // ---------------------------------------------------------------------
  // parseInt(val, 10)
  // ---------------------------------------------------------------------

  /**
   * The characters `parseInt` skips at the start: JavaScript's WhiteSpace
   * (tab, vertical tab, form feed, BOM, every space separator) and
   * LineTerminator (line feed, carriage return, U+2028, U+2029).
   */
  predicate IsJsWhitespace(ch: char)
  {
    var u := ch as int;
    || u == 0x09 || u == 0x0A || u == 0x0B || u == 0x0C || u == 0x0D || u == 0x20
    || u == 0xA0 || u == 0x1680 || (0x2000 <= u <= 0x200A) || u == 0x2028 || u == 0x2029
    || u == 0x202F || u == 0x205F || u == 0x3000 || u == 0xFEFF
  }

  /** `s` without its leading whitespace. */
  function SkipWhitespace(s: string): (r: string)
    ensures |r| <= |s| && r == s[|s| - |r|..]
    ensures forall i :: 0 <= i < |s| - |r| ==> IsJsWhitespace(s[i])
    ensures r != [] ==> !IsJsWhitespace(r[0])
  {
    if s != [] && IsJsWhitespace(s[0]) then SkipWhitespace(s[1..]) else s
  }

  /**
   * `parseInt(s, 10)` over unbounded integers: leading whitespace, an
   * optional sign, then the longest run of decimal digits; `None` stands
   * for NaN (no digits).
   */
  function ParseInt(s: string): Option<int>
  {
    ParseSigned(SkipWhitespace(s))
  }

  /** What `parseInt` reads once the whitespace is gone: an optional sign, then digits. */
  function ParseSigned(t: string): Option<int>
  {
    var negative := t != [] && t[0] == '-';
    var rest := if t != [] && (t[0] == '-' || t[0] == '+') then t[1..] else t;
    var digits := LeadingDigits(rest);
    if digits == [] then None
    else
      var magnitude: int := DigitsValue(digits);
      Some(if negative then -magnitude else magnitude)
  }

  /** A run of digits followed by text that does not start with a digit parses to the run's value. */
  lemma ParseIntOfDigits(d: string, suffix: string)
    requires d != [] && AllDigits(d)
    requires suffix == [] || !IsDigit(suffix[0])
    ensures ParseInt(d + suffix) == Some(DigitsValue(d))
  {
    var s := d + suffix;
    assert SkipWhitespace(s) == s;
    assert LeadingDigits(s) == d by {
      LeadingDigitsPrefix(d, suffix);
    }
  }

  /** Reading stops at the first non-digit: a number followed by any such text parses to it. */
  lemma ParseIntOfDecimal(n: nat, suffix: string)
    requires suffix == [] || !IsDigit(suffix[0])
    ensures ParseInt(NatToString(n) + suffix) == Some(n)
  {
    ParseIntOfDigits(NatToString(n), suffix);
    NatToStringRoundTrip(n);
  }

  /** The digit run of `d + suffix` is `d` when `d` is all digits and `suffix` does not start with one. */
  lemma {:induction false} LeadingDigitsPrefix(d: string, suffix: string)
    requires AllDigits(d)
    requires suffix == [] || !IsDigit(suffix[0])
    ensures LeadingDigits(d + suffix) == d
  {
    if d != [] {
      assert (d + suffix)[1..] == d[1..] + suffix;
      LeadingDigitsPrefix(d[1..], suffix);
    }
  }

  /** Leading whitespace is skipped up to the first character that is not whitespace. */
  lemma {:induction false} SkipWhitespacePrefix(w: string, t: string)
    requires forall i :: 0 <= i < |w| ==> IsJsWhitespace(w[i])
    requires t == [] || !IsJsWhitespace(t[0])
    ensures SkipWhitespace(w + t) == t
  {
    if w != [] {
      assert (w + t)[0] == w[0];
      assert (w + t)[1..] == w[1..] + t;
      SkipWhitespacePrefix(w[1..], t);
    }
  }

  /** After leading whitespace, `parseInt` reads the rest as `ParseSigned` does. */
  lemma ParseIntSkipsWhitespace(w: string, t: string)
    requires forall i :: 0 <= i < |w| ==> IsJsWhitespace(w[i])
    requires t == [] || !IsJsWhitespace(t[0])
    ensures ParseInt(w + t) == ParseSigned(t)
  {
    SkipWhitespacePrefix(w, t);
  }

  /** A `-` in front of digits and a non-digit suffix negates the digits' value. */
  lemma ParseSignedNegative(d: string, suffix: string, value: int)
    requires d != [] && AllDigits(d) && DigitsValue(d) == value
    requires suffix == [] || !IsDigit(suffix[0])
    ensures ParseSigned(['-'] + d + suffix) == Some(-value)
  {
    var t := ['-'] + d + suffix;
    assert t[1..] == d + suffix;
    LeadingDigitsPrefix(d, suffix);
  }

  /** A `+` in front of digits and a non-digit suffix changes nothing. */
  lemma ParseSignedPlus(d: string, suffix: string, value: int)
    requires d != [] && AllDigits(d) && DigitsValue(d) == value
    requires suffix == [] || !IsDigit(suffix[0])
    ensures ParseSigned(['+'] + d + suffix) == Some(value)
  {
    var t := ['+'] + d + suffix;
    assert t[1..] == d + suffix;
    LeadingDigitsPrefix(d, suffix);
  }

  /** Digits and a non-digit suffix, with no sign, give the digits' value. */
  lemma ParseSignedUnsigned(d: string, suffix: string, value: int)
    requires d != [] && AllDigits(d) && DigitsValue(d) == value
    requires suffix == [] || !IsDigit(suffix[0])
    ensures ParseSigned(d + suffix) == Some(value)
  {
    LeadingDigitsPrefix(d, suffix);
  }

  lemma Regroup3(w: string, d: string, suffix: string)
    ensures w + d + suffix == w + (d + suffix)
  {
  }

  lemma Regroup(w: string, sign: string, d: string, suffix: string)
    ensures w + sign + d + suffix == w + (sign + d + suffix)
  {
  }

  /**
   * Whitespace, then an optional sign, then a number's decimal text, then
   * text that does not start with a digit: `+` and no sign give the number,
   * `-` its negation.
   */
  lemma ParseIntOfSignedDecimal(w: string, n: nat, suffix: string)
    requires forall i :: 0 <= i < |w| ==> IsJsWhitespace(w[i])
    requires suffix == [] || !IsDigit(suffix[0])
    ensures ParseInt(w + NatToString(n) + suffix) == Some(n)
    ensures ParseInt(w + "+" + NatToString(n) + suffix) == Some(n)
    ensures ParseInt(w + "-" + NatToString(n) + suffix) == Some(-(n as int))
  {
    UnsignedAfterWhitespace(w, n, suffix);
    PlusAfterWhitespace(w, n, suffix);
    MinusAfterWhitespace(w, n, suffix);
  }

  lemma UnsignedAfterWhitespace(w: string, n: nat, suffix: string)
    requires forall i :: 0 <= i < |w| ==> IsJsWhitespace(w[i])
    requires suffix == [] || !IsDigit(suffix[0])
    ensures ParseInt(w + NatToString(n) + suffix) == Some(n)
  {
    var d := NatToString(n);
    NatToStringRoundTrip(n);
    ParseSignedUnsigned(d, suffix, n);
    Regroup3(w, d, suffix);
    assert (d + suffix)[0] == d[0];
    ParseIntSkipsWhitespace(w, d + suffix);
  }

  lemma PlusAfterWhitespace(w: string, n: nat, suffix: string)
    requires forall i :: 0 <= i < |w| ==> IsJsWhitespace(w[i])
    requires suffix == [] || !IsDigit(suffix[0])
    ensures ParseInt(w + "+" + NatToString(n) + suffix) == Some(n)
  {
    var d := NatToString(n);
    NatToStringRoundTrip(n);
    ParseSignedPlus(d, suffix, n);
    Regroup(w, "+", d, suffix);
    ParseIntSkipsWhitespace(w, ['+'] + d + suffix);
  }

  lemma MinusAfterWhitespace(w: string, n: nat, suffix: string)
    requires forall i :: 0 <= i < |w| ==> IsJsWhitespace(w[i])
    requires suffix == [] || !IsDigit(suffix[0])
    ensures ParseInt(w + "-" + NatToString(n) + suffix) == Some(-(n as int))
  {
    var d := NatToString(n);
    NatToStringRoundTrip(n);
    ParseSignedNegative(d, suffix, n);
    Regroup(w, "-", d, suffix);
    ParseIntSkipsWhitespace(w, ['-'] + d + suffix);
  }

  /** Text that starts with neither whitespace, a sign nor a digit is NaN. */
  lemma NoLeadingNumberIsNaN(s: string)
    requires s != [] && !IsJsWhitespace(s[0]) && !IsDigit(s[0]) && s[0] != '-' && s[0] != '+'
    ensures ParseInt(s) == None
  {
  }

  // ---------------------------------------------------------------------
  // The room-number refinement
  // ---------------------------------------------------------------------

  /** JavaScript's `a % 100`: the remainder of truncating division, with the sign of `a`. */
  function JsRemainder100(a: int): (r: int)
    ensures a >= 0 ==> 0 <= r < 100
    ensures a < 0 ==> -100 < r <= 0
    ensures (a - r) % 100 == 0
  {
    if a >= 0 then a % 100 else -((-a) % 100)
  }

  /**
   * `floor = Math.floor(n / 100)`, `room = n % 100`, and both in range.
   * Dafny's `/` with a positive divisor is floor division, as `Math.floor`
   * of the quotient is. The rule admits exactly the five ranges the
   * error message lists.
   */
  function RoomCodeValid(n: int): (b: bool)
    ensures b <==> (101 <= n <= 150 || 201 <= n <= 250 || 301 <= n <= 350 ||
                    401 <= n <= 450 || 501 <= n <= 550)
  {
    var floor := n / 100;
    var room := JsRemainder100(n);
    1 <= floor <= 5 && 1 <= room <= 50
  }

  /** The `refine` predicate on the room-number string. */
  predicate RoomRefine(room: string)
  {
    match ParseInt(room)
    case None => false
    case Some(n) => RoomCodeValid(n)
  }

  /** The placeholder shown in the form, `A-101`, is not a valid room number. */
  lemma PlaceholderRoomRejected()
    ensures !RoomRefine("A-101")
  {
    NoLeadingNumberIsNaN("A-101");
  }

  /** A room number written in decimal is valid exactly when its code is in the five ranges. */
  lemma DecimalRoomRefine(n: nat, suffix: string)
    requires suffix == [] || !IsDigit(suffix[0])
    ensures RoomRefine(NatToString(n) + suffix) <==> RoomCodeValid(n)
  {
    ParseIntOfDecimal(n, suffix);
  }

  /** The refinement accepts exactly the strings `parseInt` reads as a number in one of the five ranges. */
  lemma RoomRefineRanges(room: string)
    ensures RoomRefine(room) <==>
              ParseInt(room).Some? &&
              var n := ParseInt(room).value;
              (101 <= n <= 150 || 201 <= n <= 250 || 301 <= n <= 350 ||
               401 <= n <= 450 || 501 <= n <= 550)
  {
  }

  /** A room-number string of digits, then text not starting with a digit, is judged by the digits' value. */
  lemma DigitRoomRefine(d: string, suffix: string, value: int)
    requires d != [] && AllDigits(d) && DigitsValue(d) == value
    requires suffix == [] || !IsDigit(suffix[0])
    ensures RoomRefine(d + suffix) <==> RoomCodeValid(value)
  {
    ParseIntOfDigits(d, suffix);
  }

  /** `parseInt` ignores what follows the digits, so `101B` passes as room 101. */
  lemma TrailingTextAccepted()
    ensures RoomRefine("101B")
  {
    assert DigitsValue("101") == 101 by {
      assert "101"[..2] == "10" && "10"[..1] == "1" && "1"[..0] == "";
    }
    DigitRoomRefine("101", "B", 101);
    assert "101" + "B" == "101B";
  }

  /** Room numbers just past an edge of the building, and zero. */
  lemma RejectedRoomExamples()
    ensures !RoomRefine("151") && !RoomRefine("551") && !RoomRefine("0")
  {
    PastFirstFloorRejected();
    PastTopFloorRejected();
    ZeroRoomRejected();
  }

  lemma PastFirstFloorRejected()
    ensures !RoomRefine("151")
  {
    assert DigitsValue("151") == 151 by {
      assert "151"[..2] == "15" && "15"[..1] == "1" && "1"[..0] == "";
    }
    DigitRoomRefine("151", [], 151);
    assert "151" + [] == "151";
  }

  lemma PastTopFloorRejected()
    ensures !RoomRefine("551")
  {
    assert DigitsValue("551") == 551 by {
      assert "551"[..2] == "55" && "55"[..1] == "5" && "5"[..0] == "";
    }
    DigitRoomRefine("551", [], 551);
    assert "551" + [] == "551";
  }

  lemma ZeroRoomRejected()
    ensures !RoomRefine("0")
  {
    assert DigitsValue("0") == 0 by {
      assert "0"[..0] == "";
    }
    DigitRoomRefine("0", [], 0);
    assert "0" + [] == "0";
  }

  /** Negative numbers are read with their sign, and are rejected. */
  lemma NegativeRoomRejected(n: nat)
    ensures !RoomRefine("-" + NatToString(n))
  {
    var d := NatToString(n);
    assert "-" + d == [] + (['-'] + d + []);
    ParseIntSkipsWhitespace([], ['-'] + d + []);
    NatToStringRoundTrip(n);
    ParseSignedNegative(d, [], n);
  }

  // ---------------------------------------------------------------------
  // ComplaintSchema and the first reported error
  // ---------------------------------------------------------------------

  /** The messages reported for the room-number field, in the order the schema checks them. */
  function RoomErrors(room: Option<string>): (r: seq<string>)
    ensures r == [] <==> room.Some? && room.value != [] && RoomRefine(room.value)
    ensures room.None? ==> r == [NotAStringMessage]
    ensures room == Some([]) ==> r == [RoomRequiredMessage, InvalidRoomMessage]
    ensures room.Some? && room.value != [] && r != [] ==> r == [InvalidRoomMessage]
  {
    match room
    case None => [NotAStringMessage]
    case Some(s) =>
      (if |s| < 1 then [RoomRequiredMessage] else []) +
      (if RoomRefine(s) then [] else [InvalidRoomMessage])
  }

  /** The category field passes exactly when it holds the name of a category. */
  function CategoryErrors(category: Option<string>): (r: seq<string>)
    ensures r == [] <==> category.Some? && exists c: Category :: CategoryName(c) == category.value
    ensures r != [] ==> r == [InvalidCategoryMessage]
  {
    if category.Some? && ParseCategory(category.value).Some? then [] else [InvalidCategoryMessage]
  }

  /** The description field passes exactly when it is a string of at least ten characters. */
  function DescriptionErrors(description: Option<string>): (r: seq<string>)
    ensures r == [] <==> description.Some? && |description.value| >= MinDescriptionLength
    ensures description.None? ==> r == [NotAStringMessage]
    ensures description.Some? && r != [] ==> r == [ShortDescriptionMessage]
  {
    match description
    case None => [NotAStringMessage]
    case Some(s) => if |s| >= MinDescriptionLength then [] else [ShortDescriptionMessage]
  }

  /** The first message of the first field that has any, the fields taken in schema order. */
  function FirstFieldError(fieldErrors: seq<seq<string>>): (r: Option<string>)
    ensures r.None? <==> forall i :: 0 <= i < |fieldErrors| ==> fieldErrors[i] == []
    ensures r.Some? ==> exists i :: 0 <= i < |fieldErrors| && fieldErrors[i] != [] &&
                                    fieldErrors[i][0] == r.value &&
                                    forall j :: 0 <= j < i ==> fieldErrors[j] == []
  {
    if fieldErrors == [] then None
    else if fieldErrors[0] != [] then Some(fieldErrors[0][0])
    else
      var r := FirstFieldError(fieldErrors[1..]);
      assert r.Some? ==> exists i :: 1 <= i < |fieldErrors| && fieldErrors[i] != [] &&
                                     fieldErrors[i][0] == r.value &&
                                     forall j :: 0 <= j < i ==> fieldErrors[j] == [] by {
        if r.Some? {
          var i :| 0 <= i < |fieldErrors| - 1 && fieldErrors[1..][i] != [] &&
                   fieldErrors[1..][i][0] == r.value &&
                   forall j :: 0 <= j < i ==> fieldErrors[1..][j] == [];
          assert fieldErrors[i + 1] == fieldErrors[1..][i];
        }
      }
      r
  }

  /** With three fields, the first error is read off the first non-empty list. */
  lemma FirstOfThreeFields(a: seq<string>, b: seq<string>, c: seq<string>)
    ensures FirstFieldError([a, b, c]) ==
      if a != [] then Some(a[0]) else if b != [] then Some(b[0]) else if c != [] then Some(c[0]) else None
  {
    assert [a, b, c][1..] == [b, c] && [b, c][1..] == [c] && [c][1..] == [];
    assert FirstFieldError([c]) == if c != [] then Some(c[0]) else None;
    assert FirstFieldError([b, c]) == if b != [] then Some(b[0]) else FirstFieldError([c]);
  }

  /**
   * `ComplaintSchema.safeParse` followed by the error selection of
   * `submitComplaint`: either the validated input, or the message of the
   * first failing field in the order room number, category, description.
   */
  function ValidateComplaint(room: Option<string>, category: Option<string>, description: Option<string>)
    : (r: Result<ComplaintInput, string>)
    ensures r.Success? <==>
      && room.Some? && |room.value| >= 1 && RoomRefine(room.value)
      && category.Some? && ParseCategory(category.value).Some?
      && description.Some? && |description.value| >= 10
    ensures r.Success? ==>
      r.value == ComplaintInput(room.value, ParseCategory(category.value).value, description.value)
    ensures r.Failure? ==> (r.error ==
      if room.None? then NotAStringMessage
      else if room.value == "" then RoomRequiredMessage
      else if !RoomRefine(room.value) then InvalidRoomMessage
      else if category.None? || ParseCategory(category.value).None? then InvalidCategoryMessage
      else if description.None? then NotAStringMessage
      else ShortDescriptionMessage)
  {
    var roomErrors, categoryErrors, descriptionErrors :=
      RoomErrors(room), CategoryErrors(category), DescriptionErrors(description);
    FirstOfThreeFields(roomErrors, categoryErrors, descriptionErrors);
    match FirstFieldError([roomErrors, categoryErrors, descriptionErrors])
    case None =>
      Success(ComplaintInput(room.value, ParseCategory(category.value).value, description.value))
    case Some(m) =>
      Failure(if m == "" then FallbackMessage else m)
  }

  /** An empty room number is reported as missing, before anything else. */
  lemma EmptyRoomReportedFirst(category: Option<string>, description: Option<string>)
    ensures ValidateComplaint(Some(""), category, description) == Failure(RoomRequiredMessage)
  {
  }

  // ---------------------------------------------------------------------
  // login and deleteComplaintAction
  // ---------------------------------------------------------------------

  const AdminEmail := "admin@hallcomplaint.com"
  const AdminPassword := "12345"
  const InvalidFormMessage := "Invalid email or password."
  const InvalidCredentialsMessage := "Invalid credentials."

  /** `LoggedIn` stands for setting the session cookie and redirecting to the dashboard. */
  datatype LoginOutcome = LoggedIn | LoginRejected(message: string)

  /**
   * The login decision. `isEmail` is the schema library's email syntax
   * check; a field absent from the form is `None`.
   */
  function Login(email: Option<string>, password: Option<string>, isEmail: string -> bool): (r: LoginOutcome)
    ensures r.LoggedIn? <==> email == Some(AdminEmail) && password == Some(AdminPassword) && isEmail(AdminEmail)
    ensures r.LoginRejected? && email.Some? && isEmail(email.value) && password.Some? && password.value != "" ==>
      r.message == InvalidCredentialsMessage
    ensures r.LoginRejected? && !(email.Some? && isEmail(email.value) && password.Some? && password.value != "") ==>
      r.message == InvalidFormMessage
  {
    if email.None? || !isEmail(email.value) || password.None? || |password.value| < 1 then
      LoginRejected(InvalidFormMessage)
    else if email.value == AdminEmail && password.value == AdminPassword then
      LoggedIn
    else
      LoginRejected(InvalidCredentialsMessage)
  }

  /** Two wrong, well-formed credential pairs get the same answer: nothing tells which field was wrong. */
  lemma WrongCredentialsIndistinguishable(e1: string, p1: string, e2: string, p2: string, isEmail: string -> bool)
    requires isEmail(e1) && isEmail(e2) && p1 != "" && p2 != ""
    requires (e1, p1) != (AdminEmail, AdminPassword) && (e2, p2) != (AdminEmail, AdminPassword)
    ensures Login(Some(e1), Some(p1), isEmail) == Login(Some(e2), Some(p2), isEmail) ==
            LoginRejected(InvalidCredentialsMessage)
  {
  }

  const InvalidIdMessage := "Invalid ID provided"

  /** `DeleteForwarded` stands for handing the id on to the store's delete operation. */
  datatype DeleteDecision = DeleteRejected(message: string) | DeleteForwarded(id: string)

  /** The guard at the top of `deleteComplaintAction`: an empty id is refused. */
  function DeleteGuard(id: string): (r: DeleteDecision)
    ensures r.DeleteRejected? <==> id == ""
    ensures r.DeleteRejected? ==> r.message == InvalidIdMessage
    ensures r.DeleteForwarded? ==> r.id == id
  {
    if id == "" then DeleteRejected(InvalidIdMessage) else DeleteForwarded(id)
  }
}
