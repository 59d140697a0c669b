/** The public booking form: its field updates (with `parseInt` on the
    number of persons), the submit transitions, and the submit button. */
module BookingForm {
  import opened Wrappers
  import opened Text
  import opened Store
  import Bookings

  /* ---------------------------------------------------------------------- */
  /* parseInt                                                               */
  /* ---------------------------------------------------------------------- */

  /** The longest run of digits at the start of `s`. */
  function DigitRun(s: string): (r: string)
    ensures AllDigits(r) && |r| <= |s| && r == s[..|r|]
    ensures |r| < |s| ==> !IsDigit(s[|r|])
    decreases |s|
  {
    if |s| > 0 && IsDigit(s[0]) then [s[0]] + DigitRun(s[1..]) else ""
  }

  /** What follows an optional leading sign. */
  function Unsigned(t: string): (r: string)
    ensures r == t || (|t| > 0 && r == t[1..])
  {
    if |t| > 0 && (t[0] == '-' || t[0] == '+') then t[1..] else t
  }

  /** `parseInt(value)` with the default radix, as far as a number input's
      value needs: leading white space, an optional sign, and the digits up
      to the first other character; None is `NaN`. */
  function JsParseInt(value: string): (r: Option<int>)
    ensures r.None? <==> DigitRun(Unsigned(TrimStart(value))) == ""
    // a value without any digit is NaN
    ensures (forall i :: 0 <= i < |value| ==> !IsDigit(value[i])) ==> r.None?
  {
    var t := TrimStart(value);
    var digits := DigitRun(Unsigned(t));
    assert |digits| > 0 ==> IsDigit(Unsigned(t)[0]) && Unsigned(t)[0] in value;
    if digits == "" then None
    else if |t| > 0 && t[0] == '-' then Some(0 - ParseDigits(digits) as int)
    else Some(ParseDigits(digits))
  }

  /** A run of digits reads as itself. */
  lemma {:induction false} DigitRunAll(s: string)
    requires AllDigits(s)
    ensures DigitRun(s) == s
    decreases |s|
  {
    if |s| > 0 {
      DigitRunAll(s[1..]);
    }
  }

  /** Digits followed by a non-digit read as the digits alone. */
  lemma {:induction false} DigitRunStops(d: string, rest: string)
    requires AllDigits(d) && |rest| > 0 && !IsDigit(rest[0])
    ensures DigitRun(d + rest) == d
    decreases |d|
  {
    if |d| > 0 {
      assert (d + rest)[1..] == d[1..] + rest;
      DigitRunStops(d[1..], rest);
    } else {
      assert d + rest == rest;
    }
  }

  /** A numeral without sign reads as its value. */
  lemma ParseIntOfDigits(s: string)
    requires |s| > 0 && AllDigits(s)
    ensures JsParseInt(s) == Some(ParseDigits(s))
  {
    assert IsDigit(s[0]);
    TrimStartNoSpace(s);
    assert Unsigned(s) == s;
    DigitRunAll(s);
  }

  /** A numeral after a minus sign reads as the negated value. */
  lemma ParseIntOfNegative(s: string)
    requires |s| > 0 && AllDigits(s)
    ensures JsParseInt("-" + s) == Some(0 - ParseDigits(s) as int)
  {
    TrimStartNoSpace("-" + s);
    assert Unsigned("-" + s) == s;
    DigitRunAll(s);
  }

  /** `parseInt(String(n))` gives `n` back for every integer. */
  lemma ParseIntOfString(n: int)
    ensures JsParseInt(IntToString(n)) == Some(n)
  {
    if n < 0 {
      ParseIntOfNegativeString(n);
    } else {
      var s := NatToString(n);
      assert IntToString(n) == s;
      ParseNatToString(n);
      ParseIntOfDigits(s);
    }
  }

  /** The negative half of `ParseIntOfString`. */
  lemma ParseIntOfNegativeString(n: int)
    requires n < 0
    ensures JsParseInt(IntToString(n)) == Some(n)
  {
    var m: nat := -n;
    var s := NatToString(m);
    assert IntToString(n) == "-" + s;
    ParseNatToString(m);
    ParseIntOfNegative(s);
  }

  /** `parseInt(value) || 1`: NaN and 0 become 1, anything else stays. */
  function ParsePersons(value: string): (r: int)
    ensures r != 0
    ensures JsParseInt(value).Some? && JsParseInt(value).value != 0 ==> r == JsParseInt(value).value
    ensures JsParseInt(value).None? || JsParseInt(value) == Some(0) ==> r == 1
  {
    match JsParseInt(value)
    case None => 1
    case Some(n) => if n == 0 then 1 else n
  }

  /** A numeral followed by something that is not a digit reads as the numeral. */
  lemma ParseIntStops(n: string, rest: string)
    requires |n| > 0 && AllDigits(n) && |rest| > 0 && !IsDigit(rest[0])
    ensures JsParseInt(n + rest) == Some(ParseDigits(n))
  {
    var s := n + rest;
    assert s[0] == n[0] && IsDigit(s[0]);
    TrimStartNoSpace(s);
    assert Unsigned(s) == s;
    DigitRunStops(n, rest);
  }

  /** `parseInt` stops at the decimal point. */
  lemma DecimalReadsIntegerPart(d: nat, f: nat)
    ensures JsParseInt(NatToString(d) + "." + NatToString(f)) == Some(d)
  {
    var n, rest := NatToString(d), "." + NatToString(f);
    ConcatAssoc(n, ".", NatToString(f));
    ParseIntStops(n, rest);
    ParseNatToString(d);
  }

  /** Typing a number keeps it, negative ones included; 0 becomes 1; a
      decimal keeps its integer part. */
  lemma PersonsFromTypedNumber(n: int, d: nat, f: nat)
    ensures ParsePersons(IntToString(n)) == if n == 0 then 1 else n
    ensures d > 0 ==> ParsePersons(NatToString(d) + "." + NatToString(f)) == d
  {
    ParseIntOfString(n);
    DecimalReadsIntegerPart(d, f);
  }

  /* ---------------------------------------------------------------------- */
  /* Form state                                                             */
  /* ---------------------------------------------------------------------- */

  /** The `formData` state. */
  datatype Fields = Fields(name: string, email: string, phone: string, date: string, persons: int, message: string)

  /** The fields the inputs are named after. */
  datatype Field = Name | Email | Phone | Date | Persons | Message

  const Blank: Fields := Fields("", "", "", "", 1, "")

  /** The whole component state. */
  datatype Form = Form(fields: Fields, loading: bool, success: bool, error: string)

  const Initial: Form := Form(Blank, false, false, "")

  /** `handleChange` for input `field` with the typed `value`. */
  function Change(f: Fields, field: Field, value: string): (r: Fields)
    ensures field != Name ==> r.name == f.name
    ensures field != Email ==> r.email == f.email
    ensures field != Phone ==> r.phone == f.phone
    ensures field != Date ==> r.date == f.date
    ensures field != Persons ==> r.persons == f.persons
    ensures field != Message ==> r.message == f.message
    ensures field == Name ==> r.name == value
    ensures field == Email ==> r.email == value
    ensures field == Phone ==> r.phone == value
    ensures field == Date ==> r.date == value
    ensures field == Message ==> r.message == value
    ensures field == Persons ==> r.persons == ParsePersons(value) && r.persons != 0
  {
    match field
    case Name => f.(name := value)
    case Email => f.(email := value)
    case Phone => f.(phone := value)
    case Date => f.(date := value)
    case Persons => f.(persons := ParsePersons(value))
    case Message => f.(message := value)
  }

  /** The number of persons never becomes 0 through the form, so the
      server's `!persons` check can only fail on it for a request sent
      around the form. */
  lemma PersonsNeverZero(f: Fields, field: Field, value: string)
    requires f.persons != 0
    ensures Change(f, field, value).persons != 0
  {
  }

  /** `disabled={loading || success}`. */
  predicate SubmitDisabled(form: Form) {
    form.loading || form.success
  }

  /** The request `handleSubmit` sends for a package. */
  function Request(f: Fields, packageId: Id): (r: Bookings.BookingRequest)
    ensures r.name == f.name && r.email == f.email && r.phone == f.phone && r.date == f.date
    ensures r.persons == f.persons && r.message == Some(f.message) && r.packageId == packageId
  {
    Bookings.BookingRequest(packageId, f.name, f.email, f.phone, f.date, f.persons, Some(f.message))
  }

  /** `handleSubmit` once the action has answered: `answer` is the action's
      result, or a thrown error's message under `threw`. Only a truthy error
      text counts as a failure; an empty one takes the success path. */
  function Submitted(form: Form, answer: Result<Bookings.Booking, string>, threw: Option<string>): (r: Form)
    ensures !r.loading
    // the success banner and an error text are never shown together
    ensures r.success <==> r.error == ""
    // success resets every field and shows the success banner
    ensures threw.None? && !Truthy(ErrorOf(answer)) ==> r == Form(Blank, false, true, "")
    // an error keeps the fields and shows the error
    ensures threw.None? && Truthy(ErrorOf(answer)) ==> r == Form(form.fields, false, false, answer.error)
    ensures threw.Some? ==>
              r.fields == form.fields && !r.success && r.error == MessageOr(threw.value, "An unexpected error occurred")
  {
    match threw
    case Some(m) => Form(form.fields, false, false, MessageOr(m, "An unexpected error occurred"))
    case None =>
      if Truthy(ErrorOf(answer)) then Form(form.fields, false, false, answer.error)
      else Form(Blank, false, true, "")
  }

  /** Every error `createBooking` answers with has a text, so after a
      submit through the form the banner shows exactly when the booking was
      stored, and a refused booking keeps what was typed. */
  lemma BannerMeansStored(form: Form, bookings: Bookings.Bookings, packages: Bookings.Packages, packageId: Id,
                          packageError: bool, newId: Id, now: int, refused: Option<DbError>)
    ensures var w := Bookings.CreateBooking(bookings, packages, Request(form.fields, packageId), packageError,
                                            newId, now, refused);
            var after := Submitted(form, w.answer, None);
            && (after.success <==> w.answer.Success?)
            && (after.success ==> newId in w.table && w.table[newId] == w.answer.value)
            && (!after.success ==> w.table == bookings && after.fields == form.fields)
  {
    var w := Bookings.CreateBooking(bookings, packages, Request(form.fields, packageId), packageError,
                                    newId, now, refused);
    if w.answer.Failure? {
      assert w.answer.error != "";
    }
  }

  /** Submitting the untouched form is refused by `createBooking` for its
      empty fields, and the form keeps its values. */
  lemma BlankFormRejected(bookings: Bookings.Bookings, packages: Bookings.Packages, packageId: Id,
                          packageError: bool, newId: Id, now: int, refused: Option<DbError>)
    ensures var w := Bookings.CreateBooking(bookings, packages, Request(Blank, packageId), packageError, newId, now, refused);
            && w == Write(Failure(Bookings.RequiredText), bookings)
            && Submitted(Initial, w.answer, None) == Form(Blank, false, false, Bookings.RequiredText)
  {
  }

  /** A booking made through the form stores no message when the message
      box is left empty, and after it the button stays disabled. */
  lemma EmptyMessageStoredAsNull(form: Form, bookings: Bookings.Bookings, packages: Bookings.Packages,
                                 packageId: Id, newId: Id, now: int)
    requires form.fields.message == ""
    requires Bookings.CreateBooking(bookings, packages, Request(form.fields, packageId), false, newId, now, None).answer.Success?
    ensures var w := Bookings.CreateBooking(bookings, packages, Request(form.fields, packageId), false, newId, now, None);
            && w.answer.value.message.None?
            && SubmitDisabled(Submitted(form, w.answer, None))
  {
    var w := Bookings.CreateBooking(bookings, packages, Request(form.fields, packageId), false, newId, now, None);
    assert w.answer.value.message.None? by {
      TrimKeeps("");
      assert w.answer.value.message == Bookings.StoredMessage(Some(""));
    }
    assert SubmitDisabled(Submitted(form, w.answer, None)) by {
      assert ErrorOf(w.answer) == None;
    }
  }
}
