/**
 * The check-in form: its data, the rule-per-field validator, the phone pattern
 * it enforces, and the single-field update made on every input change.
 */
module AttendanceForm {
  import opened Ascii
  import Phone

  /** The form's state; `visitorStatus` is the raw value of its select. */
  datatype FormData = FormData(
    fullName: string,
    age: int,
    phoneNumber: string,
    courseOfStudy: string,
    level: string,
    hallHostel: string,
    visitorStatus: string,
    dataConsent: bool)

  /** The form's fields, which are also the keys of its error map. */
  datatype Field = FullName | Age | PhoneNumber | CourseOfStudy | Level | HallHostel | VisitorStatus | DataConsent

  const AllFields: set<Field> := {FullName, Age, PhoneNumber, CourseOfStudy, Level, HallHostel, VisitorStatus, DataConsent}

  /** The number of fields the validator checks. */
  const FieldCount := 8

  lemma EveryFieldListed(f: Field)
    ensures f in AllFields
  {
    match f
    case FullName =>
    case Age =>
    case PhoneNumber =>
    case CourseOfStudy =>
    case Level =>
    case HallHostel =>
    case VisitorStatus =>
    case DataConsent =>
  }

  const MinAge := 16
  const MaxAge := 35

  // ---------------------------------------------------------------------------
  // The phone pattern /^(\+234|0)[789]\d{9}$/

  /** `[789]\d{9}`: a mobile prefix digit followed by nine digits. */
  predicate SubscriberNumber(t: string) {
    |t| == 10 && t[0] in "789" && AllDigits(t[1..])
  }

  /** `/^(\+234|0)[789]\d{9}$/.test(s)` */
  function MatchesPhonePattern(s: string): (ok: bool)
    ensures ok <==> |s| >= 10 && SubscriberNumber(s[|s| - 10..]) && s[..|s| - 10] in {"0", "+234"}
  {
    PatternFromTheEnd(s);
    || (StartsWith(s, "+234") && SubscriberNumber(s[4..]))
    || (StartsWith(s, "0") && SubscriberNumber(s[1..]))
  }

  /** Reading the pattern from the end: ten subscriber digits, after `0` or `+234`. */
  lemma PatternFromTheEnd(s: string)
    ensures ((StartsWith(s, "+234") && SubscriberNumber(s[4..])) || (StartsWith(s, "0") && SubscriberNumber(s[1..])))
        <==> |s| >= 10 && SubscriberNumber(s[|s| - 10..]) && s[..|s| - 10] in {"0", "+234"}
  {
    if |s| >= 10 && s[..|s| - 10] == "0" {
      assert |s| == 11 && s[1..] == s[|s| - 10..];
    }
    if |s| >= 10 && s[..|s| - 10] == "+234" {
      assert |s| == 14 && s[4..] == s[|s| - 10..];
      assert s[..4] == "+234";
    }
  }

  /**
   * An accepted number is 11 characters starting with `0` or 14 starting with
   * `+234`, and its last ten characters are the national number.
   */
  lemma PhonePatternShape(s: string)
    requires MatchesPhonePattern(s)
    ensures (|s| == 11 && s[0] == '0') || (|s| == 14 && s[..4] == "+234")
    ensures SubscriberNumber(s[|s| - 10..])
  {
  }

  /** Every accepted number normalises to `+234` followed by its ten national digits. */
  lemma AcceptedPhoneFormatsToInternational(s: string)
    requires MatchesPhonePattern(s)
    ensures Phone.FormatPhoneNumber(s) == "+234" + s[|s| - 10..]
    ensures |Phone.FormatPhoneNumber(s)| == 14 && AllDigits(Phone.FormatPhoneNumber(s)[1..])
  {
    var national := s[|s| - 10..];
    AcceptedPhoneIsNationalSpelling(s);
    Phone.NationalSpellingsAgree(national);
    InternationalShape(national);
  }

  /** An accepted number is `0` or `+234` in front of its ten national digits. */
  lemma AcceptedPhoneIsNationalSpelling(s: string)
    requires MatchesPhonePattern(s)
    ensures SubscriberNumber(s[|s| - 10..])
    ensures s == "0" + s[|s| - 10..] || s == "+234" + s[|s| - 10..]
  {
    if s[0] == '0' {
      assert s == "0" + s[1..];
    } else {
      assert s == "+234" + s[4..];
    }
  }

  /** `+234` followed by a national number is 14 characters, all digits after the `+`. */
  lemma InternationalShape(national: string)
    requires SubscriberNumber(national)
    ensures |"+234" + national| == 14 && AllDigits(("+234" + national)[1..])
  {
    assert ("+234" + national)[1..] == "234" + national;
  }

  // ---------------------------------------------------------------------------
  // validateForm

  /** Whether the rule checked for field `f` passes. */
  predicate RuleHolds(form: FormData, f: Field) {
    match f
    case FullName => !(form.fullName == "" || |form.fullName| < 2)
    case Age => !(form.age < MinAge || form.age > MaxAge)
    case PhoneNumber => MatchesPhonePattern(form.phoneNumber)
    case CourseOfStudy => form.courseOfStudy != ""
    case Level => form.level != ""
    case HallHostel => form.hallHostel != ""
    case VisitorStatus => form.visitorStatus != ""
    case DataConsent => form.dataConsent
  }

  /** The message recorded under a field whose rule fails. */
  function ErrorMessage(f: Field): string {
    match f
    case FullName => "Full name must be at least 2 characters"
    case Age => "Age must be between 16 and 35"
    case PhoneNumber => "Please enter a valid Nigerian phone number"
    case CourseOfStudy => "Please select your course of study"
    case Level => "Please select your level"
    case HallHostel => "Please select your hall/hostel"
    case VisitorStatus => "Please select your visitor status"
    case DataConsent => "You must consent to data processing"
  }

  /** The error map the validator produces: one entry per failing rule. */
  function FormErrors(form: FormData): map<Field, string> {
    map f | f in AllFields && !RuleHolds(form, f) :: ErrorMessage(f)
  }

  /** The form passes every rule. */
  predicate FormValid(form: FormData) {
    && RuleHolds(form, FullName) && RuleHolds(form, Age) && RuleHolds(form, PhoneNumber)
    && RuleHolds(form, CourseOfStudy) && RuleHolds(form, Level) && RuleHolds(form, HallHostel)
    && RuleHolds(form, VisitorStatus) && RuleHolds(form, DataConsent)
  }

  /** An error map with one entry per failing rule, holding its message, is the validator's. */
  lemma ErrorsDetermined(form: FormData, errors: map<Field, string>)
    requires forall f :: f in errors <==> !RuleHolds(form, f)
    requires forall f :: f in errors ==> errors[f] == ErrorMessage(f)
    ensures errors == FormErrors(form)
    ensures errors == map[] <==> FormValid(form)
  {
    forall f
      ensures f in errors <==> f in FormErrors(form)
    {
      EveryFieldListed(f);
    }
    assert errors == FormErrors(form);
    ErrorsEmptyIffValid(form, errors);
  }

  /** The error map is empty exactly when all eight rules pass. */
  lemma ErrorsEmptyIffValid(form: FormData, errors: map<Field, string>)
    requires forall f :: f in errors <==> !RuleHolds(form, f)
    ensures errors == map[] <==> FormValid(form)
  {
    if errors != map[] {
      var f :| f in errors;
    }
  }

  /** The position of a field in the validator's order of checks. */
  function CheckOrder(f: Field): (n: nat)
    ensures n < FieldCount && FieldAt(n) == f
  {
    match f
    case FullName => 0
    case Age => 1
    case PhoneNumber => 2
    case CourseOfStudy => 3
    case Level => 4
    case HallHostel => 5
    case VisitorStatus => 6
    case DataConsent => 7
  }

  /** The field checked at position `n`. */
  function FieldAt(n: nat): Field
    requires n < FieldCount
  {
    if n == 0 then FullName
    else if n == 1 then Age
    else if n == 2 then PhoneNumber
    else if n == 3 then CourseOfStudy
    else if n == 4 then Level
    else if n == 5 then HallHostel
    else if n == 6 then VisitorStatus
    else DataConsent
  }

  /** `errors` holds exactly the failing rules among the first `n` fields checked, each with its message. */
  predicate Recorded(form: FormData, errors: map<Field, string>, n: nat) {
    && (forall f :: f in errors <==> CheckOrder(f) < n && !RuleHolds(form, f))
    && (forall f :: f in errors ==> errors[f] == ErrorMessage(f))
  }

  /**
   * `validateForm`: fills the error map field by field and reports whether it
   * stayed empty.
   */
  method ValidateForm(form: FormData) returns (valid: bool, errors: map<Field, string>)
    ensures valid <==>
      && |form.fullName| >= 2
      && MinAge <= form.age <= MaxAge
      && MatchesPhonePattern(form.phoneNumber)
      && form.courseOfStudy != "" && form.level != "" && form.hallHostel != "" && form.visitorStatus != ""
      && form.dataConsent
    ensures forall f :: f in errors <==> !RuleHolds(form, f)
    ensures forall f :: f in errors ==> errors[f] == ErrorMessage(f)
  {
    errors := CheckDetails(form);
    errors := CheckSelections(form, errors);
    RecordedAll(form, errors);
    valid := |errors| == 0;
  }

  /** The first four checks: name, age, phone pattern, course of study. */
  method CheckDetails(form: FormData) returns (errors: map<Field, string>)
    ensures Recorded(form, errors, 4)
  {
    errors := map[];
    errors := AddErrorIf(form, errors, FullName, form.fullName == "" || |form.fullName| < 2);
    errors := AddErrorIf(form, errors, Age, form.age < MinAge || form.age > MaxAge);
    errors := AddErrorIf(form, errors, PhoneNumber, !MatchesPhonePattern(form.phoneNumber));
    errors := AddErrorIf(form, errors, CourseOfStudy, form.courseOfStudy == "");
  }

  /** The last four checks: level, hall or hostel, visitor status, consent. */
  method CheckSelections(form: FormData, errors0: map<Field, string>) returns (errors: map<Field, string>)
    requires Recorded(form, errors0, 4)
    ensures Recorded(form, errors, FieldCount)
  {
    errors := AddErrorIf(form, errors0, Level, form.level == "");
    errors := AddErrorIf(form, errors, HallHostel, form.hallHostel == "");
    errors := AddErrorIf(form, errors, VisitorStatus, form.visitorStatus == "");
    errors := AddErrorIf(form, errors, DataConsent, !form.dataConsent);
  }

  /**
   * `if (failed) newErrors[f] = message`: one step of the validator, where
   * `failed` is the negation of the field's rule. The map then records the
   * first `CheckOrder(f) + 1` fields.
   */
  method AddErrorIf(ghost form: FormData, errors: map<Field, string>, f: Field, failed: bool) returns (r: map<Field, string>)
    requires Recorded(form, errors, CheckOrder(f))
    requires failed == !RuleHolds(form, f)
    ensures r == if failed then errors[f := ErrorMessage(f)] else errors
    ensures Recorded(form, r, CheckOrder(f) + 1)
  {
    r := errors;
    if failed {
      r := r[f := ErrorMessage(f)];
    }
  }

  /** Once all eight fields are checked, the map holds exactly the failing rules, and is empty exactly when the form is valid. */
  lemma RecordedAll(form: FormData, errors: map<Field, string>)
    requires Recorded(form, errors, FieldCount)
    ensures forall f :: f in errors <==> !RuleHolds(form, f)
    ensures |errors| == 0 <==> FormValid(form)
  {
    if |errors| == 0 {
      assert errors == map[];
    } else {
      var f :| f in errors;
    }
  }

  // ---------------------------------------------------------------------------
  // parseInt(value) || 0

  function DigitValue(c: char): nat
    requires IsDigit(c)
  {
    c as int - '0' as int
  }

  function DigitChar(d: nat): (c: char)
    requires d < 10
    ensures IsDigit(c) && DigitValue(c) == d
  {
    ('0' as int + d) as char
  }

  /** The longest prefix of `s` made of digits. */
  function LeadingDigits(s: string): (ds: string)
    ensures AllDigits(ds) && StartsWith(s, ds)
  {
    if s != [] && IsDigit(s[0]) then [s[0]] + LeadingDigits(s[1..]) else []
  }

  /** The value of a decimal digit string, most significant digit first. */
  function DecimalValue(ds: string): nat
    requires AllDigits(ds)
  {
    if ds == [] then 0 else 10 * DecimalValue(ds[..|ds| - 1]) + DigitValue(ds[|ds| - 1])
  }

  /**
   * `parseInt(raw) || 0` on a decimal string: leading whitespace is skipped, an
   * optional sign and the digits that follow it are read up to the first other
   * character, and a string with no such digits reads as 0 (`NaN || 0`).
   */
  function ParseIntOrZero(raw: string): (v: int)
    ensures NoDigit(raw) ==> v == 0
    ensures v < 0 ==> StartsWith(SkipSpaces(raw), "-")
  {
    var t := SkipSpaces(raw);
    SkipSpacesIsSuffix(raw);
    NoDigitSuffix(raw, t);
    var signed := |t| > 0 && (t[0] == '+' || t[0] == '-');
    var ds := LeadingDigits(if signed then t[1..] else t);
    if ds == [] then 0
    else if signed && t[0] == '-' then -(DecimalValue(ds) as int)
    else DecimalValue(ds)
  }

  /** A text without a single digit. */
  predicate NoDigit(s: string) {
    forall i :: 0 <= i < |s| ==> !IsDigit(s[i])
  }

  /** The end of a text without digits, and what follows its first character, have none either. */
  lemma NoDigitSuffix(s: string, t: string)
    requires |t| <= |s| && t == s[|s| - |t|..]
    ensures NoDigit(s) ==> NoDigit(t) && (t == [] || NoDigit(t[1..]))
  {
    if NoDigit(s) {
      forall i | 0 <= i < |t|
        ensures !IsDigit(t[i])
      {
        assert t[i] == s[|s| - |t| + i];
      }
    }
  }

  /** What `parseInt` reads digits from: the text after the whitespace and one optional sign. */
  function AfterSign(raw: string): (rest: string)
    ensures |rest| <= |raw|
  {
    var t := SkipSpaces(raw);
    if |t| > 0 && (t[0] == '+' || t[0] == '-') then t[1..] else t
  }

  /**
   * When no digit follows the whitespace and the optional sign (`""`, `".5"`,
   * `"-.5"`, `"e3"`), `parseInt` gives `NaN` and the input reads as 0.
   */
  lemma NoLeadingDigitReadsZero(raw: string)
    requires AfterSign(raw) == [] || !IsDigit(AfterSign(raw)[0])
    ensures ParseIntOrZero(raw) == 0
  {
  }

  /** A number input holding `.5` or `-.5` reads as 0. */
  lemma FractionOnlyReadsZero()
    ensures ParseIntOrZero(".5") == 0 && ParseIntOrZero("-.5") == 0
  {
    NoLeadingDigitReadsZero(".5");
    NoLeadingDigitReadsZero("-.5");
  }

  /** The decimal text of a natural number, as a number input reports it. */
  function DecimalString(n: nat): (s: string)
    ensures |s| > 0 && AllDigits(s)
  {
    if n < 10 then [DigitChar(n)] else DecimalString(n / 10) + [DigitChar(n % 10)]
  }

  lemma {:induction false} DecimalRoundTrip(n: nat)
    ensures DecimalValue(DecimalString(n)) == n
  {
    if n >= 10 {
      DecimalRoundTrip(n / 10);
      var s := DecimalString(n);
      assert s[..|s| - 1] == DecimalString(n / 10);
    }
  }

  lemma {:induction false} LeadingDigitsStop(ds: string, rest: string)
    requires AllDigits(ds)
    requires rest == [] || !IsDigit(rest[0])
    ensures LeadingDigits(ds + rest) == ds
  {
    if ds == [] {
      assert ds + rest == rest;
    } else {
      assert (ds + rest)[1..] == ds[1..] + rest;
      LeadingDigitsStop(ds[1..], rest);
      assert ds == [ds[0]] + ds[1..];
    }
  }

  /**
   * Reading back the text of a number gives the number, with or without a
   * minus sign and with any fractional part cut off.
   */
  lemma ParseIntRoundTrip(n: nat, fraction: string)
    ensures ParseIntOrZero(DecimalString(n)) == n
    ensures ParseIntOrZero("-" + DecimalString(n)) == -(n as int)
    ensures ParseIntOrZero(DecimalString(n) + "." + fraction) == n
  {
    var s := DecimalString(n);
    DecimalRoundTrip(n);
    ParseDigits(s);
    ParseNegativeDigits(s);
    ParseWithFraction(s, fraction);
  }

  /** A digit string alone parses as its value. */
  lemma ParseDigits(ds: string)
    requires AllDigits(ds) && ds != []
    ensures ParseIntOrZero(ds) == DecimalValue(ds)
  {
    assert ds + [] == ds;
    ParseUnsigned(ds, []);
  }

  /** A minus sign and a digit string parse as the negated value. */
  lemma ParseNegativeDigits(ds: string)
    requires AllDigits(ds) && ds != []
    ensures ParseIntOrZero("-" + ds) == -(DecimalValue(ds) as int)
  {
    assert ds + [] == ds;
    ParseNegative(ds, []);
  }

  /** A fractional part after the digits is ignored. */
  lemma ParseWithFraction(ds: string, fraction: string)
    requires AllDigits(ds) && ds != []
    ensures ParseIntOrZero(ds + "." + fraction) == DecimalValue(ds)
  {
    assert ds + "." + fraction == ds + ("." + fraction);
    ParseUnsigned(ds, "." + fraction);
  }

  /** Digits followed by a non-digit tail parse as the digits' value. */
  lemma ParseUnsigned(ds: string, rest: string)
    requires AllDigits(ds) && ds != []
    requires rest == [] || !IsDigit(rest[0])
    ensures ParseIntOrZero(ds + rest) == DecimalValue(ds)
  {
    assert (ds + rest)[0] == ds[0];
    LeadingDigitsStop(ds, rest);
  }

  /** A minus sign, then digits followed by a non-digit tail, parse as the negated value. */
  lemma ParseNegative(ds: string, rest: string)
    requires AllDigits(ds) && ds != []
    requires rest == [] || !IsDigit(rest[0])
    ensures ParseIntOrZero("-" + (ds + rest)) == -(DecimalValue(ds) as int)
  {
    var t := "-" + (ds + rest);
    assert t[1..] == ds + rest;
    LeadingDigitsStop(ds, rest);
  }

  // ---------------------------------------------------------------------------
  // handleChange

  /** A field's value, tagged with its kind. */
  datatype FieldValue = TextValue(text: string) | NumberValue(number: int) | FlagValue(flag: bool)

  function ValueOf(form: FormData, f: Field): FieldValue {
    match f
    case FullName => TextValue(form.fullName)
    case Age => NumberValue(form.age)
    case PhoneNumber => TextValue(form.phoneNumber)
    case CourseOfStudy => TextValue(form.courseOfStudy)
    case Level => TextValue(form.level)
    case HallHostel => TextValue(form.hallHostel)
    case VisitorStatus => TextValue(form.visitorStatus)
    case DataConsent => FlagValue(form.dataConsent)
  }

  /** What a change event reports: the input's `name`, `value`, `type` and `checked`. */
  datatype ChangeEvent = ChangeEvent(name: Field, value: string, inputType: string, checked: bool)

  /**
   * How the form's inputs are wired: the consent box is the only checkbox and
   * the age input the only number input.
   */
  predicate Wired(e: ChangeEvent) {
    && (e.name == DataConsent <==> e.inputType == "checkbox")
    && (e.name == Age <==> e.inputType == "number")
  }

  /** The new value: the checked flag, the parsed integer (0 if none), or the raw text. */
  function InputValue(e: ChangeEvent): FieldValue {
    if e.inputType == "checkbox" then FlagValue(e.checked)
    else if e.inputType == "number" then NumberValue(ParseIntOrZero(e.value))
    else TextValue(e.value)
  }

  /** `handleChange`: the named field takes the input's value and no other field changes. */
  function HandleChange(form: FormData, e: ChangeEvent): (r: FormData)
    requires Wired(e)
    ensures ValueOf(r, e.name) == InputValue(e)
    ensures forall f :: f != e.name ==> ValueOf(r, f) == ValueOf(form, f)
  {
    var v := InputValue(e);
    match e.name
    case FullName => form.(fullName := v.text)
    case Age => form.(age := v.number)
    case PhoneNumber => form.(phoneNumber := v.text)
    case CourseOfStudy => form.(courseOfStudy := v.text)
    case Level => form.(level := v.text)
    case HallHostel => form.(hallHostel := v.text)
    case VisitorStatus => form.(visitorStatus := v.text)
    case DataConsent => form.(dataConsent := v.flag)
  }

  /** Clearing the age input sets the age to 0, which the age rule then rejects. */
  lemma ClearedAgeIsRejected(form: FormData)
    ensures HandleChange(form, ChangeEvent(Age, "", "number", false)).age == 0
    ensures FormErrors(HandleChange(form, ChangeEvent(Age, "", "number", false)))[Age] == ErrorMessage(Age)
  {
  }
}
