/** The phone-number normaliser of the shared utilities. */
module Phone {
  import opened Ascii

  /** `phone.replace(/\D/g, '')`: the ASCII digits of `phone`, in their order. */
  function Cleaned(phone: string): (digits: string)
    ensures AllDigits(digits)
    ensures |digits| <= |phone|
  {
    if phone == [] then []
    else (if IsDigit(phone[0]) then [phone[0]] else []) + Cleaned(phone[1..])
  }

  /** The digit strings that one of the three Nigerian rules rewrites. */
  predicate Rewritable(cleaned: string) {
    StartsWith(cleaned, "234") || StartsWith(cleaned, "0") || |cleaned| == 10
  }

  /**
   * `formatPhoneNumber`: the digits are rewritten to international form by the
   * first rule that applies (country code present, trunk `0`, bare ten-digit
   * national number); when none applies the input is returned as it was.
   */
  function FormatPhoneNumber(phone: string): (r: string)
    ensures !Rewritable(Cleaned(phone)) ==> r == phone
    ensures Rewritable(Cleaned(phone)) ==> StartsWith(r, "+234") && AllDigits(r[1..])
  {
    var cleaned := Cleaned(phone);
    if StartsWith(cleaned, "234") then
      assert ("+" + cleaned)[1..] == cleaned;
      "+" + cleaned
    else if StartsWith(cleaned, "0") then
      assert ("+234" + cleaned[1..])[1..] == "234" + cleaned[1..];
      "+234" + cleaned[1..]
    else if |cleaned| == 10 then
      assert ("+234" + cleaned)[1..] == "234" + cleaned;
      "+234" + cleaned
    else
      phone
  }

  /** Cleaning distributes over concatenation. */
  lemma {:induction false} CleanedDistributes(a: string, b: string)
    ensures Cleaned(a + b) == Cleaned(a) + Cleaned(b)
  {
    if a == [] {
      assert a + b == b;
    } else {
      var head := if IsDigit(a[0]) then [a[0]] else [];
      assert (a + b)[0] == a[0];
      assert (a + b)[1..] == a[1..] + b;
      assert Cleaned(a + b) == head + Cleaned(a[1..] + b);
      assert Cleaned(a) == head + Cleaned(a[1..]);
      CleanedDistributes(a[1..], b);
    }
  }

  /** A string of digits is its own cleaning. */
  lemma {:induction false} CleanedKeepsDigits(s: string)
    requires AllDigits(s)
    ensures Cleaned(s) == s
  {
    if s != [] {
      CleanedKeepsDigits(s[1..]);
      assert s == [s[0]] + s[1..];
    }
  }

  /** Characters that are not digits vanish. */
  lemma {:induction false} CleanedDropsNonDigits(s: string)
    requires forall i :: 0 <= i < |s| ==> !IsDigit(s[i])
    ensures Cleaned(s) == []
  {
    if s != [] {
      CleanedDropsNonDigits(s[1..]);
    }
  }

  /** Formatting a formatted number changes nothing. */
  lemma FormatIdempotent(phone: string)
    ensures FormatPhoneNumber(FormatPhoneNumber(phone)) == FormatPhoneNumber(phone)
  {
    var cleaned := Cleaned(phone);
    var r := FormatPhoneNumber(phone);
    if Rewritable(cleaned) {
      // r is "+" followed by digits that begin with "234"
      assert r == "+" + r[1..];
      CleanedDistributes("+", r[1..]);
      CleanedDropsNonDigits("+");
      CleanedKeepsDigits(r[1..]);
      assert Cleaned(r) == r[1..];
      assert StartsWith(r[1..], "234");
    }
  }

  /**
   * The usual spellings of one national number (trunk `0`, country code with or
   * without `+`, bare ten digits) all format to the same international number.
   */
  lemma NationalSpellingsAgree(national: string)
    requires |national| == 10 && AllDigits(national) && national[0] in "789"
    ensures FormatPhoneNumber("0" + national) == "+234" + national
    ensures FormatPhoneNumber("+234" + national) == "+234" + national
    ensures FormatPhoneNumber("234" + national) == "+234" + national
    ensures FormatPhoneNumber(national) == "+234" + national
  {
    TrunkSpelling(national);
    CountryCodeSpellings(national);
    BareSpelling(national);
  }

  /** Trunk `0` in front of ten digits: the `0` is replaced by `+234`. */
  lemma TrunkSpelling(national: string)
    requires |national| == 10 && AllDigits(national)
    ensures FormatPhoneNumber("0" + national) == "+234" + national
  {
    var s := "0" + national;
    assert AllDigits(s);
    CleanedKeepsDigits(s);
    assert s[1..] == national;
  }

  /** The country code, with or without `+`, in front of ten digits only gains the `+`. */
  lemma CountryCodeSpellings(national: string)
    requires |national| == 10 && AllDigits(national)
    ensures FormatPhoneNumber("+234" + national) == "+234" + national
    ensures FormatPhoneNumber("234" + national) == "+234" + national
  {
    var digits := "234" + national;
    CountryCodeDigits(national);
    CleanedAfterPlus(digits);
    assert "+234" + national == "+" + digits;
    CountryCodeRule("+" + digits);
    CountryCodeRule(digits);
  }

  /** The country code followed by ten digits is all digits, and its own cleaning. */
  lemma CountryCodeDigits(national: string)
    requires AllDigits(national)
    ensures AllDigits("234" + national) && Cleaned("234" + national) == "234" + national
  {
    var digits := "234" + national;
    assert AllDigits(digits);
    CleanedKeepsDigits(digits);
  }

  /** Cleaning drops a leading `+` in front of digits. */
  lemma CleanedAfterPlus(digits: string)
    requires AllDigits(digits)
    ensures Cleaned("+" + digits) == digits
  {
    CleanedDistributes("+", digits);
    CleanedDropsNonDigits("+");
    CleanedKeepsDigits(digits);
  }

  /** Whatever else the text holds, digits that begin with 234 only gain a `+`. */
  lemma CountryCodeRule(phone: string)
    requires StartsWith(Cleaned(phone), "234")
    ensures FormatPhoneNumber(phone) == "+" + Cleaned(phone)
  {
  }

  /**
   * Whatever else the text holds, digits that begin with a trunk `0` (and not
   * with 234) lose the `0` and gain `+234`.
   */
  lemma TrunkRule(phone: string)
    requires !StartsWith(Cleaned(phone), "234") && StartsWith(Cleaned(phone), "0")
    ensures FormatPhoneNumber(phone) == "+234" + Cleaned(phone)[1..]
  {
  }

  /**
   * Whatever else the text holds, exactly ten digits that begin with neither 234
   * nor `0` gain `+234`.
   */
  lemma TenDigitRule(phone: string)
    requires !StartsWith(Cleaned(phone), "234") && !StartsWith(Cleaned(phone), "0")
    requires |Cleaned(phone)| == 10
    ensures FormatPhoneNumber(phone) == "+234" + Cleaned(phone)
  {
  }

  /** Ten digits starting with a mobile prefix gain `+234`. */
  lemma BareSpelling(national: string)
    requires |national| == 10 && AllDigits(national) && national[0] in "789"
    ensures FormatPhoneNumber(national) == "+234" + national
  {
    CleanedKeepsDigits(national);
  }

  /**
   * The country-code rule is tried before the length rule: ten digits that
   * begin with 234 keep their digits and only gain a `+`.
   */
  lemma CountryCodeRuleFirst(cleaned: string)
    requires |cleaned| == 10 && AllDigits(cleaned) && StartsWith(cleaned, "234")
    ensures FormatPhoneNumber(cleaned) == "+" + cleaned
    ensures |FormatPhoneNumber(cleaned)| == 11
  {
    CleanedKeepsDigits(cleaned);
  }
}
