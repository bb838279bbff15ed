/** `datetime.strptime(s, "%d.%m.%Y")`. The format compiles to the pattern
    `(3[01]|[12]\d|0[1-9]|[1-9]| [1-9])\.(1[0-2]|0[1-9]|[1-9])\.(\d\d\d\d)`;
    the first match must end at the end of the string, and the numbers must
    then form a real date. No token alternative contains a `.`, so the dots
    fix where each token ends and the first match is the only one. `\d` is
    taken to be the ASCII digits only. */
module DateFormat {
  import opened Optional
  import opened Decimal
  import opened Calendar

  /** The `%d` token. */
  function DayToken(t: string): (r: Option<nat>)
    ensures r.Some? ==> 1 <= r.value <= 31
  {
    if |t| == 1 && '1' <= t[0] <= '9' then Some(DigitValue(t[0]))
    else if |t| == 2 && t[0] == ' ' && '1' <= t[1] <= '9' then Some(DigitValue(t[1]))
    else if |t| == 2 && IsDigit(t[0]) && IsDigit(t[1]) then
      ParseTwoDigits(t);
      if t[0] == '0' && t[1] != '0' then Some(ParseNat(t))
      else if t[0] == '1' || t[0] == '2' then Some(ParseNat(t))
      else if t[0] == '3' && (t[1] == '0' || t[1] == '1') then Some(ParseNat(t))
      else None
    else None
  }

  /** The `%m` token. */
  function MonthToken(t: string): (r: Option<nat>)
    ensures r.Some? ==> 1 <= r.value <= 12
  {
    if |t| == 1 && '1' <= t[0] <= '9' then Some(DigitValue(t[0]))
    else if |t| == 2 && IsDigit(t[0]) && IsDigit(t[1]) then
      ParseTwoDigits(t);
      if t[0] == '0' && t[1] != '0' then Some(ParseNat(t))
      else if t[0] == '1' && '0' <= t[1] <= '2' then Some(ParseNat(t))
      else None
    else None
  }

  /** The `%Y` token: exactly four digits. */
  function YearToken(t: string): (r: Option<nat>)
    ensures r.Some? ==> r.value <= 9999
  {
    if |t| == 4 && AllDigits(t) then ParseFourDigitsValue(t); Some(ParseNat(t)) else None
  }

  /** The date `strptime(s, "%d.%m.%Y")` returns, or `None` where it raises
      `ValueError`. */
  function ParseDate(s: string): (r: Option<Date>)
    ensures r.Some? ==> Valid(r.value)
  {
    if |s| < 8 || |s| > 10 then None
    else
      var dl := if s[1] == '.' then 1 else 2;
      var ml := if s[dl + 2] == '.' then 1 else 2;
      var ys := dl + ml + 2;
      if s[dl] != '.' || s[ys - 1] != '.' || |s| != ys + 4 then None
      else
        match (DayToken(s[..dl]), MonthToken(s[dl + 1..ys - 1]), YearToken(s[ys..]))
        case (Some(d), Some(m), Some(y)) =>
          if Valid(Date(y, m, d)) then Some(Date(y, m, d)) else None
        case _ => None
  }

  /** Two zero-padded digits. */
  function Pad2(n: nat): (s: string)
    requires n < 100
    ensures |s| == 2 && AllDigits(s)
  {
    [Digit(n / 10), Digit(n % 10)]
  }

  /** A year below 10000 as exactly four digits. */
  function YearText(y: nat): (s: string)
    requires y < 10000
    ensures |s| == 4 && AllDigits(s)
  {
    Pad2(y / 100) + Pad2(y % 100)
  }

  /** The ways `%d` can spell day `n`: two digits, and for days below ten
      also one digit or a space and one digit. */
  function DayTexts(n: int): set<string>
    requires 0 <= n < 100
  {
    {Pad2(n)} + (if 1 <= n <= 9 then {[Digit(n)], [' ', Digit(n)]} else {})
  }

  /** The ways `%m` can spell month `n`: two digits, and for months below
      ten also one digit. */
  function MonthTexts(n: int): set<string>
    requires 0 <= n < 100
  {
    {Pad2(n)} + (if 1 <= n <= 9 then {[Digit(n)]} else {})
  }

  /** `s` spells the valid date `d` in the format `%d.%m.%Y`. */
  predicate Spells(s: string, d: Date) {
    && Valid(d)
    && exists dt, mt :: dt in DayTexts(d.day) && mt in MonthTexts(d.month)
                        && s == dt + "." + mt + "." + YearText(d.year)
  }

  /** `d.strftime("%d.%m.%Y")` for a date with a four-digit year: the
      zero-padded rendering. */
  function FormatDate(d: Day): (s: string)
    ensures |s| == 10
  {
    Pad2(d.day) + "." + Pad2(d.month) + "." + YearText(d.year)
  }

  lemma ParsePad2(n: nat)
    requires n < 100
    ensures ParseNat(Pad2(n)) == n
  {
    var s := Pad2(n);
    assert s[..1] == [Digit(n / 10)];
  }

  lemma ParseFourDigits(a: nat, b: nat)
    requires a < 100 && b < 100
    ensures ParseNat(Pad2(a) + Pad2(b)) == 100 * a + b
  {
    var s := Pad2(a) + Pad2(b);
    assert s[..3][..2] == Pad2(a);
    assert s[..3] == Pad2(a) + [Digit(b / 10)];
    ParsePad2(a);
    assert ParseNat(s[..3]) == 10 * a + b / 10;
  }

  /** Parsing the rendering of a valid date gives the date back. */
  lemma FormatRoundTrip(d: Day)
    ensures ParseDate(FormatDate(d)) == Some(d)
  {
    var s := FormatDate(d);
    assert s[..2] == Pad2(d.day);
    assert s[3..5] == Pad2(d.month);
    assert s[6..] == YearText(d.year);
    ParsePad2(d.day);
    ParsePad2(d.month);
    ParseFourDigits(d.year / 100, d.year % 100);
    assert DayToken(s[..2]) == Some(d.day);
    assert MonthToken(s[3..5]) == Some(d.month);
    assert YearToken(s[6..]) == Some(d.year);
  }

  lemma DigitRoundTrip(n: nat)
    requires n < 10
    ensures DigitValue(Digit(n)) == n
  {
  }

  lemma Pad2Digits(n: nat)
    requires n < 100
    ensures Pad2(n)[0] == Digit(n / 10) && Pad2(n)[1] == Digit(n % 10)
    ensures DigitValue(Pad2(n)[0]) == n / 10 && DigitValue(Pad2(n)[1]) == n % 10
  {
    DigitRoundTrip(n / 10);
    DigitRoundTrip(n % 10);
  }

  /** Two digits are the zero-padded spelling of their value. */
  lemma TwoDigitsArePad2(t: string)
    requires |t| == 2 && AllDigits(t)
    ensures ParseNat(t) < 100 && t == Pad2(ParseNat(t))
  {
    ParseTwoDigits(t);
    var n := ParseNat(t);
    var a, b := DigitValue(t[0]), DigitValue(t[1]);
    assert n / 10 == a && n % 10 == b;
    Pad2Digits(n);
  }

  lemma Pad2OfDigits(c0: char, c1: char)
    requires IsDigit(c0) && IsDigit(c1)
    ensures Pad2(10 * DigitValue(c0) + DigitValue(c1)) == [c0, c1]
  {
    var n := 10 * DigitValue(c0) + DigitValue(c1);
    assert n / 10 == DigitValue(c0) && n % 10 == DigitValue(c1);
  }

  /** `%d` reads `t` as `n` exactly when `t` is one of the spellings of `n`. */
  lemma DayTokenSpells(t: string, n: nat)
    requires n < 100
    ensures DayToken(t) == Some(n) <==> 1 <= n <= 31 && t in DayTexts(n)
  {
    if DayToken(t) == Some(n) {
      if |t| == 2 && IsDigit(t[0]) && IsDigit(t[1]) {
        TwoDigitsArePad2(t);
        assert t == Pad2(n);
      } else if |t| == 1 {
        assert t == [Digit(n)];
      } else {
        assert t == [' ', Digit(n)];
      }
      assert t in DayTexts(n);
    }
    if 1 <= n <= 31 && t in DayTexts(n) {
      if t == Pad2(n) {
        Pad2Digits(n);
        ParsePad2(n);
        assert IsDigit(t[0]) && IsDigit(t[1]) && t[0] != ' ';
        assert DigitValue('0') == 0 && DigitValue('1') == 1 && DigitValue('2') == 2 && DigitValue('3') == 3;
        assert t[0] == '0' <==> n / 10 == 0;
        assert t[1] == '0' <==> n % 10 == 0;
        assert t[0] == '1' <==> n / 10 == 1;
        assert t[0] == '2' <==> n / 10 == 2;
        assert t[0] == '3' <==> n / 10 == 3;
        assert t[1] == '1' <==> n % 10 == 1;
        assert DayToken(t) == Some(n);
      } else {
        assert n < 10;
        DigitRoundTrip(n);
      }
    }
  }

  /** `%m` reads `t` as `n` exactly when `t` is one of the spellings of `n`. */
  lemma MonthTokenSpells(t: string, n: nat)
    requires n < 100
    ensures MonthToken(t) == Some(n) <==> 1 <= n <= 12 && t in MonthTexts(n)
  {
    if MonthToken(t) == Some(n) {
      if |t| == 2 && IsDigit(t[0]) && IsDigit(t[1]) {
        TwoDigitsArePad2(t);
        assert t == Pad2(n);
      } else {
        assert t == [Digit(n)];
      }
      assert t in MonthTexts(n);
    }
    if 1 <= n <= 12 && t in MonthTexts(n) {
      if t == Pad2(n) {
        Pad2Digits(n);
        ParsePad2(n);
        assert IsDigit(t[0]) && IsDigit(t[1]);
        assert DigitValue('0') == 0 && DigitValue('1') == 1 && DigitValue('2') == 2;
        assert t[0] == '0' <==> n / 10 == 0;
        assert t[1] == '0' <==> n % 10 == 0;
        assert t[0] == '1' <==> n / 10 == 1;
        assert '0' <= t[1] <= '2' <==> n % 10 <= 2;
        assert MonthToken(t) == Some(n);
      } else {
        assert n < 10;
        DigitRoundTrip(n);
      }
    }
  }

  /** `%Y` reads `t` as `y` exactly when `t` is `y` in four digits. */
  lemma YearTokenSpells(t: string, y: nat)
    requires y < 10000
    ensures YearToken(t) == Some(y) <==> t == YearText(y)
  {
    if YearToken(t) == Some(y) {
      ParseFourDigitsValue(t);
      var a, b, c, e := DigitValue(t[0]), DigitValue(t[1]), DigitValue(t[2]), DigitValue(t[3]);
      assert y / 100 == 10 * a + b && y % 100 == 10 * c + e;
      Pad2OfDigits(t[0], t[1]);
      Pad2OfDigits(t[2], t[3]);
      assert t == [t[0], t[1]] + [t[2], t[3]];
    }
    if t == YearText(y) {
      ParseFourDigits(y / 100, y % 100);
    }
  }

  /** Every spelling of a day or month is one or two characters ending in a
      digit, so the dot after it is at index 1 or 2. */
  lemma TextShape(t: string, n: int)
    requires 0 <= n < 100
    requires t in DayTexts(n) || t in MonthTexts(n)
    ensures (|t| == 1 || |t| == 2) && IsDigit(t[|t| - 1])
  {
  }

  /** The positions of the parts of `a.b.c`. */
  lemma DotJoin(a: string, b: string, c: string)
    ensures var s := a + "." + b + "." + c;
            |s| == |a| + |b| + |c| + 2 && s[..|a|] == a && s[|a|] == '.'
            && s[|a| + 1..|a| + |b| + 1] == b && s[|a| + |b| + 1] == '.' && s[|a| + |b| + 2..] == c
  {
    var s := a + "." + b + "." + c;
    var p := a + "." + b + ".";
    assert s == p + c;
    assert s[..|p|] == p;
    assert p[..|a|] == a;
    assert p[|a| + 1..|a| + |b| + 1] == b;
  }

  /** A string with dots at `i` and `j` is the three parts between them,
      joined by those dots. */
  lemma DotSplit(s: string, i: nat, j: nat)
    requires i < j < |s| && s[i] == '.' && s[j] == '.'
    ensures s == s[..i] + "." + s[i + 1..j] + "." + s[j + 1..]
  {
    var t := s[..i] + "." + s[i + 1..j] + "." + s[j + 1..];
    DotJoin(s[..i], s[i + 1..j], s[j + 1..]);
    assert |t| == |s|;
    forall k | 0 <= k < |s|
      ensures t[k] == s[k]
    {
      if k < i {
        assert t[k] == t[..i][k];
      } else if i < k < j {
        assert t[k] == t[i + 1..j][k - i - 1];
      } else if j < k {
        assert t[k] == t[j + 1..][k - j - 1];
      }
    }
  }

  /** What `strptime` accepts spells the date it returns. */
  lemma ParsedSpells(s: string, d: Date)
    requires ParseDate(s) == Some(d)
    ensures Spells(s, d)
  {
    var dl := if s[1] == '.' then 1 else 2;
    var ml := if s[dl + 2] == '.' then 1 else 2;
    var ys := dl + ml + 2;
    var dt, mt := s[..dl], s[dl + 1..ys - 1];
    DayTokenSpells(dt, d.day);
    MonthTokenSpells(mt, d.month);
    YearTokenSpells(s[ys..], d.year);
    DotSplit(s, dl, ys - 1);
  }

  /** Every spelling of a valid date is accepted as that date. */
  lemma SpellingParses(dt: string, mt: string, d: Date)
    requires Valid(d) && dt in DayTexts(d.day) && mt in MonthTexts(d.month)
    ensures ParseDate(dt + "." + mt + "." + YearText(d.year)) == Some(d)
  {
    var s := dt + "." + mt + "." + YearText(d.year);
    TextShape(dt, d.day);
    TextShape(mt, d.month);
    var dl := |dt|;
    var ys := dl + |mt| + 2;
    DotJoin(dt, mt, YearText(d.year));
    assert s[1] == (if dl == 1 then '.' else dt[1]) by {
      assert dl == 2 ==> s[1] == s[..dl][1];
    }
    assert s[dl + 2] == (if |mt| == 1 then '.' else mt[1]) by {
      assert |mt| == 2 ==> s[dl + 2] == s[dl + 1..ys - 1][1];
    }
    DayTokenSpells(dt, d.day);
    MonthTokenSpells(mt, d.month);
    YearTokenSpells(YearText(d.year), d.year);
  }

  /** `strptime(s, "%d.%m.%Y")` returns `d` exactly when `s` spells the
      valid date `d`: day and month in one or two digits (a day also
      space-padded), the year in four. */
  lemma ParseDateSpells(s: string, d: Date)
    ensures ParseDate(s) == Some(d) <==> Spells(s, d)
  {
    if ParseDate(s) == Some(d) {
      ParsedSpells(s, d);
    }
    if Spells(s, d) {
      var dt, mt :| dt in DayTexts(d.day) && mt in MonthTexts(d.month)
                    && s == dt + "." + mt + "." + YearText(d.year);
      SpellingParses(dt, mt, d);
    }
  }

  /** A single-digit day and month are accepted. */
  lemma ParseUnpadded()
    ensures ParseDate("1.2.2000") == Some(Date(2000, 2, 1))
  {
    ParseFourDigitsValue("2000");
    var s := "1.2.2000";
    assert s[..1] == "1" && s[2..3] == "2" && s[4..] == "2000";
  }

  /** A day padded with a space instead of a zero is accepted. */
  lemma ParseSpacePadded()
    ensures ParseDate(" 5.07.2017") == Some(Date(2017, 7, 5))
  {
    ParseFourDigitsValue("2017");
    ParseTwoDigits("07");
    var t := " 5.07.2017";
    assert t[..2] == " 5" && t[3..5] == "07" && t[6..] == "2017";
  }

  /** A thirteenth month is rejected. */
  lemma ParseBadMonth()
    ensures ParseDate("31.13.2000") == None
  {
    var y := "31.13.2000";
    assert y[3..5] == "13";
  }

  /** 29 February exists only in leap years. */
  lemma ParseLeapDay()
    ensures ParseDate("29.02.2000") == Some(Date(2000, 2, 29))
    ensures ParseDate("29.02.2001") == None
  {
    ParseFourDigitsValue("2000");
    ParseFourDigitsValue("2001");
    ParseTwoDigits("29");
    ParseTwoDigits("02");
    var u := "29.02.2000";
    assert u[..2] == "29" && u[3..5] == "02" && u[6..] == "2000";
    var x := "29.02.2001";
    assert x[..2] == "29" && x[3..5] == "02" && x[6..] == "2001";
  }
}
