/** What the key codec promises: every period prints to a string the key patterns recognise
    and read back to the same period, a key maps to the last day of its period and back, and
    every day of a period prints to the same key. */
module ScopeKeyLemmas {
  import opened Wrappers
  import opened Calendar
  import opened ScopeKeys
  import Digits
  import Lex

  lemma YearTextFacts(y: int)
    requires 0 <= y <= 9999
    ensures |YearText(y)| == 4 && Digits.AllDigits(YearText(y)) && Digits.Value(YearText(y)) == y
  {
    assert Digits.Pow10(4) == 10000;
    Digits.PadLength(y, 4);
    Digits.ValueOfPad(y, 4);
  }

  lemma SmallDigitsOne(n: nat)
    requires 1 <= n <= 9
    ensures Digits.Digits(n) == [Digits.DigitChar(n)]
    ensures Digits.Pad(n, 2) == [Digits.DigitChar(0), Digits.DigitChar(n)]
  {
    assert Digits.Zeros(1) == Digits.Zeros(0) + ['0'];
  }

  lemma SmallDigitsTwo(n: nat)
    requires 10 <= n <= 99
    ensures Digits.Digits(n) == [Digits.DigitChar(n / 10), Digits.DigitChar(n % 10)]
    ensures Digits.Pad(n, 2) == Digits.Digits(n)
  {
    var h := n / 10;
    assert h < 10;
    assert Digits.Digits(h) == [Digits.DigitChar(h)];
  }

  /** A month or day number (1..99) prints, loose or padded, to one or two digits that read
      back as the number. */
  lemma ShortFields(n: nat)
    requires 1 <= n <= 99
    ensures ShortNumber(Digits.Digits(n)) && Digits.Value(Digits.Digits(n)) == n
    ensures ShortNumber(Digits.Pad(n, 2)) && Digits.Value(Digits.Pad(n, 2)) == n
    ensures n <= 12 ==> MonthField(Digits.Digits(n)) && MonthField(Digits.Pad(n, 2))
  {
    Digits.ValueOfDigits(n);
    Digits.ValueOfPad(n, 2);
    if n < 10 {
      SmallDigitsOne(n);
    } else {
      SmallDigitsTwo(n);
    }
  }

  // Reading the four key shapes back, for any four-digit year text.

  lemma ParseMonthText(Y: string, t: string)
    requires |Y| == 4 && Digits.AllDigits(Y) && MonthField(t)
    ensures var s := Y + "-" + t;
      ScopeKeyType(Some(s)) == Some(Monthly) && ParseKey(s) == Some(Month(Digits.Value(Y), Digits.Value(t)))
  {
    var s := Y + "-" + t;
    assert s[..4] == Y && s[4] == '-' && s[5..] == t;
  }

  lemma ParseQuarterText(Y: string, c: char)
    requires |Y| == 4 && Digits.AllDigits(Y) && '1' <= c <= '4'
    ensures var s := Y + "Q" + [c];
      ScopeKeyType(Some(s)) == Some(Quarterly) && ParseKey(s) == Some(Quarter(Digits.Value(Y), c as int - 48))
  {
    var s := Y + "Q" + [c];
    assert s[..4] == Y && s[4] == 'Q' && s[5] == c;
  }

  lemma ParseAnnualText(Y: string)
    requires |Y| == 4 && Digits.AllDigits(Y)
    ensures ScopeKeyType(Some(Y)) == Some(Annually) && ParseKey(Y) == Some(Annual(Digits.Value(Y)))
  {
    assert Y[..4] == Y;
  }

  lemma ParseDayText(Y: string, M: string, D: string)
    requires |Y| == 4 && Digits.AllDigits(Y) && ShortNumber(M) && ShortNumber(D)
    ensures var s := Y + "-" + M + "-" + D;
      ScopeKeyType(Some(s)) == Some(Daily) &&
      ParseKey(s) == Some(Day(Digits.Value(Y), Digits.Value(M), Digits.Value(D)))
  {
    var s := Y + "-" + M + "-" + D;
    var t := M + "-" + D;
    assert s == Y + "-" + t;
    assert s[..4] == Y && s[4] == '-' && s[5..] == t;
    if |M| == 1 {
      assert t[..1] == M && t[2..] == D && t[1] == '-';
    } else {
      assert t[..2] == M && t[3..] == D && t[2] == '-';
    }
    assert DayFields(t) && !MonthField(t);
    assert DayMonthText(t) == M && DayDayText(t) == D;
  }

  /** Every period with a four-digit year prints, loose or padded, to a string that the key
      patterns classify by the period's own scope and parse back to the same period. */
  lemma ParseRender(k: Key)
    requires ValidKey(k) && FourDigitYear(k)
    ensures ParseKey(Render(k)) == Some(k) && ParseKey(RenderPadded(k)) == Some(k)
    ensures ScopeKeyType(Some(Render(k))) == Some(ScopeOf(k))
    ensures ScopeKeyType(Some(RenderPadded(k))) == Some(ScopeOf(k))
  {
    var Y := YearText(k.year);
    YearTextFacts(k.year);
    match k
    case Annual(y) =>
      ParseAnnualText(Y);
    case Quarter(y, q) =>
      assert Digits.Digits(q) == [Digits.DigitChar(q)];
      ParseQuarterText(Y, Digits.DigitChar(q));
    case Month(y, m) =>
      ShortFields(m);
      ParseMonthText(Y, Digits.Digits(m));
      ParseMonthText(Y, Digits.Pad(m, 2));
    case Day(y, m, d) =>
      ShortFields(m);
      ShortFields(d);
      ParseDayText(Y, Digits.Digits(m), Digits.Digits(d));
      ParseDayText(Y, Digits.Pad(m, 2), Digits.Pad(d, 2));
  }

  /** A period's anchor date lies in the period. */
  lemma KeyOfEndDate(k: Key)
    requires ValidKey(k)
    ensures KeyOf(EndDate(k), ScopeOf(k)) == k
    ensures KeyOf(StartDate(k), ScopeOf(k)) == k
    ensures NotAfter(StartDate(k), EndDate(k))
  {
    OrdIsLexicographic(StartDate(k), EndDate(k));
    PeriodMembership(k, EndDate(k));
    PeriodMembership(k, StartDate(k));
  }

  /** Every date inside a period yields that period's key, loose and padded. */
  lemma DateInPeriodYieldsKey(k: Key, d: Date)
    requires ValidKey(k) && Valid(d)
    requires NotAfter(StartDate(k), d) && NotAfter(d, EndDate(k))
    ensures DateToScopeKey(At(d), ScopeOf(k)) == Some(Render(k))
    ensures DateToNormalizeScopeKey(d, ScopeOf(k)) == Some(RenderPadded(k))
  {
    PeriodMembership(k, d);
  }

  /** Key to date and back: a key maps to the last day of its period at 00:00 UTC, and that day
      prints back to the key (the loose form from dateToScopeKey, the padded form from
      dateToNormalizeScopeKey). */
  lemma {:induction false} KeyDateRoundTrip(k: Key)
    requires ValidKey(k) && FourDigitYear(k)
    ensures ScopeKeyToDate(Some(Render(k))) == Ok(At(EndDate(k)))
    ensures ScopeKeyToDate(Some(RenderPadded(k))) == Ok(At(EndDate(k)))
    ensures DateToScopeKey(At(EndDate(k)), ScopeOf(k)) == Some(Render(k))
    ensures DateToNormalizeScopeKey(EndDate(k), ScopeOf(k)) == Some(RenderPadded(k))
  {
    ParseRender(k);
    KeyOfEndDate(k);
  }

  /** A four-digit string is the padded rendering of its own value. */
  lemma PadOfValue(t: string, w: nat)
    requires Digits.AllDigits(t) && |t| == w && 1 <= w
    ensures Digits.Pad(Digits.Value(t), w) == t
  {
    var v := Digits.Value(t);
    Digits.ValueBound(t);
    Digits.PadLength(v, w);
    Digits.ValueOfPad(v, w);
    Digits.OrderIsNumeric(Digits.Pad(v, w), t);
  }

  /** A four-digit year text is the year format of its own value. */
  lemma YearTextOfText(Y: string)
    requires |Y| == 4 && Digits.AllDigits(Y)
    ensures YearText(Digits.Value(Y)) == Y
  {
    Digits.ValueBound(Y);
    assert Digits.Pow10(4) == 10000;
    PadOfValue(Y, 4);
  }

  /** A written month field is the padded rendering of its number after `normalizeKey`'s
      zero insertion. */
  lemma MonthFieldPadded(t: string)
    requires MonthField(t)
    ensures Digits.Pad(Digits.Value(t), 2) == if |t| == 1 then "0" + t else t
  {
    Digits.ValueShort(t);
    if |t| == 1 {
      var v := Digits.Value(t);
      assert Digits.Digits(v) == t;
      assert Digits.Zeros(1) == Digits.Zeros(0) + ['0'];
    } else {
      assert Digits.Pow10(2) == 100;
      PadOfValue(t, 2);
    }
  }

  lemma MonthStringRoundTrip(Y: string, t: string)
    requires |Y| == 4 && Digits.AllDigits(Y) && MonthField(t)
    ensures var s := Y + "-" + t;
      RenderPadded(Month(Digits.Value(Y), Digits.Value(t))) == NormalizeKey(s)
  {
    var s := Y + "-" + t;
    ParseMonthText(Y, t);
    YearTextOfText(Y);
    MonthFieldPadded(t);
    if |t| == 1 {
      assert s[..4] == Y && s[5..] == t;
      assert NormalizeKey(s) == Y + "-" + ("0" + t);
    } else {
      assert NormalizeKey(s) == s;
    }
  }

  lemma QuarterStringRoundTrip(Y: string, c: char)
    requires |Y| == 4 && Digits.AllDigits(Y) && '1' <= c <= '4'
    ensures var s := Y + "Q" + [c];
      Render(Quarter(Digits.Value(Y), c as int - 48)) == s &&
      RenderPadded(Quarter(Digits.Value(Y), c as int - 48)) == s && NormalizeKey(s) == s
  {
    YearTextOfText(Y);
    assert Digits.Digits(c as int - 48) == [c];
  }

  /** A recognised monthly, quarterly or annual key string comes back from the round trip
      through its date as `normalizeKey` of itself (the padded form); quarterly and annual
      keys also come back unchanged through the loose format. */
  lemma KeyStringRoundTrip(s: string)
    requires ScopeKeyType(Some(s)) in {Some(Monthly), Some(Quarterly), Some(Annually)}
    ensures ParseKey(s).Some? && ValidKey(ParseKey(s).value)
    ensures ScopeKeyToDate(Some(s)) == Ok(At(EndDate(ParseKey(s).value)))
    ensures DateToNormalizeScopeKey(EndDate(ParseKey(s).value), ScopeKeyType(Some(s)).value) == Some(NormalizeKey(s))
    ensures ScopeKeyType(Some(s)) != Some(Monthly) ==>
      DateToScopeKey(At(EndDate(ParseKey(s).value)), ScopeKeyType(Some(s)).value) == Some(s)
  {
    var k := ParseKey(s).value;
    KeyOfEndDate(k);
    var Y := s[..4];
    if IsMonthKey(s) {
      assert s == Y + "-" + s[5..];
      MonthStringRoundTrip(Y, s[5..]);
    } else if IsQuarterKey(s) {
      assert s == Y + "Q" + [s[5]];
      QuarterStringRoundTrip(Y, s[5]);
    } else {
      assert Y == s;
      YearTextOfText(Y);
    }
  }

  /** util.convertKey on a recognised key: the result is the key, in the target scope, of the
      period that contains the source key's last day. Converting to the key's own scope gives
      the key back in the loose format; converting to a finer scope lands on the last
      sub-period (same last day); converting to a coarser scope gives the containing period. */
  lemma {:induction false} ConvertKeyPeriods(k: Key, s: Scope)
    requires ValidKey(k) && FourDigitYear(k) && s != Timeless
    ensures var k' := KeyOf(EndDate(k), s);
      && ConvertKey(Some(Render(k)), s) == Ok(Some(Render(k')))
      && ConvertKey(Some(RenderPadded(k)), s) == Ok(Some(Render(k')))
      && NotAfter(StartDate(k'), EndDate(k)) && NotAfter(EndDate(k), EndDate(k'))
      && (s == ScopeOf(k) ==> k' == k)
      && (Rank(s) <= Rank(ScopeOf(k)) ==> EndDate(k') == EndDate(k))
      && (Rank(s) >= Rank(ScopeOf(k)) ==> NotAfter(StartDate(k'), StartDate(k)))
  {
    KeyDateRoundTrip(k);
    KeyOfEndDate(k);
    var k' := KeyOf(EndDate(k), s);
    PeriodMembership(k', EndDate(k));
    KeyOfEndDate(k');
    OrdIsLexicographic(StartDate(k'), StartDate(k));
    OrdIsLexicographic(EndDate(k'), EndDate(k));
  }

  /** The worked classifications: monthly keys with and without the zero, a quarter, a year,
      a day, `null`, and strings that match no pattern. */
  lemma KeyTypeExamples()
    ensures ScopeKeyType(None) == Some(Timeless)
    ensures ScopeKeyType(Some("2015-1")) == Some(Monthly)
    ensures ScopeKeyType(Some("2015-01")) == Some(Monthly)
    ensures ScopeKeyType(Some("2015-12")) == Some(Monthly)
    ensures ScopeKeyType(Some("2015Q3")) == Some(Quarterly)
    ensures ScopeKeyType(Some("2015")) == Some(Annually)
    ensures ScopeKeyType(Some("2015-3-15")) == Some(Daily)
    ensures ScopeKeyType(Some("2015Q5")) == None
    ensures ScopeKeyType(Some("2015-13")) == None
    ensures ScopeKeyType(Some("15")) == None
  {
    assert "2015-1"[..4] == "2015" && "2015-1"[5..] == "1";
    assert "2015-01"[..4] == "2015" && "2015-01"[5..] == "01";
    assert "2015-12"[..4] == "2015" && "2015-12"[5..] == "12";
    assert "2015Q3"[..4] == "2015";
    assert "2015Q5"[..4] == "2015";
    var d := "2015-3-15";
    assert d[..4] == "2015" && d[5..] == "3-15" && d[5..][..1] == "3" && d[5..][2..] == "15";
    var m := "2015-13";
    assert m[..4] == "2015" && m[5..] == "13";
  }

  // ---------------------------------------------------------------------------------------
  // String order of padded keys.

  /** Two strings built as prefix, the same separator, rest: the prefixes decide first. */
  lemma SeparatedCompare(p: string, c: char, x: string, q: string, y: string)
    requires |p| == |q|
    ensures Lex.Less(p + [c] + x, q + [c] + y) <==> Lex.Less(p, q) || (p == q && Lex.Less(x, y))
  {
    assert p + [c] + x == p + ([c] + x) && q + [c] + y == q + ([c] + y);
    Lex.SplitCompare(p, [c] + x, q, [c] + y);
    assert ([c] + x)[1..] == x && ([c] + y)[1..] == y;
  }

  lemma FieldOrder(a: nat, b: nat, w: nat)
    requires 1 <= w && a < Digits.Pow10(w) && b < Digits.Pow10(w)
    ensures |Digits.Pad(a, w)| == w && |Digits.Pad(b, w)| == w
    ensures Lex.Less(Digits.Pad(a, w), Digits.Pad(b, w)) <==> a < b
    ensures Digits.Pad(a, w) == Digits.Pad(b, w) <==> a == b
  {
    Digits.PadLength(a, w);
    Digits.PadLength(b, w);
    Digits.ValueOfPad(a, w);
    Digits.ValueOfPad(b, w);
    Digits.OrderIsNumeric(Digits.Pad(a, w), Digits.Pad(b, w));
  }

  lemma YearOrder(a: int, b: int)
    requires 0 <= a <= 9999 && 0 <= b <= 9999
    ensures |YearText(a)| == 4 && |YearText(b)| == 4
    ensures Lex.Less(YearText(a), YearText(b)) <==> a < b
    ensures YearText(a) == YearText(b) <==> a == b
  {
    assert Digits.Pow10(4) == 10000;
    FieldOrder(a, b, 4);
  }

  lemma QuarterOrder(a: Key, b: Key)
    requires a.Quarter? && b.Quarter? && ValidKey(a) && ValidKey(b) && FourDigitYear(a) && FourDigitYear(b)
    ensures Lex.Less(RenderPadded(a), RenderPadded(b)) <==> a.year < b.year || (a.year == b.year && a.q < b.q)
  {
    YearOrder(a.year, b.year);
    var ca, cb := Digits.DigitChar(a.q), Digits.DigitChar(b.q);
    assert Digits.Digits(a.q) == [ca] && Digits.Digits(b.q) == [cb];
    SeparatedCompare(YearText(a.year), 'Q', [ca], YearText(b.year), [cb]);
    assert Lex.Less([ca], [cb]) <==> ca < cb;
  }

  lemma MonthOrder(a: Key, b: Key)
    requires a.Month? && b.Month? && ValidKey(a) && ValidKey(b) && FourDigitYear(a) && FourDigitYear(b)
    ensures Lex.Less(RenderPadded(a), RenderPadded(b)) <==> a.year < b.year || (a.year == b.year && a.month < b.month)
  {
    YearOrder(a.year, b.year);
    assert Digits.Pow10(2) == 100;
    FieldOrder(a.month, b.month, 2);
    SeparatedCompare(YearText(a.year), '-', Digits.Pad(a.month, 2), YearText(b.year), Digits.Pad(b.month, 2));
  }

  lemma DayOrder(a: Key, b: Key)
    requires a.Day? && b.Day? && ValidKey(a) && ValidKey(b) && FourDigitYear(a) && FourDigitYear(b)
    ensures Lex.Less(RenderPadded(a), RenderPadded(b)) <==>
      a.year < b.year || (a.year == b.year && (a.month < b.month || (a.month == b.month && a.day < b.day)))
  {
    YearOrder(a.year, b.year);
    assert Digits.Pow10(2) == 100;
    FieldOrder(a.month, b.month, 2);
    FieldOrder(a.day, b.day, 2);
    var Ma, Da := Digits.Pad(a.month, 2), Digits.Pad(a.day, 2);
    var Mb, Db := Digits.Pad(b.month, 2), Digits.Pad(b.day, 2);
    assert RenderPadded(a) == YearText(a.year) + "-" + (Ma + "-" + Da);
    assert RenderPadded(b) == YearText(b.year) + "-" + (Mb + "-" + Db);
    SeparatedCompare(YearText(a.year), '-', Ma + "-" + Da, YearText(b.year), Mb + "-" + Db);
    SeparatedCompare(Ma, '-', Da, Mb, Db);
  }

  /** Padded keys of one scope sort as strings exactly as their periods sort in time, which is
      what lets the source filter and compare keys with `<` and `>=` on strings. */
  lemma PaddedOrderIsChronological(a: Key, b: Key)
    requires ValidKey(a) && ValidKey(b) && FourDigitYear(a) && FourDigitYear(b)
    requires ScopeOf(a) == ScopeOf(b)
    ensures Lex.Less(RenderPadded(a), RenderPadded(b)) <==> Before(StartDate(a), StartDate(b))
    ensures RenderPadded(a) == RenderPadded(b) <==> a == b
  {
    ParseRender(a);
    ParseRender(b);
    OrdIsLexicographic(StartDate(a), StartDate(b));
    match a
    case Annual(_) => YearOrder(a.year, b.year);
    case Quarter(_, _) => QuarterOrder(a, b);
    case Month(_, _) => MonthOrder(a, b);
    case Day(_, _, _) => DayOrder(a, b);
  }
}
