/** Period arithmetic on key strings (util.addScopeKey, addNormalizedScopeKey,
    subtractScopeKey), unit conversion of period counts (convertScopePeriod), the key
    comparator (compareKey) and the largest converted key (getLargestKeyWithScopeType). */
module KeyArith {
  import opened Wrappers
  import opened Calendar
  import opened ScopeKeys
  import ScopeKeyLemmas
  import Digits
  import Lex

  // ---------------------------------------------------------------------------------------
  // The reference: periods counted one by one.

  /** The running number of a non-daily period: consecutive periods of one scope have
      consecutive numbers. */
  function Index(k: Key): int
    requires !k.Day?
  {
    match k
    case Annual(y) => y
    case Quarter(y, q) => 4 * y + q - 1
    case Month(y, m) => 12 * y + m - 1
  }

  /** The period `n` periods after `k` in `k`'s own scope (before it when `n` is negative). */
  function Shift(k: Key, n: int): (r: Key)
    requires ValidKey(k)
    ensures ValidKey(r) && ScopeOf(r) == ScopeOf(k)
  {
    match k
    case Annual(y) => Annual(y + n)
    case Quarter(y, q) =>
      var j := 4 * y + q - 1 + n;
      Quarter(j / 4, j % 4 + 1)
    case Month(y, m) =>
      var j := 12 * y + m - 1 + n;
      Month(j / 12, j % 12 + 1)
    case Day(y, m, d) => KeyOf(AddDays(Date(y, m, d), n), Daily)
  }

  /** Within one scope the running number identifies the period and orders periods in time. */
  lemma IndexIsChronological(a: Key, b: Key)
    requires ValidKey(a) && ValidKey(b) && !a.Day? && ScopeOf(a) == ScopeOf(b)
    ensures Index(a) == Index(b) <==> a == b
    ensures Index(a) < Index(b) <==> Before(StartDate(a), StartDate(b))
  {
    OrdIsLexicographic(StartDate(a), StartDate(b));
    match a
    case Annual(_) =>
    case Quarter(ya, qa) =>
      if ya < b.year {
        assert 4 * ya + 4 <= 4 * b.year;
      } else if b.year < ya {
        assert 4 * b.year + 4 <= 4 * ya;
      }
    case Month(ya, ma) =>
      if ya < b.year {
        assert 12 * ya + 12 <= 12 * b.year;
      } else if b.year < ya {
        assert 12 * b.year + 12 <= 12 * ya;
      }
  }

  lemma DivModUnique(t: int, d: int, a: int, b: int)
    requires d > 0 && t == d * a + b && 0 <= b < d
    ensures t / d == a && t % d == b
  {
    var a', b' := t / d, t % d;
    assert d * (a - a') == b' - b;
    if a' < a {
      MulAtLeast(d, a - a');
    } else if a < a' {
      MulAtLeast(d, a' - a);
    }
  }

  lemma {:induction false} MulAtLeast(d: int, k: int)
    requires d > 0 && k >= 1
    ensures d * k >= d
    decreases k
  {
    if k > 1 {
      MulAtLeast(d, k - 1);
    }
  }

  /** Shifting moves the running number by exactly `n`. */
  lemma ShiftIndex(k: Key, n: int)
    requires ValidKey(k) && !k.Day?
    ensures Index(Shift(k, n)) == Index(k) + n
  {
    match k
    case Annual(_) =>
    case Quarter(y, q) =>
      var j := 4 * y + q - 1 + n;
      DivModUnique(j, 4, j / 4, j % 4);
    case Month(y, m) =>
      var j := 12 * y + m - 1 + n;
      DivModUnique(j, 12, j / 12, j % 12);
  }

  /** Shifting by `n` and then by `-n` returns to the same period; shifting by 0 stays put;
      a positive shift moves forward in time. */
  lemma ShiftInverse(k: Key, n: int)
    requires ValidKey(k)
    ensures Shift(Shift(k, n), -n) == k
    ensures Shift(k, 0) == k
    ensures n > 0 ==> Before(StartDate(k), StartDate(Shift(k, n)))
  {
    if k.Day? {
      var d := Date(k.year, k.month, k.day);
      AddDaysCompose(d, n, -n);
      if n > 0 {
        AddDaysMonotone(d, n);
      }
    } else {
      ShiftIndex(k, n);
      ShiftIndex(Shift(k, n), -n);
      ShiftIndex(k, 0);
      IndexIsChronological(Shift(Shift(k, n), -n), k);
      IndexIsChronological(Shift(k, 0), k);
      IndexIsChronological(k, Shift(k, n));
    }
  }

  /** Shifts add up. */
  lemma ShiftCompose(k: Key, a: int, b: int)
    requires ValidKey(k)
    ensures Shift(Shift(k, a), b) == Shift(k, a + b)
  {
    if k.Day? {
      AddDaysCompose(Date(k.year, k.month, k.day), a, b);
    } else {
      ShiftIndex(k, a);
      ShiftIndex(Shift(k, a), b);
      ShiftIndex(k, a + b);
      IndexIsChronological(Shift(Shift(k, a), b), Shift(k, a + b));
    }
  }

  /** The next period is the immediate successor: no period of the same scope starts strictly
      between a period and the one after it. */
  lemma ShiftSuccessor(k: Key, k': Key)
    requires ValidKey(k) && ValidKey(k') && ScopeOf(k') == ScopeOf(k)
    ensures Before(StartDate(k), StartDate(k')) <==> NotAfter(StartDate(Shift(k, 1)), StartDate(k'))
  {
    var n := Shift(k, 1);
    OrdIsLexicographic(StartDate(n), StartDate(k'));
    OrdIsLexicographic(StartDate(k), StartDate(k'));
    if k.Day? {
      NextDayIsSuccessor(StartDate(k), StartDate(k'));
      assert AddDays(StartDate(k), 1) == NextDay(StartDate(k));
    } else {
      ShiftIndex(k, 1);
      IndexIsChronological(k, k');
      IndexIsChronological(n, k');
    }
  }

  // ---------------------------------------------------------------------------------------
  // The source's way: move the period's last day by whole units, then round up again.

  /** `addYear`/`addQuarter`/`addMonth`/`addDay` chosen by the scope. */
  function MoveDate(d: Date, i: int, s: Scope): (r: Date)
    requires Valid(d) && s != Timeless
    ensures Valid(r)
  {
    match s
    case Annually => AddYears(d, i)
    case Quarterly => AddMonths(d, 3 * i)
    case Monthly => AddMonths(d, i)
    case Daily => AddDays(d, i)
  }

  lemma QuarterArith(j: int)
    ensures (3 * j + 2) / 12 == j / 4 && (3 * j + 2) % 12 == 3 * (j % 4) + 2
  {
    DivModUnique(j, 4, j / 4, j % 4);
    DivModUnique(3 * j + 2, 12, j / 4, 3 * (j % 4) + 2);
  }

  lemma QuarterStartArith(j: int)
    ensures (3 * j) / 12 == j / 4 && (3 * j) % 12 == 3 * (j % 4)
  {
    DivModUnique(j, 4, j / 4, j % 4);
    DivModUnique(3 * j, 12, j / 4, 3 * (j % 4));
  }

  /** Moving a period's first day by one unit gives the next period's first day (the step of
      the memo walk in getKeysByScope). */
  lemma MoveStartIsShift(k: Key)
    requires ValidKey(k)
    ensures MoveDate(StartDate(k), 1, ScopeOf(k)) == StartDate(Shift(k, 1))
  {
    match k
    case Annual(_) =>
    case Quarter(y, q) =>
      var j := 4 * y + q;
      assert 12 * y + (3 * q - 2 - 1) + 3 == 3 * j;
      QuarterStartArith(j);
    case Month(_, _) =>
    case Day(y, m, d) =>
      assert AddDays(Date(y, m, d), 1) == NextDay(Date(y, m, d));
  }

  /** Moving a period's last day by `i` units lands in the period `i` periods later. */
  lemma MoveDateIsShift(k: Key, i: int)
    requires ValidKey(k)
    ensures KeyOf(MoveDate(EndDate(k), i, ScopeOf(k)), ScopeOf(k)) == Shift(k, i)
  {
    match k
    case Annual(_) =>
    case Quarter(y, q) =>
      var j := 4 * y + q - 1 + i;
      assert 12 * y + (3 * q - 1) + 3 * i == 3 * j + 2;
      QuarterArith(j);
    case Month(_, _) =>
    case Day(_, _, _) =>
  }

  /** The shared body of addScopeKey and addNormalizedScopeKey (without an explicit scope):
      the key's last day moved by `i` units of the key's own scope, printed in the loose or
      the padded format. */
  function MoveKey(key: Option<string>, i: int, padded: bool): (r: Result<Option<string>>)
  {
    var date :- ScopeKeyToDate(key);
    match date
    case NoDate => Ok(None)
    case InvalidDate => Ok(Some("Invalid date"))
    case At(d) =>
      var scope := ScopeKeyType(key).value;
      var moved := MoveDate(d, i, scope);
      Ok(if padded then DateToNormalizeScopeKey(moved, scope) else DateToScopeKey(At(moved), scope))
  }

  lemma MoveKeyIsShift(key: Option<string>, i: int)
    ensures key.Some? && ParseKey(key.value).Some? && ValidKey(ParseKey(key.value).value) ==>
      && MoveKey(key, i, false) == Ok(Some(Render(Shift(ParseKey(key.value).value, i))))
      && MoveKey(key, i, true) == Ok(Some(RenderPadded(Shift(ParseKey(key.value).value, i))))
  {
    if key.Some? && ParseKey(key.value).Some? && ValidKey(ParseKey(key.value).value) {
      MoveDateIsShift(ParseKey(key.value).value, i);
    }
  }

  /** util.addScopeKey: `null` for a `null` key, a TypeError for an unrecognised key, and for
      a recognised key the loose key of the period `i` periods later in the key's own scope. */
  function AddScopeKey(key: Option<string>, i: int := 1): (r: Result<Option<string>>)
    ensures key.None? ==> r == Ok(None)
    ensures key.Some? && ScopeKeyType(key).None? ==> r.Err?
    ensures key.Some? && ParseKey(key.value).Some? && ValidKey(ParseKey(key.value).value) ==>
      r == Ok(Some(Render(Shift(ParseKey(key.value).value, i))))
    ensures key.Some? && ParseKey(key.value).Some? && !ValidKey(ParseKey(key.value).value) ==>
      r == Ok(Some("Invalid date"))
  {
    MoveKeyIsShift(key, i);
    MoveKey(key, i, false)
  }

  /** util.addNormalizedScopeKey with the scope taken from the key: the same move, printed in
      the padded format. */
  function AddNormalizedScopeKey(key: Option<string>, i: int := 1): (r: Result<Option<string>>)
    ensures key.None? ==> r == Ok(None)
    ensures key.Some? && ScopeKeyType(key).None? ==> r.Err?
    ensures key.Some? && ParseKey(key.value).Some? && ValidKey(ParseKey(key.value).value) ==>
      r == Ok(Some(RenderPadded(Shift(ParseKey(key.value).value, i))))
    ensures key.Some? && ParseKey(key.value).Some? && !ValidKey(ParseKey(key.value).value) ==>
      r == Ok(Some("Invalid date"))
  {
    MoveKeyIsShift(key, i);
    MoveKey(key, i, true)
  }

  /** util.subtractScopeKey: `i` periods back, one when `i` is missing. */
  function SubtractScopeKey(key: Option<string>, i: Option<int>): (r: Result<Option<string>>)
    ensures key.Some? && ParseKey(key.value).Some? && ValidKey(ParseKey(key.value).value) ==>
      r == Ok(Some(Render(Shift(ParseKey(key.value).value, -i.GetOr(1)))))
  {
    AddScopeKey(key, -i.GetOr(1))
  }

  /** Going back `i` periods from a key that parses as the valid period `e`. */
  lemma SubtractParsed(key: Option<string>, i: Option<int>, e: Key)
    requires ValidKey(e) && key.Some? && ParseKey(key.value) == Some(e) && i.Some?
    ensures SubtractScopeKey(key, i) == Ok(Some(Render(Shift(e, -i.value))))
  {
    assert ParseKey(key.value).value == e;
    assert i.GetOr(1) == i.value;
  }

  /** Going back `n` periods from a key that parses as the valid period `e`. */
  lemma SubtractBy(key: Option<string>, n: int, e: Key)
    requires ValidKey(e) && key.Some? && ParseKey(key.value) == Some(e)
    ensures SubtractScopeKey(key, Some(n)) == Ok(Some(Render(Shift(e, -n))))
  {
    assert ParseKey(key.value).value == e;
    assert Some(n).GetOr(1) == n;
  }

  /** Adding to a rendered key, loose or padded, moves its period. */
  lemma AddToRendered(k: Key, n: int)
    requires ValidKey(k) && FourDigitYear(k)
    ensures AddScopeKey(Some(Render(k)), n) == Ok(Some(Render(Shift(k, n))))
    ensures AddScopeKey(Some(RenderPadded(k)), n) == Ok(Some(Render(Shift(k, n))))
    ensures AddNormalizedScopeKey(Some(RenderPadded(k)), n) == Ok(Some(RenderPadded(Shift(k, n))))
  {
    ScopeKeyLemmas.ParseRender(k);
  }

  /** Adding 0 gives the key back, in the loose format, and subtracting 0 does too; moving
      forward and back by the same count returns to the same period. */
  lemma AddZeroIsIdentity(k: Key)
    requires ValidKey(k) && FourDigitYear(k)
    ensures AddScopeKey(Some(Render(k)), 0) == Ok(Some(Render(k)))
    ensures AddScopeKey(Some(RenderPadded(k)), 0) == Ok(Some(Render(k)))
    ensures SubtractScopeKey(Some(Render(k)), Some(0)) == Ok(Some(Render(k)))
  {
    ShiftInverse(k, 0);
    AddToRendered(k, 0);
    ScopeKeyLemmas.ParseRender(k);
  }

  /** A non-daily key moves exactly `n` periods: the running number of the result exceeds the
      key's by `n`. */
  lemma {:induction false} AddScopeKeyCountsPeriods(s: string, n: int)
    requires ScopeKeyType(Some(s)) in {Some(Monthly), Some(Quarterly), Some(Annually)}
    ensures var k := ParseKey(s).value;
      AddScopeKey(Some(s), n) == Ok(Some(Render(Shift(k, n)))) &&
      ScopeOf(Shift(k, n)) == ScopeOf(k) && Index(Shift(k, n)) == Index(k) + n
  {
    ShiftIndex(ParseKey(s).value, n);
  }

  // ---------------------------------------------------------------------------------------
  // convertScopePeriod

  /** Months per period, the ratios of scopeConversionTable. */
  function MonthsIn(s: Scope): nat
    requires s in {Annually, Quarterly, Monthly}
  {
    match s
    case Annually => 12
    case Quarterly => 3
    case Monthly => 1
  }

  /** util.convertScopePeriod: the count itself for equal scopes; otherwise the number of
      `to` periods needed to cover `i` periods of `from`, rounded up. Daily and timeless have
      no ratio in the table (the source throws or returns NaN): an error. */
  function ConvertScopePeriod(i: int, from: Scope, to: Scope): (r: Result<int>)
    ensures from == to ==> r == Ok(i)
    ensures r.Ok? && from != to ==>
      && from in {Annually, Quarterly, Monthly} && to in {Annually, Quarterly, Monthly}
      && r.value * MonthsIn(to) >= i * MonthsIn(from)
      && (r.value - 1) * MonthsIn(to) < i * MonthsIn(from)
    ensures from != to && from in {Annually, Quarterly, Monthly} && to in {Annually, Quarterly, Monthly} ==> r.Ok?
  {
    if from == to then Ok(i)
    else if from !in {Annually, Quarterly, Monthly} then Err("TypeError: no conversion from this scope")
    else if to !in {Annually, Quarterly, Monthly} then Err("NaN")
    else
      var x, b := i * MonthsIn(from), MonthsIn(to);
      DivModUnique(-x, b, (-x) / b, (-x) % b);
      Ok(-((-x) / b))
  }

  /** Converting a count to a finer scope and back gives the count again; 1 year is 4 quarters
      is 12 months. */
  lemma ConvertScopePeriodRoundTrip(n: int, coarse: Scope, fine: Scope)
    requires coarse in {Annually, Quarterly, Monthly} && fine in {Annually, Quarterly, Monthly}
    requires Rank(fine) <= Rank(coarse)
    ensures ConvertScopePeriod(n, coarse, fine).Ok?
    ensures ConvertScopePeriod(ConvertScopePeriod(n, coarse, fine).value, fine, coarse) == Ok(n)
    ensures ConvertScopePeriod(1, Annually, Quarterly) == Ok(4) && ConvertScopePeriod(1, Annually, Monthly) == Ok(12)
    ensures ConvertScopePeriod(1, Monthly, Quarterly) == Ok(1) && ConvertScopePeriod(4, Monthly, Quarterly) == Ok(2)
  {
    var m := ConvertScopePeriod(n, coarse, fine).value;
    if coarse != fine {
      var r := MonthsIn(coarse) / MonthsIn(fine);
      assert MonthsIn(coarse) == r * MonthsIn(fine);
      assert m * MonthsIn(fine) >= n * r * MonthsIn(fine);
      assert (m - 1) * MonthsIn(fine) < n * r * MonthsIn(fine);
      assert m == n * r;
      var back := ConvertScopePeriod(m, fine, coarse).value;
      assert back * MonthsIn(coarse) >= n * MonthsIn(coarse);
      assert (back - 1) * MonthsIn(coarse) < n * MonthsIn(coarse);
    }
  }

  // ---------------------------------------------------------------------------------------
  // compareKey

  /** The position of the first `-` in `s` (`|s|` when there is none). */
  function DashIndex(s: string): (i: nat)
    ensures i <= |s| && (i < |s| ==> s[i] == '-')
    ensures forall j :: 0 <= j < i ==> s[j] != '-'
  {
    if |s| == 0 || s[0] == '-' then 0 else 1 + DashIndex(s[1..])
  }

  lemma {:induction false} DashIndexOfJoin(p: string, t: string)
    requires forall j :: 0 <= j < |p| ==> p[j] != '-'
    ensures DashIndex(p + "-" + t) == |p| && DashIndex(p) == |p|
    decreases |p|
  {
    if |p| > 0 {
      assert (p + "-" + t)[1..] == p[1..] + "-" + t;
      DashIndexOfJoin(p[1..], t);
    }
  }

  /** `s.split('-')[0]`. */
  function FirstField(s: string): string {
    s[..DashIndex(s)]
  }

  /** `s.split('-')[1]`, `undefined` (None) when `s` has no `-`. */
  function SecondField(s: string): Option<string> {
    var i := DashIndex(s);
    if i == |s| then None else Some(FirstField(s[i + 1..]))
  }

  /** util.compareKey: `null` sorts first; equal keys give 0; a monthly first key is compared
      year field first, then month field, both as strings (so `"10" < "9"`); any other key is
      compared as a whole string. */
  function CompareKey(a: Option<string>, b: Option<string>): (r: int)
    ensures r in {-1, 0, 1}
    ensures b.None? ==> r == 1
    ensures a.None? && b.Some? ==> r == -1
    ensures a.Some? && b.Some? ==> (r == 0 <==> a == b)
    ensures a.Some? && b.Some? && ScopeKeyType(a) != Some(Monthly) && a != b ==>
      (r == 1 <==> Lex.Less(b.value, a.value))
  {
    if b.None? then 1
    else if a.None? then -1
    else if a == b then 0
    else if ScopeKeyType(a) != Some(Monthly) then
      if Lex.Less(b.value, a.value) then 1 else -1
    else
      var aYear, aMonth := FirstField(a.value), SecondField(a.value);
      var bYear, bMonth := FirstField(b.value), SecondField(b.value);
      if aYear == bYear then
        if aMonth.Some? && bMonth.Some? && Lex.Less(bMonth.value, aMonth.value) then 1 else -1
      else if Lex.Less(bYear, aYear) then 1 else -1
  }

  /** The fields of a padded monthly key. */
  lemma MonthFields(k: Key)
    requires k.Month? && ValidKey(k) && FourDigitYear(k)
    ensures FirstField(RenderPadded(k)) == YearText(k.year)
    ensures SecondField(RenderPadded(k)) == Some(Digits.Pad(k.month, 2))
  {
    var Y, M := YearText(k.year), Digits.Pad(k.month, 2);
    ScopeKeyLemmas.YearOrder(k.year, k.year);
    assert Digits.Pow10(2) == 100;
    ScopeKeyLemmas.FieldOrder(k.month, k.month, 2);
    var s := RenderPadded(k);
    assert s == Y + "-" + M;
    assert forall j :: 0 <= j < |Y| ==> Digits.IsDigit(Y[j]);
    DashIndexOfJoin(Y, M);
    assert s[5..] == M;
    assert forall j :: 0 <= j < |M| ==> Digits.IsDigit(M[j]);
    DashIndexOfJoin(M, "");
    assert M[..2] == M;
  }

  /** On padded keys of one scope compareKey is the chronological comparison of the periods. */
  lemma CompareKeyIsChronological(a: Key, b: Key)
    requires ValidKey(a) && ValidKey(b) && FourDigitYear(a) && FourDigitYear(b)
    requires ScopeOf(a) == ScopeOf(b)
    ensures CompareKey(Some(RenderPadded(a)), Some(RenderPadded(b))) ==
      if a == b then 0 else if Before(StartDate(b), StartDate(a)) then 1 else -1
  {
    ScopeKeyLemmas.PaddedOrderIsChronological(a, b);
    ScopeKeyLemmas.PaddedOrderIsChronological(b, a);
    ScopeKeyLemmas.ParseRender(a);
    OrdIsLexicographic(StartDate(a), StartDate(b));
    if a.Month? {
      CompareMonthFields(a, b);
    }
  }

  /** Padded monthly keys: the year fields, then the two-digit month fields, decide. */
  lemma CompareMonthFields(a: Key, b: Key)
    requires a.Month? && b.Month? && ValidKey(a) && ValidKey(b) && FourDigitYear(a) && FourDigitYear(b)
    ensures var fa, fb := FirstField(RenderPadded(a)), FirstField(RenderPadded(b));
      var sa, sb := SecondField(RenderPadded(a)), SecondField(RenderPadded(b));
      && sa.Some? && sb.Some?
      && (fa == fb <==> a.year == b.year)
      && (Lex.Less(fb, fa) <==> b.year < a.year)
      && (a.year == b.year ==> (Lex.Less(sb.value, sa.value) <==> b.month < a.month))
  {
    MonthFields(a);
    MonthFields(b);
    ScopeKeyLemmas.YearOrder(a.year, b.year);
    ScopeKeyLemmas.YearOrder(b.year, a.year);
    assert Digits.Pow10(2) == 100;
    ScopeKeyLemmas.FieldOrder(b.month, a.month, 2);
  }

  /** Two monthly keys of the same year are ordered by their month texts as strings. */
  lemma CompareSameYear(Y: string, m1: string, m2: string)
    requires |Y| == 4 && Digits.AllDigits(Y) && MonthField(m1) && MonthField(m2) && m1 != m2
    ensures CompareKey(Some(Y + "-" + m1), Some(Y + "-" + m2)) == if Lex.Less(m2, m1) then 1 else -1
  {
    var a, b := Y + "-" + m1, Y + "-" + m2;
    assert a[..4] == Y && a[4] == '-' && a[5..] == m1;
    assert b[5..] == m2;
    assert forall j :: 0 <= j < |Y| ==> Digits.IsDigit(Y[j]);
    DashIndexOfJoin(Y, m1);
    DashIndexOfJoin(Y, m2);
    assert forall j :: 0 <= j < |m1| ==> Digits.IsDigit(m1[j]);
    assert forall j :: 0 <= j < |m2| ==> Digits.IsDigit(m2[j]);
    DashIndexOfJoin(m1, "");
    DashIndexOfJoin(m2, "");
    assert m1[..|m1|] == m1 && m2[..|m2|] == m2;
  }

  /** The string comparison of month fields puts October before September when the month is
      not zero-padded, against the calendar. */
  lemma CompareKeyUnpaddedMonths()
    ensures CompareKey(Some("2015-10"), Some("2015-9")) == -1
    ensures CompareKey(Some("2015-9"), Some("2015-10")) == 1
    ensures CompareKey(Some("2015-09"), Some("2015-10")) == -1
  {
    assert Lex.Less("10", "9") && !Lex.Less("9", "10");
    assert Lex.Less("09", "10") && !Lex.Less("10", "09");
    CompareSameYear("2015", "10", "9");
    CompareSameYear("2015", "9", "10");
    CompareSameYear("2015", "09", "10");
    assert "2015" + "-" + "10" == "2015-10";
    assert "2015" + "-" + "9" == "2015-9";
    assert "2015" + "-" + "09" == "2015-09";
  }

  // ---------------------------------------------------------------------------------------
  // getLargestKeyWithScopeType

  /** The `.map(convertKey)` step: every key converted, or the first rejection. */
  function ConvertAll(keys: seq<string>, scope: Scope): (r: Result<seq<Option<string>>>)
    ensures r.Ok? ==> |r.value| == |keys|
    ensures r.Ok? ==> forall i :: 0 <= i < |keys| ==> ConvertKey(Some(keys[i]), scope) == Ok(r.value[i])
    ensures r.Err? ==> exists i :: 0 <= i < |keys| && ConvertKey(Some(keys[i]), scope).Err?
    decreases |keys|
  {
    if |keys| == 0 then Ok([])
    else
      var front :- ConvertAll(keys[..|keys| - 1], scope);
      var c :- ConvertKey(Some(keys[|keys| - 1]), scope);
      Ok(front + [c])
  }

  /** The `.sort()` and `_.last` steps: the largest string in JavaScript order (`None` when
      there is none). */
  function Largest(xs: seq<Option<string>>): (r: Option<string>)
    ensures r.Some? ==> r in xs
    ensures r.Some? ==> forall i :: 0 <= i < |xs| && xs[i].Some? ==> Lex.LessEq(xs[i].value, r.value)
    ensures r.None? ==> forall i :: 0 <= i < |xs| ==> xs[i].None?
    decreases |xs|
  {
    if |xs| == 0 then None
    else
      var front := xs[..|xs| - 1];
      var prev, last := Largest(front), xs[|xs| - 1];
      assert forall i :: 0 <= i < |front| ==> front[i] == xs[i];
      if last.None? then prev
      else if prev.None? then last
      else if Lex.Less(prev.value, last.value) then
        assert forall i :: 0 <= i < |front| && front[i].Some? ==> Lex.LessEq(front[i].value, last.value) by {
          forall i | 0 <= i < |front| && front[i].Some?
            ensures Lex.LessEq(front[i].value, last.value)
          {
            Lex.LessEqTransitive(front[i].value, prev.value, last.value);
          }
        }
        last
      else
        Lex.Total(prev.value, last.value);
        prev
  }

  /** The `.filter(key => key != null)` step. */
  function NonNull(keys: seq<Option<string>>): (r: seq<string>)
    ensures forall x :: x in r <==> Some(x) in keys
    decreases |keys|
  {
    if |keys| == 0 then []
    else
      var front := NonNull(keys[..|keys| - 1]);
      assert keys == keys[..|keys| - 1] + [keys[|keys| - 1]];
      match keys[|keys| - 1]
      case None => front
      case Some(k) => front + [k]
  }

  /** util.getLargestKeyWithScopeType: drop the `null` keys, convert the rest to `scope`, sort
      the results as strings and take the last; a key convertKey rejects makes it throw. The
      result is the largest converted key, and one of them. */
  function LargestKeyWithScopeType(keys: seq<Option<string>>, scope: Scope): (r: Result<Option<string>>)
    ensures r.Err? <==> exists k :: Some(k) in keys && ConvertKey(Some(k), scope).Err?
    ensures r.Ok? && r.value.Some? ==> exists k :: Some(k) in keys && ConvertKey(Some(k), scope) == Ok(r.value)
    ensures r.Ok? && r.value.Some? ==>
      forall k :: Some(k) in keys ==>
        ConvertKey(Some(k), scope).Ok? && ConvertKey(Some(k), scope).value.Some? &&
        Lex.LessEq(ConvertKey(Some(k), scope).value.value, r.value.value)
    ensures r.Ok? && r.value.None? ==> scope == Timeless || forall i :: 0 <= i < |keys| ==> keys[i].None?
  {
    var present := NonNull(keys);
    var converted :- ConvertAll(present, scope);
    LargestOfConverted(keys, scope, present, converted);
    Ok(Largest(converted))
  }

  lemma LargestOfConverted(keys: seq<Option<string>>, scope: Scope, present: seq<string>, converted: seq<Option<string>>)
    requires present == NonNull(keys) && ConvertAll(present, scope) == Ok(converted)
    ensures var r := Largest(converted);
      && (r.Some? ==> exists k :: Some(k) in keys && ConvertKey(Some(k), scope) == Ok(r))
      && (r.Some? ==> forall k :: Some(k) in keys ==>
           ConvertKey(Some(k), scope).Ok? && ConvertKey(Some(k), scope).value.Some? &&
           Lex.LessEq(ConvertKey(Some(k), scope).value.value, r.value))
      && (r.None? ==> scope == Timeless || forall i :: 0 <= i < |keys| ==> keys[i].None?)
  {
    var r := Largest(converted);
    if r.Some? {
      LargestIsConverted(keys, scope, present, converted);
      LargestIsMax(keys, scope, present, converted);
    } else if scope != Timeless {
      NoLargest(keys, scope, present, converted);
    }
  }

  lemma LargestIsConverted(keys: seq<Option<string>>, scope: Scope, present: seq<string>, converted: seq<Option<string>>)
    requires present == NonNull(keys) && ConvertAll(present, scope) == Ok(converted)
    requires Largest(converted).Some?
    ensures exists k :: Some(k) in keys && ConvertKey(Some(k), scope) == Ok(Largest(converted))
  {
    var r := Largest(converted);
    var j :| 0 <= j < |converted| && converted[j] == r;
    assert Some(present[j]) in keys && ConvertKey(Some(present[j]), scope) == Ok(r);
  }

  lemma LargestIsMax(keys: seq<Option<string>>, scope: Scope, present: seq<string>, converted: seq<Option<string>>)
    requires present == NonNull(keys) && ConvertAll(present, scope) == Ok(converted)
    requires Largest(converted).Some?
    ensures forall k :: Some(k) in keys ==>
      ConvertKey(Some(k), scope).Ok? && ConvertKey(Some(k), scope).value.Some? &&
      Lex.LessEq(ConvertKey(Some(k), scope).value.value, Largest(converted).value)
  {
    var r := Largest(converted);
    forall k | Some(k) in keys
      ensures ConvertKey(Some(k), scope).Ok? && ConvertKey(Some(k), scope).value.Some?
      ensures Lex.LessEq(ConvertKey(Some(k), scope).value.value, r.value)
    {
      ConvertedMember(present, scope, converted, k);
    }
  }

  lemma NoLargest(keys: seq<Option<string>>, scope: Scope, present: seq<string>, converted: seq<Option<string>>)
    requires present == NonNull(keys) && ConvertAll(present, scope) == Ok(converted)
    requires Largest(converted).None? && scope != Timeless
    ensures forall i :: 0 <= i < |keys| ==> keys[i].None?
  {
    forall i | 0 <= i < |keys| ensures keys[i].None? {
      if keys[i].Some? {
        var k := keys[i].value;
        ConvertedMember(present, scope, converted, k);
        ConvertKeyOfRecognised(k, scope);
      }
    }
  }

  lemma ConvertedMember(present: seq<string>, scope: Scope, converted: seq<Option<string>>, k: string)
    requires ConvertAll(present, scope) == Ok(converted) && k in present
    ensures ConvertKey(Some(k), scope).Ok? && ConvertKey(Some(k), scope).value in converted
  {
    var j :| 0 <= j < |present| && present[j] == k;
    assert ConvertKey(Some(present[j]), scope) == Ok(converted[j]);
  }

  lemma ConvertKeyOfRecognised(k: string, scope: Scope)
    requires ConvertKey(Some(k), scope).Ok? && scope != Timeless
    ensures ConvertKey(Some(k), scope).value.Some?
  {
  }

  /** convertKey on a key string that names a period. */
  lemma ConvertParsed(k: string, scope: Scope)
    requires ParseKey(k).Some? && ValidKey(ParseKey(k).value) && scope != Timeless
    ensures var m := KeyOf(EndDate(ParseKey(k).value), scope);
      ConvertKey(Some(k), scope) == Ok(Some(Render(m))) && FourDigitYear(m)
  {
  }

  /** The period a key falls in, at `scope`. */
  function Coarsened(k: string, scope: Scope): Key
    requires ParseKey(k).Some? && ValidKey(ParseKey(k).value) && scope != Timeless
  {
    KeyOf(EndDate(ParseKey(k).value), scope)
  }

  lemma LaterByString(a: string, b: string, scope: Scope)
    requires scope in {Quarterly, Annually}
    requires ParseKey(a).Some? && ValidKey(ParseKey(a).value)
    requires ParseKey(b).Some? && ValidKey(ParseKey(b).value)
    requires Lex.LessEq(Render(Coarsened(a, scope)), Render(Coarsened(b, scope)))
    ensures NotAfter(StartDate(Coarsened(a, scope)), StartDate(Coarsened(b, scope)))
  {
    var ma, mb := Coarsened(a, scope), Coarsened(b, scope);
    ConvertParsed(a, scope);
    ConvertParsed(b, scope);
    assert Render(ma) == RenderPadded(ma) && Render(mb) == RenderPadded(mb);
    ScopeKeyLemmas.PaddedOrderIsChronological(mb, ma);
    Lex.Irreflexive(Render(ma));
    Lex.Asymmetric(Render(ma), Render(mb));
  }

  /** Converted to quarters or years, where the loose and the padded format agree, the largest
      key is the latest period that any of the keys falls in. */
  lemma LargestKeyIsLatest(keys: seq<Option<string>>, scope: Scope)
    requires scope in {Quarterly, Annually}
    requires exists k :: Some(k) in keys
    requires forall k :: Some(k) in keys ==> ParseKey(k).Some? && ValidKey(ParseKey(k).value)
    ensures var r := LargestKeyWithScopeType(keys, scope);
      && r.Ok? && r.value.Some?
      && exists k :: Some(k) in keys && r.value.value == Render(Coarsened(k, scope)) &&
           forall k' :: Some(k') in keys ==> NotAfter(StartDate(Coarsened(k', scope)), StartDate(Coarsened(k, scope)))
  {
    var k := LargestWitness(keys, scope);
    forall k' | Some(k') in keys ensures NotAfter(StartDate(Coarsened(k', scope)), StartDate(Coarsened(k, scope))) {
      ConvertParsed(k', scope);
      LaterByString(k', k, scope);
    }
  }

  /** The key whose period the largest converted key names. */
  lemma LargestWitness(keys: seq<Option<string>>, scope: Scope) returns (k: string)
    requires scope in {Quarterly, Annually}
    requires exists k :: Some(k) in keys
    requires forall k :: Some(k) in keys ==> ParseKey(k).Some? && ValidKey(ParseKey(k).value)
    ensures Some(k) in keys
    ensures var r := LargestKeyWithScopeType(keys, scope);
      && r.Ok? && r.value.Some? && r.value.value == Render(Coarsened(k, scope))
      && forall k' :: Some(k') in keys ==> Lex.LessEq(Render(Coarsened(k', scope)), r.value.value)
  {
    var r := LargestKeyWithScopeType(keys, scope);
    forall k | Some(k) in keys ensures ConvertKey(Some(k), scope) == Ok(Some(Render(Coarsened(k, scope)))) {
      ConvertParsed(k, scope);
    }
    var k0 :| Some(k0) in keys;
    assert r.Ok?;
    assert r.value.Some?;
    k :| Some(k) in keys && ConvertKey(Some(k), scope) == Ok(r.value);
  }

  /** A monthly key written without a leading zero converts to itself at the monthly scope. */
  lemma LooseMonthConverts(Y: string, t: string)
    requires |Y| == 4 && Digits.AllDigits(Y) && MonthField(t) && t[0] != '0'
    ensures ParseKey(Y + "-" + t).Some? && ValidKey(ParseKey(Y + "-" + t).value)
    ensures ConvertKey(Some(Y + "-" + t), Monthly) == Ok(Some(Y + "-" + t))
  {
    var s := Y + "-" + t;
    ScopeKeyLemmas.ParseMonthText(Y, t);
    var k := ParseKey(s).value;
    ScopeKeyLemmas.KeyOfEndDate(k);
    ConvertParsed(s, Monthly);
    ScopeKeyLemmas.YearTextOfText(Y);
    Digits.ValueShort(t);
    if |t| == 1 {
      assert Digits.Digits(k.month) == t;
    } else {
      ScopeKeyLemmas.SmallDigitsTwo(k.month);
      assert Digits.Digits(k.month) == t;
    }
    assert Render(k) == s;
  }

  /** Sorting loose monthly keys as strings puts September after December of the same year. */
  lemma LargestMonthlyKeyQuirk(Y: string)
    requires |Y| == 4 && Digits.AllDigits(Y)
    ensures LargestKeyWithScopeType([Some(Y + "-9"), Some(Y + "-12")], Monthly) == Ok(Some(Y + "-9"))
  {
    var sep, dec := Y + "-9", Y + "-12";
    LooseMonthConverts(Y, "9");
    LooseMonthConverts(Y, "12");
    assert Y + "-" + "9" == sep && Y + "-" + "12" == dec;
    Lex.SplitCompare(Y + "-", "12", Y + "-", "9");
    assert Y + "-" + "12" == dec && Y + "-" + "9" == sep;
    assert Lex.Less("12", "9");
    Lex.Asymmetric(dec, sep);
    assert sep != dec by {
      assert sep[5] != dec[5];
    }
    QuirkPick([Some(sep), Some(dec)], sep, dec);
  }

  lemma QuirkPick(keys: seq<Option<string>>, a: string, b: string)
    requires keys == [Some(a), Some(b)]
    requires ConvertKey(Some(a), Monthly) == Ok(Some(a)) && ConvertKey(Some(b), Monthly) == Ok(Some(b))
    requires Lex.Less(b, a) && !Lex.Less(a, b) && a != b
    ensures LargestKeyWithScopeType(keys, Monthly) == Ok(Some(a))
  {
    var r := LargestKeyWithScopeType(keys, Monthly);
    assert Some(a) in keys && Some(b) in keys;
    assert forall k :: Some(k) in keys ==> k == a || k == b;
    assert r.Ok?;
    assert r.value.Some?;
    assert Lex.LessEq(a, r.value.value);
  }
}
