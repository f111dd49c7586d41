/** The scope-key codec of util.js: classifying a key string by the four key patterns,
    mapping a key to the last day of its period, and mapping a date to the key of the period
    that contains it, in the loose (`2015-3`) or the zero-padded (`2015-03`) format. */
module ScopeKeys {
  import opened Wrappers
  import opened Calendar
  import Digits

  /** The granularity of a series or a key. */
  datatype Scope = Annually | Quarterly | Monthly | Daily | Timeless

  /** A period: a year, a quarter (1-4) of a year, a month (1-12) of a year, or one day. */
  datatype Key =
    | Annual(year: int)
    | Quarter(year: int, q: int)
    | Month(year: int, month: int)
    | Day(year: int, month: int, day: int)

  /** A JavaScript `Date` value as the codec sees it: `null`, a valid instant, or the
      `Invalid Date` that moment.js produces from a string that names no day. */
  datatype Instant = NoDate | At(date: Date) | InvalidDate

  function ScopeOf(k: Key): Scope {
    match k
    case Annual(_) => Annually
    case Quarter(_, _) => Quarterly
    case Month(_, _) => Monthly
    case Day(_, _, _) => Daily
  }

  /** The scope's name as `scopeType` prints it. */
  function ScopeName(s: Scope): string {
    match s
    case Annually => "annually"
    case Quarterly => "quarterly"
    case Monthly => "monthly"
    case Daily => "daily"
    case Timeless => "timeless"
  }

  /** Daily is the finest granularity, annually the coarsest. */
  function Rank(s: Scope): nat {
    match s
    case Daily => 0
    case Monthly => 1
    case Quarterly => 2
    case Annually => 3
    case Timeless => 4
  }

  predicate ValidKey(k: Key) {
    match k
    case Annual(_) => true
    case Quarter(_, q) => 1 <= q <= 4
    case Month(_, m) => 1 <= m <= 12
    case Day(y, m, d) => Valid(Date(y, m, d))
  }

  /** Keys whose year has the four digits every key pattern requires. */
  predicate FourDigitYear(k: Key) {
    0 <= k.year <= 9999
  }

  // ---------------------------------------------------------------------------------------
  // The four key patterns (MONTH_RE, QUARTER_RE, FISCAL_RE, DAY_RE), anchored at both ends.

  predicate MonthField(t: string) {
    || (|t| == 1 && '1' <= t[0] <= '9')
    || (|t| == 2 && t[0] == '0' && '1' <= t[1] <= '9')
    || (|t| == 2 && t[0] == '1' && '0' <= t[1] <= '2')
  }

  predicate ShortNumber(t: string) {
    1 <= |t| <= 2 && Digits.AllDigits(t)
  }

  predicate DayFields(t: string) {
    || (|t| >= 2 && t[1] == '-' && ShortNumber(t[..1]) && ShortNumber(t[2..]))
    || (|t| >= 3 && t[2] == '-' && ShortNumber(t[..2]) && ShortNumber(t[3..]))
  }

  predicate YearPrefix(s: string) {
    |s| >= 4 && Digits.AllDigits(s[..4])
  }

  predicate IsMonthKey(s: string) {
    YearPrefix(s) && |s| >= 5 && s[4] == '-' && MonthField(s[5..])
  }

  predicate IsQuarterKey(s: string) {
    YearPrefix(s) && |s| == 6 && s[4] == 'Q' && '1' <= s[5] <= '4'
  }

  predicate IsAnnualKey(s: string) {
    |s| == 4 && Digits.AllDigits(s)
  }

  predicate IsDayKey(s: string) {
    YearPrefix(s) && |s| >= 5 && s[4] == '-' && DayFields(s[5..])
  }

  /** util.scopeKeyType: `null` is timeless; otherwise the first pattern that matches, tried
      in the order monthly, quarterly, annually, daily; `None` when none matches. */
  function ScopeKeyType(key: Option<string>): (r: Option<Scope>)
    ensures key.None? ==> r == Some(Timeless)
    ensures r == Some(Timeless) ==> key.None?
  {
    match key
    case None => Some(Timeless)
    case Some(s) =>
      if IsMonthKey(s) then Some(Monthly)
      else if IsQuarterKey(s) then Some(Quarterly)
      else if IsAnnualKey(s) then Some(Annually)
      else if IsDayKey(s) then Some(Daily)
      else None
  }

  function DayMonthText(t: string): string
    requires DayFields(t)
  {
    if t[1] == '-' then t[..1] else t[..2]
  }

  function DayDayText(t: string): string
    requires DayFields(t)
  {
    if t[1] == '-' then t[2..] else t[3..]
  }

  /** The period a key string names, read with the same patterns and precedence as
      `ScopeKeyType`. A daily key may name no calendar day (`2015-13-45`). */
  function ParseKey(s: string): (r: Option<Key>)
    ensures r.Some? <==> ScopeKeyType(Some(s)).Some?
    ensures r.Some? ==> ScopeKeyType(Some(s)) == Some(ScopeOf(r.value)) && FourDigitYear(r.value)
    ensures r.Some? && !r.value.Day? ==> ValidKey(r.value)
  {
    if IsMonthKey(s) then
      Digits.ValueBound(s[..4]);
      Some(Month(Digits.Value(s[..4]), MonthValue(s[5..])))
    else if IsQuarterKey(s) then
      Digits.ValueBound(s[..4]);
      Some(Quarter(Digits.Value(s[..4]), s[5] as int - 48))
    else if IsAnnualKey(s) then
      assert s[..4] == s;
      Digits.ValueBound(s);
      Some(Annual(Digits.Value(s)))
    else if IsDayKey(s) then
      Digits.ValueBound(s[..4]);
      var t := s[5..];
      Some(Day(Digits.Value(s[..4]), Digits.Value(DayMonthText(t)), Digits.Value(DayDayText(t))))
    else None
  }

  function MonthValue(t: string): (m: int)
    requires MonthField(t)
    ensures 1 <= m <= 12
  {
    assert Digits.AllDigits(t);
    Digits.ValueShort(t);
    Digits.Value(t)
  }

  // ---------------------------------------------------------------------------------------
  // Rendering: SCOPE_TO_STRING_FORMAT (loose) and SCOPE_TO_KEY_FORMAT (padded).

  /** moment's `YYYY`: the year zero-filled to four digits, with a minus sign before a
      negative year; a year above 9999 prints all its digits. */
  function YearText(y: int): string {
    if 0 <= y <= 9999 then Digits.Pad(y, 4)
    else if y < 0 then "-" + Digits.Pad(-y, 4)
    else Digits.Digits(y)
  }

  /** The loose format: `YYYY`, `YYYYQq`, `YYYY-M`, `YYYY-M-D`. */
  function Render(k: Key): string {
    match k
    case Annual(y) => YearText(y)
    case Quarter(y, q) => YearText(y) + "Q" + Digits.Digits(if q < 0 then 0 else q)
    case Month(y, m) => YearText(y) + "-" + Digits.Digits(if m < 0 then 0 else m)
    case Day(y, m, d) =>
      YearText(y) + "-" + Digits.Digits(if m < 0 then 0 else m) + "-" + Digits.Digits(if d < 0 then 0 else d)
  }

  /** The padded format: `YYYY`, `YYYYQq`, `YYYY-MM`, `YYYY-MM-DD`. */
  function RenderPadded(k: Key): string {
    match k
    case Annual(y) => YearText(y)
    case Quarter(y, q) => YearText(y) + "Q" + Digits.Digits(if q < 0 then 0 else q)
    case Month(y, m) => YearText(y) + "-" + Digits.Pad(if m < 0 then 0 else m, 2)
    case Day(y, m, d) =>
      YearText(y) + "-" + Digits.Pad(if m < 0 then 0 else m, 2) + "-" + Digits.Pad(if d < 0 then 0 else d, 2)
  }

  // ---------------------------------------------------------------------------------------
  // Periods as date ranges.

  /** The key of the period of scope `s` that contains `d`. */
  function KeyOf(d: Date, s: Scope): (k: Key)
    requires Valid(d) && s != Timeless
    ensures ScopeOf(k) == s && ValidKey(k) && k.year == d.year
  {
    match s
    case Annually => Annual(d.year)
    case Quarterly => Quarter(d.year, (d.month + 2) / 3)
    case Monthly => Month(d.year, d.month)
    case Daily => Day(d.year, d.month, d.day)
  }

  function StartDate(k: Key): (d: Date)
    requires ValidKey(k)
    ensures Valid(d)
  {
    match k
    case Annual(y) => Date(y, 1, 1)
    case Quarter(y, q) => Date(y, 3 * q - 2, 1)
    case Month(y, m) => Date(y, m, 1)
    case Day(y, m, d) => Date(y, m, d)
  }

  /** The last day of the period, the date every key is anchored to. */
  function EndDate(k: Key): (d: Date)
    requires ValidKey(k)
    ensures Valid(d)
  {
    match k
    case Annual(y) => Date(y, 12, 31)
    case Quarter(y, q) => Date(y, 3 * q, DaysInMonth(y, 3 * q))
    case Month(y, m) => Date(y, m, DaysInMonth(y, m))
    case Day(y, m, d) => Date(y, m, d)
  }

  /** moment's `endOf(unit).startOf('day')`: the last day of the containing period. */
  function EndOfPeriod(d: Date, s: Scope): (r: Date)
    requires Valid(d) && s != Timeless
    ensures Valid(r)
  {
    match s
    case Annually => Date(d.year, 12, 31)
    case Quarterly =>
      var m := 3 * ((d.month + 2) / 3);
      Date(d.year, m, DaysInMonth(d.year, m))
    case Monthly => Date(d.year, d.month, DaysInMonth(d.year, d.month))
    case Daily => d
  }

  /** A date belongs to the period `k` exactly when it lies between the period's first and
      last day. */
  lemma PeriodMembership(k: Key, d: Date)
    requires ValidKey(k) && Valid(d)
    ensures KeyOf(d, ScopeOf(k)) == k <==> NotAfter(StartDate(k), d) && NotAfter(d, EndDate(k))
  {
    OrdIsLexicographic(StartDate(k), d);
    OrdIsLexicographic(d, EndDate(k));
  }

  /** Rounding up to the end of the period keeps the date in its period, and that end is the
      period's anchor date. */
  lemma EndOfPeriodStaysInPeriod(d: Date, s: Scope)
    requires Valid(d) && s != Timeless
    ensures EndOfPeriod(d, s) == EndDate(KeyOf(d, s))
    ensures KeyOf(EndOfPeriod(d, s), s) == KeyOf(d, s)
    ensures NotAfter(d, EndOfPeriod(d, s))
  {
    var k := KeyOf(d, s);
    PeriodMembership(k, d);
    PeriodMembership(k, EndDate(k));
    OrdIsLexicographic(StartDate(k), EndDate(k));
  }

  // ---------------------------------------------------------------------------------------
  // The codec operations.

  /** util.scopeKeyToDate: `null` for a `null` key, the last day of the key's period for a
      recognised key, a TypeError for any other string. */
  function ScopeKeyToDate(key: Option<string>): (r: Result<Instant>)
    ensures key.None? ==> r == Ok(NoDate)
    ensures key.Some? && ScopeKeyType(key).None? ==> r.Err?
    ensures r.Ok? && r.value.At? ==>
      key.Some? && ParseKey(key.value).Some? && ValidKey(ParseKey(key.value).value) &&
      r.value.date == EndDate(ParseKey(key.value).value)
  {
    match key
    case None => Ok(NoDate)
    case Some(s) =>
      match ParseKey(s)
      case None => Err("TypeError: Unsupported key type (" + s + ")")
      case Some(k) => if ValidKey(k) then Ok(At(EndDate(k))) else Ok(InvalidDate)
  }

  /** util.dateToScopeKey: round the date up to the end of its period and print it in the
      loose format; `null` for a `null` date or the timeless scope. */
  function DateToScopeKey(d: Instant, s: Scope): (r: Option<string>)
    requires d.At? ==> Valid(d.date)
    ensures d.NoDate? || s == Timeless ==> r.None?
    ensures d.At? && s != Timeless ==> r == Some(Render(KeyOf(d.date, s)))
  {
    if s == Timeless then None
    else match d
      case NoDate => None
      case InvalidDate => Some("Invalid date")
      case At(date) =>
        EndOfPeriodStaysInPeriod(date, s);
        Some(Render(KeyOf(EndOfPeriod(date, s), s)))
  }

  /** util.dateToNormalizeScopeKey: the same rounding, printed in the padded format. */
  function DateToNormalizeScopeKey(d: Date, s: Scope): (r: Option<string>)
    requires Valid(d)
    ensures s == Timeless ==> r.None?
    ensures s != Timeless ==> r == Some(RenderPadded(KeyOf(d, s)))
  {
    if s == Timeless then None
    else
      EndOfPeriodStaysInPeriod(d, s);
      Some(RenderPadded(KeyOf(EndOfPeriod(d, s), s)))
  }

  /** util.normalizeKey: a six-character monthly key gets a zero before its month; every other
      string, daily keys included, is returned as it is. */
  function NormalizeKey(key: string): string {
    if IsMonthKey(key) && |key| == 6 then key[..4] + "-0" + key[5..] else key
  }

  /** util.convertKey: key to date to key of the target scope. */
  function ConvertKey(key: Option<string>, toScope: Scope): (r: Result<Option<string>>)
    ensures key.None? ==> r == Ok(None)
    ensures key.Some? && ScopeKeyType(key).None? ==> r.Err?
    ensures key.Some? && ScopeKeyType(key).Some? && toScope != Timeless ==> r.Ok? && r.value.Some?
    ensures toScope == Timeless && r.Ok? ==> r.value.None?
    ensures ScopeKeyToDate(key) == Ok(InvalidDate) && toScope != Timeless ==> r == Ok(Some("Invalid date"))
  {
    var date :- ScopeKeyToDate(key);
    Ok(DateToScopeKey(date, toScope))
  }
}
