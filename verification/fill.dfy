/** The sequence and map helpers of util.js: trimming an ascending array from the end
    (filterAscArray), the period ends between two dates (generateDates), extending a keyed
    object up to a date (forwardFillObject) and filling a series of observations day by day
    (forwardFill). */
module Fill {
  import opened Wrappers
  import opened Calendar
  import opened ScopeKeys
  import ScopeKeyLemmas
  import KeyArith
  import KeyRange
  import Lex
  import Digits

  // ---------------------------------------------------------------------------------------
  // filterAscArray

  /** The second argument of filterAscArray: a limit, or a predicate that elements must pass. */
  datatype Cut = Limit(limit: real) | Keep(pass: real -> bool)

  /** An element survives at the end of the array when it is not above the limit, or when it
      passes the predicate. */
  predicate Survives(cut: Cut, x: real) {
    match cut
    case Limit(limit) => !(x > limit)
    case Keep(pass) => pass(x)
  }

  /** The array with its longest run of trailing elements that do not survive removed: a
      prefix of the input that is empty or ends in a survivor, and everything cut off fails. */
  function TrimTail(s: seq<real>, cut: Cut): (r: seq<real>)
    ensures r <= s
    ensures |r| == 0 || Survives(cut, r[|r| - 1])
    ensures forall i :: |r| <= i < |s| ==> !Survives(cut, s[i])
  {
    if |s| > 0 && !Survives(cut, s[|s| - 1]) then TrimTail(s[..|s| - 1], cut) else s
  }

  /** util.filterAscArray: a copy of the array, popped from the end while its last element
      fails. The caller's array is a value here and stays as it was. */
  method FilterAscArray(arr: seq<real>, cut: Cut) returns (r: seq<real>)
    ensures r == TrimTail(arr, cut)
  {
    if |arr| == 0 {
      return [];
    }
    r := arr;
    while |r| > 0 && !Survives(cut, r[|r| - 1])
      invariant r <= arr && TrimTail(r, cut) == TrimTail(arr, cut)
    {
      r := r[..|r| - 1];
    }
  }

  // ---------------------------------------------------------------------------------------
  // generateDates

  /** The last days of `k` and the periods after it, in order, as long as they fall before
      `to`. */
  function EndsBefore(k: Key, to: Date): seq<Date>
    requires ValidKey(k)
    decreases Ord(to) - Ord(StartDate(k))
  {
    if Before(EndDate(k), to) then
      ScopeKeyLemmas.KeyOfEndDate(k);
      KeyArith.ShiftInverse(k, 1);
      [EndDate(k)] + EndsBefore(KeyArith.Shift(k, 1), to)
    else []
  }

  /** The dates are the last days of consecutive periods starting with `k`'s, all before `to`,
      and the next period's last day is not. */
  lemma EndsBeforeShape(k: Key, to: Date)
    requires ValidKey(k)
    ensures var ds := EndsBefore(k, to);
      && (forall i :: 0 <= i < |ds| ==> ds[i] == EndDate(KeyArith.Shift(k, i)) && Before(ds[i], to))
      && !Before(EndDate(KeyArith.Shift(k, |ds|)), to)
  {
    EndsBeforeIndex(k, to);
    EndsBeforeEnd(k, to);
  }

  /** The i-th date is the last day of `k`'s period moved forward by i periods. */
  lemma {:induction false} EndsBeforeIndex(k: Key, to: Date)
    requires ValidKey(k)
    ensures var ds := EndsBefore(k, to);
      forall i :: 0 <= i < |ds| ==> ds[i] == EndDate(KeyArith.Shift(k, i)) && Before(ds[i], to)
    decreases Ord(to) - Ord(StartDate(k))
  {
    var ds := EndsBefore(k, to);
    KeyArith.ShiftInverse(k, 0);
    if Before(EndDate(k), to) {
      var n := KeyArith.Shift(k, 1);
      ScopeKeyLemmas.KeyOfEndDate(k);
      KeyArith.ShiftInverse(k, 1);
      var rest := EndsBefore(n, to);
      assert ds == [EndDate(k)] + rest;
      EndsBeforeIndex(n, to);
      forall i | 0 < i < |ds| ensures ds[i] == EndDate(KeyArith.Shift(k, i)) && Before(ds[i], to) {
        assert ds[i] == rest[i - 1];
        KeyArith.ShiftCompose(k, 1, i - 1);
      }
    }
  }

  /** The dates stop at the first period whose last day is not before `to`. */
  lemma {:induction false} EndsBeforeEnd(k: Key, to: Date)
    requires ValidKey(k)
    ensures !Before(EndDate(KeyArith.Shift(k, |EndsBefore(k, to)|)), to)
    decreases Ord(to) - Ord(StartDate(k))
  {
    KeyArith.ShiftInverse(k, 0);
    if Before(EndDate(k), to) {
      var n := KeyArith.Shift(k, 1);
      ScopeKeyLemmas.KeyOfEndDate(k);
      KeyArith.ShiftInverse(k, 1);
      var rest := EndsBefore(n, to);
      assert |EndsBefore(k, to)| == |rest| + 1;
      EndsBeforeEnd(n, to);
      KeyArith.ShiftCompose(k, 1, |rest|);
    }
  }

  /** util.generateDates: starting from the last day of `from`'s period, every period end
      before `to`, stepping one period at a time; a TypeError for the timeless scope. */
  method GenerateDates(from: Date, to: Date, s: Scope) returns (r: Result<seq<Date>>)
    requires Valid(from)
    ensures s == Timeless ==> r.Err?
    ensures s != Timeless ==> r == Ok(EndsBefore(KeyOf(from, s), to))
  {
    if s == Timeless {
      return Err("TypeError: [Util] Illegal formula scope(timeless)");
    }
    EndOfPeriodStaysInPeriod(from, s);
    var cur := EndOfPeriod(from, s);
    ghost var k := KeyOf(from, s);
    var dates := [];
    while Before(cur, to)
      invariant ValidKey(k) && ScopeOf(k) == s && cur == EndDate(k)
      invariant dates + EndsBefore(k, to) == EndsBefore(KeyOf(from, s), to)
      decreases Ord(to) - Ord(StartDate(k))
    {
      ScopeKeyLemmas.KeyOfEndDate(k);
      KeyArith.ShiftInverse(k, 1);
      dates := dates + [cur];
      var moved := KeyArith.MoveDate(cur, 1, s);
      KeyArith.MoveDateIsShift(k, 1);
      EndOfPeriodStaysInPeriod(moved, s);
      cur := EndOfPeriod(moved, s);
      k := KeyArith.Shift(k, 1);
    }
    assert EndsBefore(k, to) == [];
    assert dates + [] == dates;
    return Ok(dates);
  }

  // ---------------------------------------------------------------------------------------
  // forwardFillObject

  /** `_last(Object.keys(obj).sort())`: the greatest key in string order. */
  method LastKey(keys: set<string>) returns (m: string)
    requires keys != {}
    ensures m in keys && forall key :: key in keys ==> Lex.LessEq(key, m)
  {
    m :| m in keys;
    var rest := keys - {m};
    while rest != {}
      invariant m in keys && rest <= keys
      invariant forall key :: key in keys && key !in rest ==> Lex.LessEq(key, m)
      decreases rest
    {
      var x :| x in rest;
      Lex.Total(m, x);
      if Lex.Less(m, x) {
        forall key | key in keys && key !in rest ensures Lex.LessEq(key, x) {
          Lex.LessEqTransitive(key, m, x);
        }
        m := x;
      }
      rest := rest - {x};
    }
  }

  /** A period starts by a date exactly when it starts by the first day of that date's period. */
  lemma StartsByDate(p: Key, d: Date)
    requires ValidKey(p) && Valid(d)
    ensures NotAfter(StartDate(p), d) <==> NotAfter(StartDate(p), StartDate(KeyOf(d, ScopeOf(p))))
  {
    var e := KeyOf(d, ScopeOf(p));
    PeriodMembership(e, d);
    ScopeKeyLemmas.KeyOfEndDate(p);
    PeriodMembership(e, StartDate(p));
  }

  /** The next period is in the same year or the year after. */
  lemma NextPeriodYear(k: Key)
    requires ValidKey(k)
    ensures k.year <= KeyArith.Shift(k, 1).year <= k.year + 1
  {
    if k.Day? {
      assert AddDays(Date(k.year, k.month, k.day), 1) == NextDay(Date(k.year, k.month, k.day));
    }
  }

  /** A period whose first day is not after another's lies in the same year or an earlier one. */
  lemma YearOfEarlier(p: Key, e: Key)
    requires ValidKey(p) && ValidKey(e) && NotAfter(StartDate(p), StartDate(e))
    ensures p.year <= e.year
  {
    OrdIsLexicographic(StartDate(p), StartDate(e));
  }

  lemma ParsePadded(e: Key, key: Option<string>)
    requires ValidKey(e) && FourDigitYear(e) && key == Some(RenderPadded(e))
    ensures key.Some? && ParseKey(key.value) == Some(e)
  {
    ScopeKeyLemmas.ParseRender(e);
  }

  /** The lookback test `compareKey(subtractScopeKey(endKey, maxLookbackPeriod), lastKey) === 1`,
      with `endKey` the key of period `e` and `cur` the padded key of the period after `k`: it
      compares the loose key `maxLookback` periods before `e` with that padded key. */
  method LookbackCut(endKey: Option<string>, maxLookback: Option<int>, cur: string, ghost e: Key, ghost k: Key)
    returns (cut: bool)
    requires endKey == Some(RenderPadded(e)) && ValidKey(e) && FourDigitYear(e) && maxLookback.Some?
    requires ValidKey(k) ==> cur == RenderPadded(KeyArith.Shift(k, 1))
    ensures ValidKey(k) ==> cut == LooseAfter(KeyArith.Shift(e, -maxLookback.value), KeyArith.Shift(k, 1))
  {
    ParsePadded(e, endKey);
    KeyArith.SubtractParsed(endKey, maxLookback, e);
    var minLastKey := KeyArith.SubtractScopeKey(endKey, maxLookback).value;
    cut := KeyArith.CompareKey(minLastKey, Some(cur)) == 1;
    if ValidKey(k) {
      LooseAfterOf(KeyArith.Shift(e, -maxLookback.value), KeyArith.Shift(k, 1), minLastKey, cur);
    }
  }

  lemma LooseAfterOf(a: Key, b: Key, lo: Option<string>, cur: string)
    requires lo == Some(Render(a)) && cur == RenderPadded(b)
    ensures LooseAfter(a, b) == (KeyArith.CompareKey(lo, Some(cur)) == 1)
  {
  }

  /** One more round of the fill loop: the padded key is not after the end key, so the
      period starts by the end date. */
  lemma PaddedLessEqStep(p: Key, e: Key, d: Date)
    requires ValidKey(p) && Valid(d) && e == KeyOf(d, ScopeOf(p)) && FourDigitYear(p) && FourDigitYear(e)
    requires Lex.LessEq(RenderPadded(p), RenderPadded(e))
    ensures NotAfter(StartDate(p), d) && p.year <= d.year
  {
    KeyRange.PaddedLessEq(p, e);
    StartsByDate(p, d);
    YearOfEarlier(p, e);
  }

  /** "Invalid date", what moment prints for a day that does not exist, sorts after every
      key with a four-digit year, so the fill loop never runs on it. */
  lemma InvalidDateSortsLast(e: Key)
    requires FourDigitYear(e)
    ensures !Lex.LessEq("Invalid date", RenderPadded(e))
  {
    ScopeKeyLemmas.YearTextFacts(e.year);
    assert RenderPadded(e)[0] == YearText(e.year)[0];
    assert Digits.IsDigit(YearText(e.year)[0]);
  }

  /** The padded keys of the periods from `next` up to the one containing `endDate`, each
      carrying `v`. */
  function FillFrom<V>(next: Key, endDate: Date, v: V): map<string, V>
    requires ValidKey(next)
  {
    map x | x in KeyRange.WindowFrom(next, endDate) :: v
  }

  /** What forwardFillObject makes of a non-empty object whose greatest key is `last`: a
      TypeError when `last` is not a key; the object unchanged when `last` names no calendar
      day, or when the lookback cut-off lies after the period following `last`; otherwise the
      object with the value of `last` written under the padded key of every later period up
      to `endDate`'s, overwriting entries already there. */
  function FilledObject<V>(obj: map<string, V>, last: string, endDate: Date, maxLookback: Option<int>): Result<map<string, V>>
    requires last in obj && Valid(endDate)
  {
    match ParseKey(last)
    case None => Err("TypeError: [Util] Illegal formula scope(null)")
    case Some(k) =>
      if !ValidKey(k) then Ok(obj)
      else
        if LooseCut(k, KeyOf(endDate, ScopeOf(k)), maxLookback) then Ok(obj)
        else Ok(obj + FillFrom(KeyArith.Shift(k, 1), endDate, obj[last]))
  }

  /** The lookback test as written, for a greatest key `k` and the period `e` of the end
      date: the key `maxLookback` periods before `e`, rendered in the loose format, compares
      after the padded key of the period following `k`. */
  predicate LooseCut(k: Key, e: Key, maxLookback: Option<int>)
    requires ValidKey(k) && ValidKey(e)
  {
    maxLookback.Some? && LooseAfter(KeyArith.Shift(e, -maxLookback.value), KeyArith.Shift(k, 1))
  }

  /** `compareKey(lo, next) === 1` with `lo` loose and `next` padded. */
  predicate LooseAfter(lo: Key, next: Key) {
    KeyArith.CompareKey(Some(Render(lo)), Some(RenderPadded(next))) == 1
  }

  /** The lookback test with the earliest allowed key rendered in the padded format. */
  predicate PaddedCut(k: Key, e: Key, maxLookback: Option<int>)
    requires ValidKey(k) && ValidKey(e)
  {
    maxLookback.Some? && PaddedAfter(KeyArith.Shift(e, -maxLookback.value), KeyArith.Shift(k, 1))
  }

  /** `compareKey(lo, next) === 1` with both keys padded. */
  predicate PaddedAfter(lo: Key, next: Key) {
    KeyArith.CompareKey(Some(RenderPadded(lo)), Some(RenderPadded(next))) == 1
  }

  /** Writing one more key over an object overlaid with fill entries. */
  lemma OverlayStep<V>(m: map<string, V>, added: seq<string>, x: string, v: V)
    ensures (m + map y | y in added :: v)[x := v] == m + map y | y in added + [x] :: v
  {
  }

  /** One turn of the fill loop: the padded key of `p` is at most the end key, so `p` starts by
      `endDate`; the next key is the padded key of the next period, still four-digit, and the
      window from `start` is the keys added so far, this one, then the window from the next. */
  lemma FillAdvance(p: Key, e: Key, endDate: Date, start: Key, added: seq<string>)
    requires Valid(endDate) && e == KeyOf(endDate, ScopeOf(e)) && FourDigitYear(e) && e.year <= 9998
    requires ValidKey(p) && ScopeOf(p) == ScopeOf(e) && FourDigitYear(p) && ValidKey(start)
    requires added + KeyRange.WindowFrom(p, endDate) == KeyRange.WindowFrom(start, endDate)
    requires Lex.LessEq(RenderPadded(p), RenderPadded(e))
    ensures ValidKey(KeyArith.Shift(p, 1)) && ScopeOf(KeyArith.Shift(p, 1)) == ScopeOf(e)
    ensures FourDigitYear(KeyArith.Shift(p, 1))
    ensures KeyArith.AddNormalizedScopeKey(Some(RenderPadded(p)), 1)
         == Ok(Some(RenderPadded(KeyArith.Shift(p, 1))))
    ensures (added + [RenderPadded(p)]) + KeyRange.WindowFrom(KeyArith.Shift(p, 1), endDate)
         == KeyRange.WindowFrom(start, endDate)
    ensures 0 <= Ord(endDate) - Ord(StartDate(p))
    ensures Ord(endDate) - Ord(StartDate(KeyArith.Shift(p, 1))) < Ord(endDate) - Ord(StartDate(p))
  {
    PaddedLessEqStep(p, e, endDate);
    KeyRange.WindowFromStep(p, endDate);
    NextPeriodYear(p);
    KeyArith.ShiftInverse(p, 1);
    KeyArith.AddToRendered(p, 1);
    assert (added + [RenderPadded(p)]) + KeyRange.WindowFrom(KeyArith.Shift(p, 1), endDate)
        == added + KeyRange.WindowFrom(p, endDate);
  }

  /** The fill loop stops at the first period whose padded key sorts after the end key: that
      period starts after `endDate`, so the window from it is empty. */
  lemma FillExit(p: Key, e: Key, endDate: Date, start: Key, added: seq<string>)
    requires Valid(endDate) && e == KeyOf(endDate, ScopeOf(e)) && FourDigitYear(e)
    requires ValidKey(p) && ScopeOf(p) == ScopeOf(e) && FourDigitYear(p) && ValidKey(start)
    requires added + KeyRange.WindowFrom(p, endDate) == KeyRange.WindowFrom(start, endDate)
    requires !Lex.LessEq(RenderPadded(p), RenderPadded(e))
    ensures added == KeyRange.WindowFrom(start, endDate)
  {
    KeyRange.PaddedLessEq(p, e);
    StartsByDate(p, endDate);
    KeyRange.WindowFromStep(p, endDate);
    assert added + [] == added;
  }

  /** The `while (lastKey <= endKey)` loop of forwardFillObject, from the key `cur` after the
      greatest one: `cur` is the padded key of period `p`, or "Invalid date" when there is no
      such period. */
  method FillLoop<V>(filled0: map<string, V>, cur0: string, endKey: string, v: V,
                     ghost p0: Option<Key>, ghost e: Key, ghost endDate: Date)
    returns (filled: map<string, V>)
    requires Valid(endDate) && e == KeyOf(endDate, ScopeOf(e)) && FourDigitYear(e) && e.year <= 9998
    requires endKey == RenderPadded(e)
    requires p0.None? ==> cur0 == "Invalid date"
    requires p0.Some? ==> && ValidKey(p0.value) && FourDigitYear(p0.value) && ScopeOf(p0.value) == ScopeOf(e)
                          && cur0 == RenderPadded(p0.value)
    ensures p0.None? ==> filled == filled0
    ensures p0.Some? ==> filled == filled0 + FillFrom(p0.value, endDate, v)
  {
    filled := filled0;
    var cur := cur0;
    ghost var p := if p0.Some? then p0.value else e;
    ghost var added: seq<string> := [];
    if p0.None? {
      InvalidDateSortsLast(e);
    }
    while Lex.LessEq(cur, endKey)
      invariant p0.None? ==> cur == "Invalid date" && filled == filled0
      invariant p0.Some? ==> && ValidKey(p) && ScopeOf(p) == ScopeOf(e) && FourDigitYear(p)
                             && cur == RenderPadded(p)
                             && added + KeyRange.WindowFrom(p, endDate) == KeyRange.WindowFrom(p0.value, endDate)
                             && filled == filled0 + map x | x in added :: v
      decreases if p0.Some? then Ord(endDate) - Ord(StartDate(p)) else 0
    {
      FillAdvance(p, e, endDate, p0.value, added);
      OverlayStep(filled0, added, cur, v);
      added := added + [cur];
      p := KeyArith.Shift(p, 1);
      filled := filled[cur := v];
      cur := KeyArith.AddNormalizedScopeKey(Some(cur), 1).value.value;
    }
    if p0.Some? {
      FillExit(p, e, endDate, p0.value, added);
    }
  }

  /** The cases of `FilledObject` for a recognised greatest key `k`, with `cut` the outcome
      of the lookback test. */
  lemma FilledObjectCases<V>(obj: map<string, V>, last: string, endDate: Date, maxLookback: Option<int>,
                             k: Key, e: Key, cut: bool)
    requires last in obj && Valid(endDate) && ParseKey(last) == Some(k) && e == KeyOf(endDate, ScopeOf(k))
    requires maxLookback.None? ==> !cut
    requires ValidKey(k) && maxLookback.Some? ==>
      cut == LooseAfter(KeyArith.Shift(e, -maxLookback.value), KeyArith.Shift(k, 1))
    ensures FilledObject(obj, last, endDate, maxLookback) ==
      if ValidKey(k) && !cut then Ok(obj + FillFrom(KeyArith.Shift(k, 1), endDate, obj[last])) else Ok(obj)
  {
    if ValidKey(k) && maxLookback.Some? {
      LooseCutOfSome(k, e, maxLookback, cut);
    }
  }

  lemma LooseCutOfSome(k: Key, e: Key, maxLookback: Option<int>, cut: bool)
    requires ValidKey(k) && ValidKey(e) && maxLookback.Some?
    requires cut == LooseAfter(KeyArith.Shift(e, -maxLookback.value), KeyArith.Shift(k, 1))
    ensures LooseCut(k, e, maxLookback) == cut
  {
  }

  /** util.forwardFillObject on a copy of `obj`, with `endDate` given. */
  method ForwardFillObject<V>(obj: map<string, V>, endDate: Date, maxLookback: Option<int>)
    returns (r: Result<map<string, V>>)
    requires Valid(endDate) && 0 <= endDate.year <= 9998
    requires forall key :: key in obj && ParseKey(key).Some? ==> ParseKey(key).value.year < 9999
    ensures obj == map[] ==> r == Ok(obj)
    ensures forall last :: last in obj && (forall key :: key in obj ==> Lex.LessEq(key, last)) ==>
      r == FilledObject(obj, last, endDate, maxLookback)
  {
    if obj == map[] {
      return Ok(obj);
    }
    var lastKey := LastKey(obj.Keys);
    forall last | last in obj && (forall key :: key in obj ==> Lex.LessEq(key, last))
      ensures last == lastKey
    {
      Lex.Asymmetric(last, lastKey);
    }
    r := FillAfterLastKey(obj, lastKey, endDate, maxLookback);
  }

  /** The lookback test of forwardFillObject: whether the key after the greatest one lies
      before the earliest key `maxLookback` periods back from `endKey`. */
  method LookbackTest(endKey: Option<string>, maxLookback: Option<int>, cur: string, ghost e: Key, ghost k: Key)
    returns (cut: bool)
    requires endKey == Some(RenderPadded(e)) && ValidKey(e) && FourDigitYear(e)
    requires ValidKey(k) ==> cur == RenderPadded(KeyArith.Shift(k, 1))
    ensures maxLookback.None? ==> !cut
    ensures ValidKey(k) && maxLookback.Some? ==>
      cut == LooseAfter(KeyArith.Shift(e, -maxLookback.value), KeyArith.Shift(k, 1))
  {
    cut := false;
    if maxLookback.Some? {
      cut := LookbackCut(endKey, maxLookback, cur, e, k);
    }
  }

  /** forwardFillObject once the greatest key `lastKey` is known and parsed as `k`. */
  method FillAfterParsedKey<V>(obj: map<string, V>, lastKey: string, k: Key, endDate: Date,
                               maxLookback: Option<int>, endKey: Option<string>, cur: string, ghost e: Key)
    returns (r: Result<map<string, V>>)
    requires lastKey in obj && ParseKey(lastKey) == Some(k) && k.year < 9999
    requires Valid(endDate) && 0 <= endDate.year <= 9998
    requires e == KeyOf(endDate, ScopeOf(k)) && ValidKey(e) && FourDigitYear(e) && e.year <= 9998
    requires endKey == Some(RenderPadded(e))
    requires ValidKey(k) ==> cur == RenderPadded(KeyArith.Shift(k, 1))
    requires !ValidKey(k) ==> cur == "Invalid date"
    ensures r == FilledObject(obj, lastKey, endDate, maxLookback)
  {
    var cut := LookbackTest(endKey, maxLookback, cur, e, k);
    FilledObjectCases(obj, lastKey, endDate, maxLookback, k, e, cut);
    if cut {
      return Ok(obj);
    }
    if ValidKey(k) {
      NextPeriodYear(k);
    } else {
      InvalidDateSortsLast(e);
    }
    var filled := FillLoop(obj, cur, endKey.value, obj[lastKey],
                           if ValidKey(k) then Some(KeyArith.Shift(k, 1)) else None, e, endDate);
    return Ok(filled);
  }

  /** forwardFillObject once the greatest key `lastKey` is known. */
  method FillAfterLastKey<V>(obj: map<string, V>, lastKey: string, endDate: Date, maxLookback: Option<int>)
    returns (r: Result<map<string, V>>)
    requires lastKey in obj
    requires Valid(endDate) && 0 <= endDate.year <= 9998
    requires ParseKey(lastKey).Some? ==> ParseKey(lastKey).value.year < 9999
    ensures r == FilledObject(obj, lastKey, endDate, maxLookback)
  {
    var scope := ScopeKeyType(Some(lastKey));
    if scope.None? {
      return Err("TypeError: [Util] Illegal formula scope(null)");
    }
    var k := ParseKey(lastKey).value;
    ghost var e := KeyOf(endDate, scope.value);
    var endKey := DateToNormalizeScopeKey(endDate, scope.value);
    var next := KeyArith.AddNormalizedScopeKey(Some(lastKey), 1).value;
    r := FillAfterParsedKey(obj, lastKey, k, endDate, maxLookback, endKey, next.value, e);
  }

  /** For annual and quarterly keys, whose loose and padded texts agree, the lookback test
      counts periods: with `lo` the earliest allowed period (`maxLookback` periods before the
      period of `endDate`), the fill is skipped exactly when the period after the greatest
      key `k` comes before `lo`. */
  lemma LookbackCountsPeriods(k: Key, lo: Key)
    requires ValidKey(k) && ValidKey(lo) && ScopeOf(lo) == ScopeOf(k) && (k.Annual? || k.Quarter?)
    requires FourDigitYear(k) && k.year < 9999 && FourDigitYear(lo)
    ensures LooseAfter(lo, KeyArith.Shift(k, 1)) <==> KeyArith.Index(k) + 1 < KeyArith.Index(lo)
  {
    var b := KeyArith.Shift(k, 1);
    NextPeriodYear(k);
    assert Render(lo) == RenderPadded(lo);
    KeyArith.CompareKeyIsChronological(lo, b);
    KeyArith.ShiftIndex(k, 1);
    KeyArith.IndexIsChronological(lo, b);
  }

  /** forwardFillObject with the earliest allowed key rendered in the padded format, as
      `endKey` and the keys it is compared with are: the lookback then compares periods for
      every scope. */
  function FilledObjectPadded<V>(obj: map<string, V>, last: string, endDate: Date, maxLookback: Option<int>)
    : (r: Result<map<string, V>>)
    requires last in obj && Valid(endDate)
    ensures r.Ok? ==> obj.Keys <= r.value.Keys
  {
    match ParseKey(last)
    case None => Err("TypeError: [Util] Illegal formula scope(null)")
    case Some(k) =>
      if !ValidKey(k) then Ok(obj)
      else if PaddedCut(k, KeyOf(endDate, ScopeOf(k)), maxLookback) then Ok(obj)
      else Ok(obj + FillFrom(KeyArith.Shift(k, 1), endDate, obj[last]))
  }

  /** With the padded earliest key `lo` the fill is skipped exactly when the period after the
      greatest key starts before `lo`, in every scope. */
  lemma PaddedLookbackIsChronological(k: Key, lo: Key)
    requires ValidKey(k) && ValidKey(lo) && ScopeOf(lo) == ScopeOf(k)
    requires FourDigitYear(k) && k.year < 9999 && FourDigitYear(lo)
    ensures PaddedAfter(lo, KeyArith.Shift(k, 1)) <==> Before(StartDate(KeyArith.Shift(k, 1)), StartDate(lo))
  {
    NextPeriodYear(k);
    KeyArith.CompareKeyIsChronological(lo, KeyArith.Shift(k, 1));
  }

  /** As written, the earliest allowed key is rendered loose (`YYYY-M`) and compared with the
      padded key after the greatest one: with `endDate` in November and a lookback of two
      months, the earliest allowed month is September; a greatest key in September skips the
      fill although October lies within the lookback, which the padded comparison fills. */
  lemma MonthlyLookbackSkipsTooEarly(y: int)
    requires 0 <= y < 9999
    ensures KeyArith.Shift(Month(y, 11), -2) == Month(y, 9) && KeyArith.Shift(Month(y, 9), 1) == Month(y, 10)
    ensures !Before(StartDate(Month(y, 10)), StartDate(Month(y, 9)))
    ensures LooseAfter(Month(y, 9), Month(y, 10))
    ensures !PaddedAfter(Month(y, 9), Month(y, 10))
  {
    MonthShifts(y);
    LooseSeptemberAfterOctober(y);
    PaddedLookbackIsChronological(Month(y, 9), Month(y, 9));
  }

  lemma MonthShifts(y: int)
    ensures KeyArith.Shift(Month(y, 11), -2) == Month(y, 9) && KeyArith.Shift(Month(y, 9), 1) == Month(y, 10)
  {
    KeyArith.DivModUnique(12 * y + 8, 12, y, 8);
    KeyArith.DivModUnique(12 * y + 9, 12, y, 9);
  }

  /** "YYYY-9" compares after "YYYY-10". */
  lemma LooseSeptemberAfterOctober(y: int)
    requires 0 <= y < 9999
    ensures LooseAfter(Month(y, 9), Month(y, 10))
  {
    var Y := YearText(y);
    ScopeKeyLemmas.YearTextFacts(y);
    ScopeKeyLemmas.SmallDigitsOne(9);
    ScopeKeyLemmas.SmallDigitsTwo(10);
    ScopeKeyLemmas.ShortFields(9);
    ScopeKeyLemmas.ShortFields(10);
    assert Render(Month(y, 9)) == Y + "-" + "9";
    assert RenderPadded(Month(y, 10)) == Y + "-" + "10";
    assert Lex.Less("10", "9");
    KeyArith.CompareSameYear(Y, "9", "10");
  }

  /** The same case on whole objects: forwardFillObject as written leaves the object as it
      is, while the padded comparison fills October and November. */
  lemma MonthlyLookbackOutcome<V>(obj: map<string, V>, last: string, endDate: Date, y: int)
    requires last in obj && Valid(endDate) && endDate.year == y && endDate.month == 11 && 0 <= y < 9999
    requires ParseKey(last) == Some(Month(y, 9))
    ensures FilledObject(obj, last, endDate, Some(2)) == Ok(obj)
    ensures FilledObjectPadded(obj, last, endDate, Some(2)) == Ok(obj + FillFrom(Month(y, 10), endDate, obj[last]))
  {
    assert KeyOf(endDate, Monthly) == Month(y, 11);
    MonthlyLookbackSkipsTooEarly(y);
  }
}
