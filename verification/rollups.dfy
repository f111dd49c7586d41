/** The roll-ups of a TFdata series: daysTrailingValues, ttm and toFiscalYear. */
module Rollups {
  import opened Wrappers
  import opened Calendar
  import opened ScopeKeys
  import opened Records
  import KeyValue
  import KeyArith
  import KeyRange
  import Digits
  import ScopeKeyLemmas

  // ---------------------------------------------------------------------------------------
  // daysTrailingValues

  /** The test of `this.data.filter(d => d.seen >= limitDate)`. */
  function SeenSince(limit: Date): Record -> bool {
    (u: Record) => NotAfter(limit, u.seen)
  }

  /** TFdata.daysTrailingValues(days): the records seen no earlier than `days` days before the
      last record's `seen`, in their order; none for a series without records. */
  function DaysTrailingOf(data: seq<Record>, days: int): (r: seq<Record>)
    requires SeenValid(data)
    ensures data == [] ==> r == []
    ensures data != [] ==>
      var limit := AddDays(data[|data| - 1].seen, -days);
      && (forall i :: 0 <= i < |r| ==> r[i] in data && NotAfter(limit, r[i].seen))
      && (forall i :: 0 <= i < |data| && NotAfter(limit, data[i].seen) ==> data[i] in r)
  {
    if data == [] then []
    else
      var limit := AddDays(data[|data| - 1].seen, -days);
      FilterComplete(data, SeenSince(limit));
      Filter(data, SeenSince(limit))
  }

  /** Looking back a non-negative number of days always keeps the last record. */
  lemma DaysTrailingKeepsLast(data: seq<Record>, days: nat)
    requires SeenValid(data) && data != []
    ensures data[|data| - 1] in DaysTrailingOf(data, days)
  {
    var last := data[|data| - 1].seen;
    AddDaysCompose(last, -(days as int), days);
    AddDaysMonotone(AddDays(last, -(days as int)), days);
  }

  // ---------------------------------------------------------------------------------------
  // ttm

  /** `hash[key] || 0`: a missing, null or zero value counts as 0. */
  function ValueOrZero(hash: KeyValue.KeyValues, key: string): real {
    var v := KeyValue.NumberAt(hash, Some(key));
    if v.Some? then v.value else 0.0
  }

  /** `_.sum(targetKeys.map(key => hash[key] || 0))` */
  function SumOver(hash: KeyValue.KeyValues, keys: seq<string>): (r: real)
    decreases |keys|
  {
    if keys == [] then 0.0 else SumOver(hash, keys[..|keys| - 1]) + ValueOrZero(hash, keys[|keys| - 1])
  }

  /** TFdata.ttm over the fiscal dictionary `hash`: null for an empty dictionary; otherwise the
      sum over `keysInRange(subtractScopeKey(maxKey, 3), maxKey)`, where `maxKey` is the largest
      key in string order. */
  function TtmOf(hash: KeyValue.KeyValues, memo: map<Scope, seq<string>>): (r: Result<Option<real>>)
    ensures hash.keys == [] <==> r == Ok(None)
  {
    if hash.keys == [] then Ok(None)
    else
      var maxKey := KeyValue.MaxKey(hash.keys);
      var startKey :- KeyArith.SubtractScopeKey(Some(maxKey), Some(3));
      if startKey.None? then Err("TypeError: Cannot read property 'match' of null")
      else
        var targetKeys :- KeyRange.KeysInRangeIn(memo, startKey.value, maxKey);
        Ok(Some(SumOver(hash, targetKeys)))
  }

  /** On a quarterly dictionary whose largest key is quarter `k`, ttm sums the values of the
      quarters from three before `k` up to `k`, as far as the key window reaches back. */
  lemma TtmSumsLastFourQuarters(hash: KeyValue.KeyValues, memo: map<Scope, seq<string>>, k: Key, now: Date)
    requires hash.keys != [] && KeyValue.MaxKey(hash.keys) == RenderPadded(k)
    requires k.Quarter? && ValidKey(k) && FourDigitYear(k) && FourDigitYear(KeyArith.Shift(k, -3))
    requires Valid(now) && now.year <= 9999 && Quarterly in memo && memo[Quarterly] == KeyRange.WindowKeys(Quarterly, now)
    ensures var start := KeyArith.Shift(k, -3);
      var range := KeyRange.KeysInRangeIn(memo, RenderPadded(start), RenderPadded(k));
      && range.Ok?
      && TtmOf(hash, memo) == Ok(Some(SumOver(hash, range.value)))
      && forall p :: ValidKey(p) && FourDigitYear(p) && p.Quarter? ==>
           (RenderPadded(p) in range.value <==>
              && NotAfter(StartDate(start), StartDate(p)) && NotAfter(StartDate(p), StartDate(k))
              && NotAfter(KeyRange.StartOfMemo, StartDate(p)) && NotAfter(StartDate(p), now))
  {
    var start := ThreeQuartersBack(k);
    TtmRange(memo, start, k, now);
    assert KeyArith.SubtractScopeKey(Some(RenderPadded(k)), Some(3)) == Ok(Some(RenderPadded(start)));
  }

  /** Three quarters back from a quarter key, as subtractScopeKey computes it. */
  lemma ThreeQuartersBack(k: Key) returns (start: Key)
    requires k.Quarter? && ValidKey(k) && FourDigitYear(k) && FourDigitYear(KeyArith.Shift(k, -3))
    ensures start == KeyArith.Shift(k, -3) && start.Quarter? && ValidKey(start) && FourDigitYear(start)
    ensures KeyArith.SubtractScopeKey(Some(RenderPadded(k)), Some(3)) == Ok(Some(RenderPadded(start)))
    ensures Before(StartDate(start), StartDate(k))
  {
    start := KeyArith.Shift(k, -3);
    KeyArith.AddToRendered(k, -3);
    KeyArith.ShiftIndex(k, -3);
    KeyArith.IndexIsChronological(start, k);
  }

  /** The window's quarter keys from `a` to `b`. */
  lemma TtmRange(memo: map<Scope, seq<string>>, a: Key, b: Key, now: Date)
    requires a.Quarter? && b.Quarter? && ValidKey(a) && ValidKey(b) && FourDigitYear(a) && FourDigitYear(b)
    requires Before(StartDate(a), StartDate(b))
    requires Valid(now) && now.year <= 9999 && Quarterly in memo && memo[Quarterly] == KeyRange.WindowKeys(Quarterly, now)
    ensures var range := KeyRange.KeysInRangeIn(memo, RenderPadded(a), RenderPadded(b));
      && range == KeyRange.KeysInRangeOver(RenderPadded(a), RenderPadded(b), KeyRange.WindowKeys(Quarterly, now))
      && range.Ok?
      && forall p :: ValidKey(p) && FourDigitYear(p) && p.Quarter? ==>
           (RenderPadded(p) in range.value <==>
              && NotAfter(StartDate(a), StartDate(p)) && NotAfter(StartDate(p), StartDate(b))
              && NotAfter(KeyRange.StartOfMemo, StartDate(p)) && NotAfter(StartDate(p), now))
  {
    KeyRange.NormalizeRendered(a);
    ScopeKeyLemmas.ParseRender(a);
    KeyRange.RangeIsPeriods(a, b, now);
  }

  // ---------------------------------------------------------------------------------------
  // toFiscalYear

  /** The index of the first 'Q' at or after `from`; the length when there is none. */
  function QIndex(s: string, from: nat): (i: nat)
    requires from <= |s|
    ensures from <= i <= |s| && (i < |s| ==> s[i] == 'Q')
    ensures forall j :: from <= j < i ==> s[j] != 'Q'
    decreases |s| - from
  {
    if from == |s| || s[from] == 'Q' then from else QIndex(s, from + 1)
  }

  /** `s.split('Q')[0]` */
  function BeforeQ(s: string): string {
    s[..QIndex(s, 0)]
  }

  /** `s.split('Q')[1]`: the text between the first 'Q' and the next; `undefined` without a
      'Q'. */
  function AfterQ(s: string): Option<string> {
    var i := QIndex(s, 0);
    if i == |s| then None else Some(s[i + 1..QIndex(s, i + 1)])
  }

  /** The test of `datum.fk && datum.fk.split('Q')[1] === '4'`. */
  predicate FourthQuarter(fk: Option<string>) {
    fk.Some? && fk.value != [] && AfterQ(fk.value) == Some("4")
  }

  function IsFourthQuarter(): Record -> bool {
    (u: Record) => FourthQuarter(u.fk)
  }

  /** The `map` of toFiscalYear: the fiscal key cut at its 'Q', `v`, `seen` and `ed` kept, no
      calendar key. */
  function ToYear(u: Record): Record {
    Record(u.v, u.seen, if u.fk.Some? then Some(BeforeQ(u.fk.value)) else None, u.ed, None)
  }

  /** `.map(...)` over the kept records. */
  function ToYears(kept: seq<Record>): (r: seq<Record>)
    ensures |r| == |kept| && forall i :: 0 <= i < |kept| ==> r[i] == ToYear(kept[i])
  {
    seq(|kept|, i requires 0 <= i < |kept| => ToYear(kept[i]))
  }

  /** TFdata.toFiscalYear's records: only a quarterly series can be converted. */
  function FiscalYearOf(scopeType: Scope, data: seq<Record>): (r: Result<seq<Record>>)
    requires SeenValid(data)
    ensures scopeType != Quarterly <==> r.Err?
    ensures r.Ok? ==> SeenValid(r.value)
  {
    if scopeType != Quarterly then Err("TypeError: toAnnually() only support quarterly data")
    else Ok(ToYears(Filter(data, IsFourthQuarter())))
  }

  /** The converted records are, in order, one per record whose fiscal key is of a fourth
      quarter, re-keyed by its fiscal year: each comes from such a record, and each such record
      gives one. */
  lemma FiscalYearRecords(data: seq<Record>)
    requires SeenValid(data)
    ensures var r := FiscalYearOf(Quarterly, data).value;
      && (forall i :: 0 <= i < |r| ==>
            exists j :: 0 <= j < |data| && FourthQuarter(data[j].fk) && r[i] == ToYear(data[j]))
      && (forall j :: 0 <= j < |data| && FourthQuarter(data[j].fk) ==> ToYear(data[j]) in r)
  {
    var kept := Filter(data, IsFourthQuarter());
    var r := ToYears(kept);
    assert FiscalYearOf(Quarterly, data).value == r;
    FilterComplete(data, IsFourthQuarter());
    forall i | 0 <= i < |r|
      ensures exists j :: 0 <= j < |data| && FourthQuarter(data[j].fk) && r[i] == ToYear(data[j])
    {
      var j :| 0 <= j < |data| && data[j] == kept[i];
      assert IsFourthQuarter()(kept[i]);
    }
    forall j | 0 <= j < |data| && FourthQuarter(data[j].fk)
      ensures ToYear(data[j]) in r
    {
      assert IsFourthQuarter()(data[j]);
      var i :| 0 <= i < |kept| && kept[i] == data[j];
      assert r[i] == ToYear(data[j]);
    }
  }

  /** On a quarter key: it is kept exactly when it is a fourth quarter, and it becomes the key
      of its fiscal year. */
  lemma QuarterKeyToYear(k: Key)
    requires k.Quarter? && ValidKey(k) && FourDigitYear(k)
    ensures FourthQuarter(Some(Render(k))) <==> k.q == 4
    ensures BeforeQ(Render(k)) == Render(Annual(k.year))
  {
    var y := YearText(k.year);
    var d := Digits.Digits(k.q);
    assert Render(k) == y + "Q" + d;
    assert Digits.Pow10(4) == 10000;
    Digits.PadLength(k.year, 4);
    assert |y| == 4;
    assert d == [Digits.DigitChar(k.q)];
    assert Digits.AllDigits(y);
    assert QIndex(Render(k), 0) == 4 by {
      assert forall j :: 0 <= j < 4 ==> Render(k)[j] == y[j];
      assert Render(k)[4] == 'Q';
      QIndexAt(Render(k), 0, 4);
    }
    assert QIndex(Render(k), 5) == 6;
    assert Render(k)[..4] == y;
    assert Render(k)[5..6] == d;
  }

  /** Where the first 'Q' is, when the characters before it are known. */
  lemma {:induction false} QIndexAt(s: string, from: nat, i: nat)
    requires from <= i < |s| && s[i] == 'Q' && forall j :: from <= j < i ==> s[j] != 'Q'
    ensures QIndex(s, from) == i
    decreases i - from
  {
    if from < i {
      QIndexAt(s, from + 1, i);
    }
  }
}
