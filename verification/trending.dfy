/** The trending periods of TFdata: yearlyTrendingPeriods, yoyTrendingPeriods and
    qoqTrendingPeriods. Each reads the series as a fiscal dictionary, and for every record with
    a fiscal key counts the trend of the dictionary's values from the series' first fiscal key
    up to the record's, under the calendar quarter the record was seen in. */
module Trending {
  import opened Wrappers
  import opened Calendar
  import opened ScopeKeys
  import opened Records
  import JsObject
  import KeyValue
  import KeyArith
  import KeyRange
  import ScopeKeyLemmas
  import Trend

  /** Which of the three counters runs. */
  datatype Periods = Yearly | Yoy | Qoq

  /** The result object: one entry per calendar quarter, null for a record without a fiscal
      key. */
  type Counts = JsObject.Obj<Option<int>>

  /** The fiscal dictionary read: by fiscal year for the yearly counter, by fiscal quarter for
      the others. */
  function ValueScope(p: Periods): Scope {
    if p == Yearly then Annually else Quarterly
  }

  /** `currentFiscal[currentFiscal.length - 1]` as a template prints it: the last character,
      `undefined` past the end of an empty key. */
  function LastChar(fk: string): string {
    if fk == [] then "undefined" else [fk[|fk| - 1]]
  }

  /** `q.match(new RegExp(pattern))` for a pattern of plain characters: `pattern` occurs in
      `q`. */
  predicate Occurs(pattern: string, q: string) {
    exists i :: 0 <= i <= |q| - |pattern| && OccursAt(pattern, q, i)
  }

  predicate OccursAt(pattern: string, q: string, i: int) {
    0 <= i <= |q| - |pattern| && q[i..i + |pattern|] == pattern
  }

  /** The test of yoyTrendingPeriods' filter: keys of quarter `c`. */
  function InQuarter(c: string): string -> bool {
    q => Occurs("Q" + c, q)
  }

  /** The fiscal keys one record's count runs over: `keysInRange(firstFiscal, fk)`, for yoy
      only the keys of the quarter `fk` ends with. */
  function RangeOf(p: Periods, firstFiscal: string, fk: string, memo: map<Scope, seq<string>>)
    : (r: Result<seq<string>>)
    ensures KeyRange.KeysInRangeIn(memo, firstFiscal, fk).Err? <==> r.Err?
    ensures r.Ok? ==> forall i :: 0 <= i < |r.value| ==> r.value[i] in KeyRange.KeysInRangeIn(memo, firstFiscal, fk).value
    ensures r.Ok? && p == Yoy ==> forall i :: 0 <= i < |r.value| ==> Occurs("Q" + LastChar(fk), r.value[i])
    ensures r.Ok? && p != Yoy ==> r.value == KeyRange.KeysInRangeIn(memo, firstFiscal, fk).value
  {
    var range :- KeyRange.KeysInRangeIn(memo, firstFiscal, fk);
    if p == Yoy then Ok(Filter(range, InQuarter(LastChar(fk)))) else Ok(range)
  }

  /** `keys.map(q => values[q])`, a missing key read as null. */
  function ValuesAt(kv: KeyValue.KeyValues, keys: seq<string>): (r: seq<Option<real>>)
    ensures |r| == |keys| && forall i :: 0 <= i < |keys| ==> r[i] == KeyValue.NumberAt(kv, Some(keys[i]))
  {
    seq(|keys|, i requires 0 <= i < |keys| => KeyValue.NumberAt(kv, Some(keys[i])))
  }

  /** One record's entry: null without a fiscal key, otherwise trendCount over the values of
      its range. */
  function CountOf(p: Periods, kv: KeyValue.KeyValues, firstFiscal: string, fk: Option<string>,
                   memo: map<Scope, seq<string>>): (r: Result<Option<int>>)
    ensures fk.None? ==> r == Ok(None)
    ensures fk.Some? ==> (r.Err? <==> RangeOf(p, firstFiscal, fk.value, memo).Err?)
    ensures fk.Some? && r.Ok? ==> r.value.Some?
  {
    if fk.None? then Ok(None)
    else
      var keys :- RangeOf(p, firstFiscal, fk.value, memo);
      Ok(Some(Trend.TrendCountOf(ValuesAt(kv, keys))))
  }

  /** `util.dateToScopeKey(value.seen, 'quarterly')`: the calendar quarter of a day. */
  function QuarterKey(seen: Date): string
    requires Valid(seen)
  {
    Render(KeyOf(seen, Quarterly))
  }

  /** The entry of a record with fiscal key `fk`, as a function. */
  function CountFn(p: Periods, kv: KeyValue.KeyValues, firstFiscal: string, memo: map<Scope, seq<string>>)
    : Option<string> -> Result<Option<int>>
  {
    fk => CountOf(p, kv, firstFiscal, fk, memo)
  }

  /** What the `forEach` reads of each record: its calendar quarter and its fiscal key. */
  function Items(data: seq<Record>): (r: seq<(string, Option<string>)>)
    requires SeenValid(data)
    ensures |r| == |data| && forall i :: 0 <= i < |data| ==> r[i] == (QuarterKey(data[i].seen), data[i].fk)
  {
    seq(|data|, i requires 0 <= i < |data| && SeenValid(data) => (QuarterKey(data[i].seen), data[i].fk))
  }

  /** The `forEach` over the records as a fold: `result[quarter] = entry` for each record in
      turn, stopping at the first error. */
  function CountsOf(items: seq<(string, Option<string>)>, entry: Option<string> -> Result<Option<int>>)
    : (r: Result<Counts>)
    decreases |items|
  {
    if items == [] then Ok(JsObject.Empty())
    else
      var acc := CountsOf(items[..|items| - 1], entry);
      var last := items[|items| - 1];
      var e := entry(last.1);
      if acc.Err? then Err(acc.msg)
      else if e.Err? then Err(e.msg)
      else Ok(JsObject.Put(acc.value, last.0, e.value))
  }

  /** The yearly counter's error for a series that is not annual. */
  function NotAnnual(scopeType: Scope): string {
    NotAnnualPrefix + ScopeName(scopeType) + "      "
  }

  const NotAnnualPrefix := "Error:         [TFdata] Warning: yearlyTrendingPeriods only works with annually, recieved "

  /** The counters' error for a timeless series with a value. */
  const TimelessError := "Error: Cannot find yoyTrendingPeriod for timeless dataType"

  /** The test of `this.data.filter(datum => datum.fk != null)`. */
  function HasFk(): Record -> bool {
    (u: Record) => u.fk.Some?
  }

  /** The three counters: null for a timeless series whose value is null; an error for any
      other timeless series and, for the yearly counter, for a series that is not annual;
      otherwise the counts of the series. */
  function TrendingOf(p: Periods, scopeType: Scope, value: Option<real>, data: seq<Record>,
                      memo: map<Scope, seq<string>>): (r: Result<Option<Counts>>)
    requires SeenValid(data)
    ensures scopeType == Timeless ==> (r == Ok(None) <==> value.None?) && (value.Some? ==> r.Err?)
    ensures scopeType != Timeless && p == Yearly && scopeType != Annually ==> r == Err(NotAnnual(scopeType))
    ensures scopeType != Timeless && (p != Yearly || scopeType == Annually) ==> r == CountsOfSeries(p, data, memo)
  {
    if scopeType == Timeless then
      if value.None? then Ok(None) else Err(TimelessError)
    else if p == Yearly && scopeType != Annually then Err(NotAnnual(scopeType))
    else CountsOfSeries(p, data, memo)
  }

  /** The counts of a dated series: null without a fiscal key, otherwise the counts of the
      records, spread over the next three quarters for the yearly counter. */
  function CountsOfSeries(p: Periods, data: seq<Record>, memo: map<Scope, seq<string>>): (r: Result<Option<Counts>>)
    requires SeenValid(data)
    ensures
      && KeyValue.KeyValueOf(data, ValueScope(p), KeyValue.FiscalMode, KeyValue.Defaults, memo).Ok?
      && FirstIndex(data, HasFk(), 0).None?
      ==> r == Ok(None)
    ensures r.Ok? && r.value.Some? ==>
      && FirstIndex(data, HasFk(), 0).Some?
      && KeyValue.KeyValueOf(data, ValueScope(p), KeyValue.FiscalMode, KeyValue.Defaults, memo).Ok?
  {
    var kv :- KeyValue.KeyValueOf(data, ValueScope(p), KeyValue.FiscalMode, KeyValue.Defaults, memo);
    var first := FirstIndex(data, HasFk(), 0);
    if first.None? then Ok(None)
    else
      var counts :- CountsOf(Items(data), CountFn(p, kv, data[first.value].fk.value, memo));
      if p == Yearly then
        var spread :- SpreadOf(counts.keys, SpreadFn(counts, Later()));
        Ok(Some(spread))
      else Ok(Some(counts))
  }

  // ---------------------------------------------------------------------------------------
  // The yearly forward fill

  /** `util.addScopeKey(key, n)`: the key `n` periods after `key`. */
  function Later(): (string, int) -> Result<Option<string>> {
    (key, n) => KeyArith.AddScopeKey(Some(key), n)
  }

  /** One key of the `reduce`: the count written under the key and the three keys after it. */
  function SpreadKey(acc: Counts, key: string, value: Option<int>, later: (string, int) -> Result<Option<string>>)
    : (r: Result<Counts>)
  {
    var k1 :- later(key, 1);
    var k2 :- later(key, 2);
    var k3 :- later(key, 3);
    var a := JsObject.Put(acc, key, value);
    var b := JsObject.Put(a, JsObject.KeyName(k1), value);
    var c := JsObject.Put(b, JsObject.KeyName(k2), value);
    Ok(JsObject.Put(c, JsObject.KeyName(k3), value))
  }

  /** The `reduce`'s callback for the counts `counts`: the key's count, null for a key the
      counts lack, spread from the key. */
  function SpreadFn(counts: Counts, later: (string, int) -> Result<Option<string>>): (Counts, string) -> Result<Counts> {
    (acc: Counts, key: string) => SpreadKey(acc, key, if key in counts.at then counts.at[key] else None, later)
  }

  /** The `reduce` over `keys` as a fold of `step`, stopping at the first error. */
  function SpreadOf(keys: seq<string>, step: (Counts, string) -> Result<Counts>): (r: Result<Counts>)
    decreases |keys|
  {
    if keys == [] then Ok(JsObject.Empty())
    else
      var acc := SpreadOf(keys[..|keys| - 1], step);
      if acc.Err? then Err(acc.msg) else step(acc.value, keys[|keys| - 1])
  }

  // ---------------------------------------------------------------------------------------
  // The loops

  /** The `forEach` of the counters, writing into `result` record by record. */
  method Count(p: Periods, kv: KeyValue.KeyValues, firstFiscal: string, data: seq<Record>,
               memo: map<Scope, seq<string>>) returns (r: Result<Counts>)
    requires SeenValid(data)
    ensures r == CountsOf(Items(data), CountFn(p, kv, firstFiscal, memo))
  {
    ghost var items := Items(data);
    var result: Counts := JsObject.Empty();
    var i := 0;
    assert items[..0] == [];
    while i < |data|
      invariant 0 <= i <= |data|
      invariant CountsOf(items[..i], CountFn(p, kv, firstFiscal, memo)) == Ok(result)
    {
      var rec := data[i];
      var key := QuarterKey(rec.seen);
      var e := CountStep(p, kv, firstFiscal, rec.fk, memo);
      CountAdvance(items, CountFn(p, kv, firstFiscal, memo), i, result);
      if e.Err? {
        CountsStop(items, CountFn(p, kv, firstFiscal, memo), i + 1);
        return Err(e.msg);
      }
      result := JsObject.Put(result, key, e.value);
      i := i + 1;
    }
    assert items[..i] == items;
    r := Ok(result);
  }

  /** The body of the `forEach` for one record. */
  method CountStep(p: Periods, kv: KeyValue.KeyValues, firstFiscal: string, fk: Option<string>,
                   memo: map<Scope, seq<string>>) returns (e: Result<Option<int>>)
    ensures e == CountFn(p, kv, firstFiscal, memo)(fk)
  {
    if fk.None? {
      return Ok(None);
    }
    var keys :- RangeOf(p, firstFiscal, fk.value, memo);
    var count := Trend.TrendCount(ValuesAt(kv, keys));
    e := Ok(Some(count));
  }

  /** The `reduce` of the yearly counter over the keys of the counts; `step` is its callback
      (the counters pass `SpreadFn(counts, Later())`). */
  method Spread(counts: Counts, step: (Counts, string) -> Result<Counts>) returns (r: Result<Counts>)
    ensures r == SpreadOf(counts.keys, step)
  {
    var keys := counts.keys;
    var result: Counts := JsObject.Empty();
    var i := 0;
    assert keys[..0] == [];
    while i < |keys|
      invariant 0 <= i <= |keys|
      invariant SpreadOf(keys[..i], step) == Ok(result)
    {
      var next := step(result, keys[i]);
      assert keys[..i + 1][..i] == keys[..i];
      if next.Err? {
        SpreadStop(keys, step, i + 1);
        return Err(next.msg);
      }
      result := next.value;
      i := i + 1;
    }
    assert keys[..i] == keys;
    r := Ok(result);
  }

  /** The three counters as the source computes them. */
  method TrendingPeriods(p: Periods, scopeType: Scope, value: Option<real>, data: seq<Record>,
                         memo: map<Scope, seq<string>>) returns (r: Result<Option<Counts>>)
    requires SeenValid(data)
    ensures r == TrendingOf(p, scopeType, value, data, memo)
  {
    if scopeType == Timeless {
      r := if value.None? then Ok(None) else Err(TimelessError);
    } else if p == Yearly && scopeType != Annually {
      r := Err(NotAnnual(scopeType));
    } else {
      r := CountSeries(p, data, memo);
    }
  }

  /** The counters past their checks: the fiscal dictionary, the `forEach` and, for the yearly
      counter, the `reduce`. */
  method CountSeries(p: Periods, data: seq<Record>, memo: map<Scope, seq<string>>) returns (r: Result<Option<Counts>>)
    requires SeenValid(data)
    ensures r == CountsOfSeries(p, data, memo)
  {
    var kv :- KeyValue.ToKeyValue(data, ValueScope(p), KeyValue.FiscalMode, KeyValue.Defaults, memo);
    var first := FirstIndex(data, HasFk(), 0);
    if first.None? {
      return Ok(None);
    }
    var counts :- Count(p, kv, data[first.value].fk.value, data, memo);
    if p == Yearly {
      var spread :- Spread(counts, SpreadFn(counts, Later()));
      return Ok(Some(spread));
    }
    r := Ok(Some(counts));
  }

  // ---------------------------------------------------------------------------------------
  // Properties

  /** Once the records up to `j` fail, all of them fail with the same error. */
  lemma {:induction false} CountsStop(items: seq<(string, Option<string>)>, entry: Option<string> -> Result<Option<int>>,
                                      j: nat)
    requires 0 < j <= |items| && CountsOf(items[..j], entry).Err?
    ensures CountsOf(items, entry) == CountsOf(items[..j], entry)
    decreases |items|
  {
    if j < |items| {
      var init := items[..|items| - 1];
      assert init[..j] == items[..j];
      CountsStop(init, entry, j);
    } else {
      assert items[..j] == items;
    }
  }

  /** One more record of the `forEach`: its entry written under its quarter, or its error. */
  lemma CountAdvance(items: seq<(string, Option<string>)>, entry: Option<string> -> Result<Option<int>>,
                     i: nat, acc: Counts)
    requires i < |items| && CountsOf(items[..i], entry) == Ok(acc)
    ensures var e := entry(items[i].1);
      CountsOf(items[..i + 1], entry) == if e.Err? then Err(e.msg) else Ok(JsObject.Put(acc, items[i].0, e.value))
  {
    assert items[..i + 1][..i] == items[..i];
  }

  /** Once the keys up to `j` fail, the whole spread fails with the same error. */
  lemma {:induction false} SpreadStop(keys: seq<string>, step: (Counts, string) -> Result<Counts>, j: nat)
    requires 0 < j <= |keys| && SpreadOf(keys[..j], step).Err?
    ensures SpreadOf(keys, step) == SpreadOf(keys[..j], step)
    decreases |keys|
  {
    if j < |keys| {
      var init := keys[..|keys| - 1];
      assert init[..j] == keys[..j];
      SpreadStop(init, step, j);
    } else {
      assert keys[..j] == keys;
    }
  }

  /** The test "seen in calendar quarter `k`". */
  function InCalendarQuarter(k: string): ((string, Option<string>)) -> bool {
    (item: (string, Option<string>)) => item.0 == k
  }

  /** The counts hold one entry per calendar quarter a record was seen in, and the entry of a
      quarter is that of the last record seen in it: a later record of the same quarter
      overwrites an earlier one. */
  lemma {:induction false} LastRecordWins(items: seq<(string, Option<string>)>,
                                          entry: Option<string> -> Result<Option<int>>, k: string)
    ensures var r := CountsOf(items, entry);
      r.Ok? ==>
        && (k in r.value.at <==> LastIndex(items, InCalendarQuarter(k), |items|).Some?)
        && (k in r.value.at ==>
              Ok(r.value.at[k]) == entry(items[LastIndex(items, InCalendarQuarter(k), |items|).value].1))
    decreases |items|
  {
    var r := CountsOf(items, entry);
    if items != [] && r.Ok? {
      var n := |items| - 1;
      var init := items[..n];
      LastRecordWins(init, entry, k);
      if k != items[n].0 {
        LastIndexPrefix(items, InCalendarQuarter(k), n);
      }
    }
  }

  /** The counts are a well-formed object: their key list is their set of keys, each once. */
  lemma {:induction false} CountsValid(items: seq<(string, Option<string>)>,
                                       entry: Option<string> -> Result<Option<int>>)
    ensures CountsOf(items, entry).Ok? ==> JsObject.Valid(CountsOf(items, entry).value)
    decreases |items|
  {
    var r := CountsOf(items, entry);
    if items != [] && r.Ok? {
      var n := |items| - 1;
      CountsValid(items[..n], entry);
      JsObject.PutValid(CountsOf(items[..n], entry).value, items[n].0, entry(items[n].1).value);
    }
  }

  /** Below `upto`, the last index in a sequence and in its prefix of length `upto` agree. */
  lemma {:induction false} LastIndexPrefix<T>(xs: seq<T>, p: T -> bool, upto: nat)
    requires upto < |xs| && !p(xs[upto])
    ensures LastIndex(xs, p, upto + 1) == LastIndex(xs[..upto], p, upto)
    decreases upto
  {
    if upto > 0 {
      var ys := xs[..upto];
      assert ys[upto - 1] == xs[upto - 1];
      if !p(xs[upto - 1]) {
        LastIndexPrefix(xs[..upto], p, upto - 1);
        LastIndexPrefix(xs, p, upto - 1);
        assert xs[..upto][..upto - 1] == xs[..upto - 1];
      }
    }
  }

  /** A count never exceeds the number of values it was taken over, less one. */
  lemma CountBounded(p: Periods, kv: KeyValue.KeyValues, firstFiscal: string, fk: string,
                     memo: map<Scope, seq<string>>)
    ensures var r := CountOf(p, kv, firstFiscal, Some(fk), memo);
      r.Ok? ==> var n := |RangeOf(p, firstFiscal, fk, memo).value|;
        -n < r.value.value < n || r.value.value == 0
  {
    var r := CountOf(p, kv, firstFiscal, Some(fk), memo);
    if r.Ok? {
      var values := ValuesAt(kv, RangeOf(p, firstFiscal, fk, memo).value);
      if |values| > 1 {
        assert |Trend.Cleaned(values)| <= |values|;
      }
    }
  }

  /** The yearly spread: the last key of the counts, a calendar quarter, holds its count
      together with the three quarters after it. */
  lemma SpreadLastQuarter(counts: Counts, keys: seq<string>, k: Key)
    requires keys != [] && keys[|keys| - 1] == Render(k) && k.Quarter? && ValidKey(k) && FourDigitYear(k)
    ensures var r := SpreadOf(keys, SpreadFn(counts, Later()));
      var v := if Render(k) in counts.at then counts.at[Render(k)] else None;
      r.Ok? ==>
        && Render(k) in r.value.at && r.value.at[Render(k)] == v
        && forall n :: 1 <= n <= 3 ==>
             Render(KeyArith.Shift(k, n)) in r.value.at && r.value.at[Render(KeyArith.Shift(k, n))] == v
  {
    var r := SpreadOf(keys, SpreadFn(counts, Later()));
    if r.Ok? {
      var acc := SpreadOf(keys[..|keys| - 1], SpreadFn(counts, Later())).value;
      var v := if Render(k) in counts.at then counts.at[Render(k)] else None;
      assert r == SpreadKey(acc, Render(k), v, Later());
      LaterRendered(k, 1);
      LaterRendered(k, 2);
      LaterRendered(k, 3);
      SpreadKeyWrites(acc, Render(k), v, Later(), Render(KeyArith.Shift(k, 1)), Render(KeyArith.Shift(k, 2)),
                      Render(KeyArith.Shift(k, 3)));
      forall n | 1 <= n <= 3
        ensures Render(KeyArith.Shift(k, n)) in r.value.at && r.value.at[Render(KeyArith.Shift(k, n))] == v
      {
        assert n == 1 || n == 2 || n == 3;
      }
    }
  }

  /** On a rendered key, `addScopeKey` moves the key's period. */
  lemma LaterRendered(k: Key, n: int)
    requires ValidKey(k) && FourDigitYear(k)
    ensures Later()(Render(k), n) == Ok(Some(Render(KeyArith.Shift(k, n))))
  {
    KeyArith.AddToRendered(k, n);
  }

  /** One key of the spread writes its count under the key and the three keys after it, and
      keeps every key written before. */
  lemma SpreadKeyWrites(acc: Counts, key: string, value: Option<int>, later: (string, int) -> Result<Option<string>>,
                        k1: string, k2: string, k3: string)
    requires later(key, 1) == Ok(Some(k1)) && later(key, 2) == Ok(Some(k2)) && later(key, 3) == Ok(Some(k3))
    ensures var r := SpreadKey(acc, key, value, later);
      && r.Ok?
      && key in r.value.at && r.value.at[key] == value
      && k1 in r.value.at && r.value.at[k1] == value
      && k2 in r.value.at && r.value.at[k2] == value
      && k3 in r.value.at && r.value.at[k3] == value
  {
  }

  /** A key of the spread keeps every key written before it. */
  lemma SpreadKeyKeeps(acc: Counts, key: string, value: Option<int>, later: (string, int) -> Result<Option<string>>)
    ensures var r := SpreadKey(acc, key, value, later);
      r.Ok? ==> key in r.value.at && acc.at.Keys <= r.value.at.Keys
  {
  }

  /** A callback that writes its key and keeps every key written before. */
  ghost predicate StepKeeps(step: (Counts, string) -> Result<Counts>) {
    forall acc: Counts, key: string :: step(acc, key).Ok? ==>
      key in step(acc, key).value.at && acc.at.Keys <= step(acc, key).value.at.Keys
  }

  /** The spread's callback writes its key and keeps every key written before. */
  lemma SpreadFnKeeps(counts: Counts, later: (string, int) -> Result<Option<string>>)
    ensures StepKeeps(SpreadFn(counts, later))
  {
    forall acc: Counts, key: string
      ensures var r := SpreadFn(counts, later)(acc, key);
        r.Ok? ==> key in r.value.at && acc.at.Keys <= r.value.at.Keys
    {
      SpreadKeyKeeps(acc, key, if key in counts.at then counts.at[key] else None, later);
    }
  }

  /** Every key the spread has visited stays in the result. */
  lemma {:induction false} SpreadKeeps(keys: seq<string>, step: (Counts, string) -> Result<Counts>)
    requires StepKeeps(step)
    ensures var r := SpreadOf(keys, step);
      r.Ok? ==> forall i :: 0 <= i < |keys| ==> keys[i] in r.value.at
    decreases |keys|
  {
    var r := SpreadOf(keys, step);
    if keys != [] && r.Ok? {
      var n := |keys| - 1;
      var init := keys[..n];
      SpreadKeeps(init, step);
      var acc := SpreadOf(init, step).value;
      assert r == step(acc, keys[n]);
      forall i | 0 <= i < |keys|
        ensures keys[i] in r.value.at
      {
        if i < n {
          assert init[i] == keys[i] && init[i] in acc.at;
        }
      }
    }
  }
}
