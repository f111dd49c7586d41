/** The TFdata series class of tfdata.js: a scope type, the records of the series (or the one
    value of a timeless series) and the TTM flag, with construction, the point-in-time and
    fiscal lookups, and the calendar-key lookups that stamp `ck` on the stored records. */
module Series {
  import opened Wrappers
  import opened Calendar
  import opened ScopeKeys
  import opened Records
  import KeyRange
  import RawValues
  import KeyValue
  import JsObject
  import Growth
  import Trending
  import Rollups
  import KeyArith
  import Digits

  /** What a lookup returns: the value of a timeless series, or the answer proper. */
  datatype Answer<T> = TimelessValue(x: Option<real>) | Answer(a: T)

  /** The test of `this.data.filter(unit => unit.seen <= date)`. */
  function SeenBy(date: Date): Record -> bool {
    (u: Record) => NotAfter(u.seen, date)
  }

  /** The test of `this.data.filter(unit => unit.seen < date)`. */
  function SeenBefore(date: Date): Record -> bool {
    (u: Record) => Before(u.seen, date)
  }

  /** The test of `this.data.filter(unit => unit.fk === fk)`. */
  function HasFiscalKey(fk: Option<string>): Record -> bool {
    (u: Record) => u.fk == fk
  }

  /** The test of `.filter(datum => datum.ck === ck)`. */
  function HasCalendarKey(ck: Option<string>): Record -> bool {
    (u: Record) => u.ck == ck
  }

  /** The record at an index, if there is one. */
  function RecordAt(data: seq<Record>, i: Option<nat>): Option<Record>
    requires i.Some? ==> i.value < |data|
  {
    if i.None? then None else Some(data[i.value])
  }

  /** `_.last(filtered)` (null or `undefined` for an empty array). */
  function LastOf(filtered: seq<Record>): Option<Record> {
    if filtered == [] then None else Some(filtered[|filtered| - 1])
  }

  /** A raw `_values` entry as the constructor copies it: `seen` becomes a Date (the epoch for
      a null `seen`), the other properties stay; `meta` is not part of a record. */
  function FromEntry(e: RawValues.Entry<Option<real>>): Record {
    Record(e.v, if e.seen.Some? then e.seen.value else Epoch, e.fk, e.ed, Some(e.ck))
  }

  function FromEntries(es: seq<RawValues.Entry<Option<real>>>): (rs: seq<Record>)
    ensures |rs| == |es| && forall i :: 0 <= i < |es| ==> rs[i] == FromEntry(es[i])
  {
    seq(|es|, i requires 0 <= i < |es| => FromEntry(es[i]))
  }

  /** Each record with `ck` set to the padded key of scope `s` of its `seen`, as
      getValuesForCalendarKey writes it (null for the timeless scope). */
  function Stamped(data: seq<Record>, s: Scope): (r: seq<Record>)
    requires SeenValid(data)
    ensures |r| == |data| && SeenValid(r)
    ensures forall i :: 0 <= i < |data| ==> r[i] == data[i].(ck := DateToNormalizeScopeKey(data[i].seen, s))
  {
    seq(|data|, i requires 0 <= i < |data| => data[i].(ck := DateToNormalizeScopeKey(data[i].seen, s)))
  }

  /** `formula.tags.indexOf('ttm') > -1` */
  predicate TaggedTtm(tags: seq<string>) {
    exists i :: 0 <= i < |tags| && tags[i] == "ttm"
  }

  class TFdata {
    var scopeType: Scope
    /** `this.data` of a timeless series. */
    var value: Option<real>
    /** `this.data` of any other series, in the order given. */
    var data: seq<Record>
    var isTTM: bool

    ghost predicate Valid()
      reads this
    {
      SeenValid(data) && (scopeType == Timeless ==> data == [])
    }

    /** `new TFdata(scopeType, data, { isTTM })` for a scope other than timeless: the records
        are copied. */
    constructor (scopeType: Scope, data: seq<Record>, isTTM: bool)
      requires scopeType != Timeless && SeenValid(data)
      ensures Valid()
      ensures this.scopeType == scopeType && this.data == data && this.isTTM == isTTM && value == None
    {
      this.scopeType := scopeType;
      this.data := data;
      this.isTTM := isTTM;
      this.value := None;
    }

    /** `new TFdata('timeless', x)`: the value is kept as it is and `isTTM` is left unset. */
    constructor Scalar(x: Option<real>)
      ensures Valid()
      ensures scopeType == Timeless && value == x && data == [] && !isTTM
    {
      scopeType := Timeless;
      value := x;
      data := [];
      isTTM := false;
    }

    /** TFdata.initFromRaw(obj, formula): a raw value object without `_type`, or with neither
        `_values` nor a non-null `value`, is invalid; a timeless object gives a timeless series
        of its `value`; any other gives a series of its `_values` (a TypeError when it has
        none), flagged TTM exactly when the formula's tags contain 'ttm'. */
    static method InitFromRaw(obj: RawValues.RawValue<Option<real>>, tags: Option<seq<string>>)
      returns (r: Result<TFdata>)
      requires obj.values.Some? ==> forall i :: 0 <= i < |obj.values.value| ==>
        obj.values.value[i].seen.Some? ==> Calendar.Valid(obj.values.value[i].seen.value)
      ensures obj.typ.None? ==> r.Err?
      ensures obj.values.None? && (obj.value.None? || obj.value == Some(None)) ==> r.Err?
      ensures obj.typ == Some(Timeless) && r.Ok? ==>
        fresh(r.value) && r.value.Valid() && r.value.scopeType == Timeless
        && r.value.value == (if obj.value.Some? then obj.value.value else None)
      ensures obj.typ.Some? && obj.typ != Some(Timeless) && obj.values.None? ==> r.Err?
      ensures obj.typ.Some? && obj.typ != Some(Timeless) && obj.values.Some? ==>
        r.Ok? && fresh(r.value) && r.value.Valid() && r.value.scopeType == obj.typ.value
        && r.value.data == FromEntries(obj.values.value)
        && r.value.isTTM == (tags.Some? && TaggedTtm(tags.value))
    {
      if obj.typ.None? {
        return Err("Error: Input data is invalid TFdata (no property _type)");
      }
      if obj.values.None? && (obj.value.None? || obj.value == Some(None)) {
        return Err("Error: Input data is invalid TFdata (no property _values or value)");
      }
      var typ := obj.typ.value;
      if typ == Timeless {
        var t := new TFdata.Scalar(if obj.value.Some? then obj.value.value else None);
        return Ok(t);
      }
      var isTTM := tags.Some? && TaggedTtm(tags.value);
      if obj.values.None? {
        return Err("TypeError: Cannot read property 'map' of undefined");
      }
      var records := FromEntries(obj.values.value);
      var t := new TFdata(typ, records, isTTM);
      r := Ok(t);
    }

    predicate IsTimeless()
      reads this
    {
      scopeType == Timeless
    }

    predicate IsEmpty()
      reads this
    {
      !IsTimeless() && |data| == 0
    }

    /** TFdata.getValue: the value of a timeless series; otherwise the `v` of the last record,
        null when there is none. */
    function GetValue(): (r: Option<real>)
      reads this
      ensures scopeType == Timeless ==> r == value
      ensures scopeType != Timeless && data == [] ==> r.None?
      ensures scopeType != Timeless && data != [] ==> r == data[|data| - 1].v
    {
      if IsTimeless() then value
      else if IsEmpty() then None
      else data[|data| - 1].v
    }

    /** TFdata.getSeens: the `seen` of every record in order; none for a timeless series. */
    function GetSeens(): (r: seq<Date>)
      reads this
      ensures scopeType == Timeless ==> r == []
      ensures scopeType != Timeless ==> |r| == |data| && forall i :: 0 <= i < |data| ==> r[i] == data[i].seen
    {
      if IsTimeless() || IsEmpty() then []
      else seq(|data|, i requires 0 <= i < |data| reads this => data[i].seen)
    }

    /** TFdata.getLastValueBeforeDate: the last record, in array order, seen strictly before
        `date` (`undefined` when there is none). */
    function GetLastValueBeforeDate(date: Date): (r: Answer<Option<Record>>)
      reads this
      ensures scopeType == Timeless <==> r == TimelessValue(value)
      ensures scopeType != Timeless ==> r == Answer(RecordAt(data, LastIndex(data, SeenBefore(date), |data|)))
    {
      if IsTimeless() then TimelessValue(value)
      else
        var filtered := Filter(data, SeenBefore(date));
        FilterTail(data, SeenBefore(date));
        Answer(LastOf(filtered))
    }

    /** TFdata.getValueForDate: the last record, in array order, seen on or before `date`, or
        null. */
    function GetValueForDate(date: Date): (r: Answer<Option<Record>>)
      reads this
      ensures scopeType == Timeless <==> r == TimelessValue(value)
      ensures scopeType != Timeless ==> r == Answer(RecordAt(data, LastIndex(data, SeenBy(date), |data|)))
    {
      if IsTimeless() then TimelessValue(value)
      else
        var filtered := Filter(data, SeenBy(date));
        FilterTail(data, SeenBy(date));
        if |filtered| == 0 then Answer(None) else Answer(LastOf(filtered))
    }

    /** TFdata.getLastValueBeforeKey: the last record seen before the last day of the key's
        period. A null key gives a null date, which `<` reads as time 0, so the records seen
        before 1970 count. A key naming no day gives an invalid date, which compares false with
        every date. An unrecognised key is a TypeError. */
    function GetLastValueBeforeKey(key: Option<string>): (r: Result<Answer<Option<Record>>>)
      reads this
      ensures ScopeKeyToDate(key).Err? <==> r.Err?
      ensures ScopeKeyToDate(key).Ok? && ScopeKeyToDate(key).value.At? ==>
        r == Ok(GetLastValueBeforeDate(ScopeKeyToDate(key).value.date))
      ensures key.None? ==> r == Ok(GetLastValueBeforeDate(Epoch))
      ensures ScopeKeyToDate(key) == Ok(InvalidDate) && scopeType != Timeless ==> r == Ok(Answer(None))
    {
      var date :- ScopeKeyToDate(key);
      match date
      case At(d) => Ok(GetLastValueBeforeDate(d))
      case NoDate => Ok(GetLastValueBeforeDate(Epoch))
      case InvalidDate => if IsTimeless() then Ok(TimelessValue(value)) else Ok(Answer(None))
    }

    /** TFdata.getFirstValueForFiscalKey: the first record with fiscal key `fk`, or null. */
    function GetFirstValueForFiscalKey(fk: Option<string>): (r: Answer<Option<Record>>)
      reads this
      ensures scopeType == Timeless <==> r == TimelessValue(value)
      ensures scopeType != Timeless ==> r == Answer(RecordAt(data, FirstIndex(data, HasFiscalKey(fk), 0)))
    {
      if IsTimeless() then TimelessValue(value)
      else
        var filtered := Filter(data, HasFiscalKey(fk));
        FilterHead(data, HasFiscalKey(fk));
        if |filtered| == 0 then Answer(None) else Answer(Some(filtered[0]))
    }

    /** TFdata.getValueForFiscalKey: null when no record has fiscal key `fk`; by default the
        last such record; with `fiscalOrder: 'first'` the first one, unless its `v` is null
        and there is a second one, which is then taken instead. */
    function GetValueForFiscalKey(fk: Option<string>, first: bool): (r: Answer<Option<Record>>)
      reads this
      ensures scopeType == Timeless <==> r == TimelessValue(value)
      ensures scopeType != Timeless && !first ==> r == Answer(RecordAt(data, LastIndex(data, HasFiscalKey(fk), |data|)))
      ensures scopeType != Timeless && first ==>
        r == Answer(match FirstIndex(data, HasFiscalKey(fk), 0)
                    case None => None
                    case Some(i) =>
                      var next := FirstIndex(data, HasFiscalKey(fk), i + 1);
                      if data[i].v.None? && next.Some? then Some(data[next.value]) else Some(data[i]))
    {
      if IsTimeless() then TimelessValue(value)
      else
        var filtered := Filter(data, HasFiscalKey(fk));
        FilterHead(data, HasFiscalKey(fk));
        FilterTail(data, HasFiscalKey(fk));
        if |filtered| == 0 then Answer(None)
        else if first then
          var v := filtered[0];
          if v.v.None? && |filtered| >= 2 then Answer(Some(filtered[1])) else Answer(Some(v))
        else Answer(LastOf(filtered))
    }

    /** TFdata.getValuesForCalendarKey: stamps every stored record with the padded key of its
        `seen` in the scope of `ck` (null for a null `ck`), then returns the records whose
        stamp is `ck`. A `ck` matching no key pattern has no scope: a TypeError at the first
        record, before any record is stamped. */
    method GetValuesForCalendarKey(ck: Option<string>) returns (r: Result<Answer<seq<Record>>>)
      requires Valid()
      modifies this
      ensures Valid() && scopeType == old(scopeType) && value == old(value)
      ensures old(scopeType) == Timeless ==> r == Ok(TimelessValue(value)) && data == old(data)
      ensures old(scopeType) != Timeless && ScopeKeyType(ck).None? ==>
        data == old(data) && (r.Err? <==> old(data) != []) && (r.Ok? ==> r.value == Answer([]))
      ensures old(scopeType) != Timeless && ScopeKeyType(ck).Some? ==>
        data == Stamped(old(data), ScopeKeyType(ck).value) && r == Ok(Answer(Filter(data, HasCalendarKey(ck))))
    {
      if IsTimeless() {
        return Ok(TimelessValue(value));
      }
      var keyType := ScopeKeyType(ck);
      if keyType.None? {
        if data != [] {
          return Err("TypeError: [Util] Illegal formula scope(null)");
        }
        return Ok(Answer([]));
      }
      data := Stamped(data, keyType.value);
      r := Ok(Answer(Filter(data, HasCalendarKey(ck))));
    }

    /** TFdata.getValueForCalendarKey: the last of those records, or null. */
    method GetValueForCalendarKey(ck: Option<string>) returns (r: Result<Answer<Option<Record>>>)
      requires Valid()
      modifies this
      ensures Valid() && scopeType == old(scopeType) && value == old(value)
      ensures old(scopeType) == Timeless ==> r == Ok(TimelessValue(value)) && data == old(data)
      ensures old(scopeType) != Timeless && ScopeKeyType(ck).None? ==>
        data == old(data) && (r.Err? <==> old(data) != [])
      ensures old(scopeType) != Timeless && ScopeKeyType(ck).Some? ==>
        data == Stamped(old(data), ScopeKeyType(ck).value)
        && r == Ok(Answer(RecordAt(data, LastIndex(data, HasCalendarKey(ck), |data|))))
    {
      if IsTimeless() {
        return Ok(TimelessValue(value));
      }
      var filtered :- GetValuesForCalendarKey(ck);
      FilterTail(data, HasCalendarKey(ck));
      r := Ok(Answer(LastOf(filtered.a)));
    }

    /** TFdata.getFiscalKeys: the non-null fiscal keys in record order; a timeless series has
        no array to map (a TypeError). */
    function GetFiscalKeys(): (r: Result<seq<string>>)
      reads this
      ensures scopeType == Timeless <==> r.Err?
      ensures r.Ok? ==> forall i :: 0 <= i < |r.value| ==> Some(r.value[i]) in FiscalKeysOf(data)
      ensures r.Ok? ==> r.value == NonNullKeys(FiscalKeysOf(data))
    {
      if IsTimeless() then Err("TypeError: this.data.map is not a function")
      else Ok(NonNullKeys(FiscalKeysOf(data)))
    }

    /** TFdata.getLastFiscalKey: the fiscal key of the last record, null for a series without
        records. The one value of a timeless series has no `fk` (`undefined`), and a null value
        has no properties at all (a TypeError). */
    function GetLastFiscalKey(): (r: Result<Option<string>>)
      reads this
      ensures scopeType == Timeless ==> (r.Err? <==> value.None?) && (r.Ok? ==> r.value.None?)
      ensures scopeType != Timeless ==> r.Ok? && (data == [] ==> r.value.None?)
      ensures scopeType != Timeless && data != [] ==> r == Ok(data[|data| - 1].fk)
      ensures scopeType != Timeless && r.Ok? && r.value.Some? ==>
        var keys := GetFiscalKeys();
        keys.Ok? && |keys.value| > 0 && keys.value[|keys.value| - 1] == r.value.value
    {
      if IsTimeless() then
        (if value.None? then Err("TypeError: Cannot read property 'fk' of null") else Ok(None))
      else if data == [] then Ok(None)
      else
        var fk := data[|data| - 1].fk;
        if fk.Some? then
          NonNullKeysLast(FiscalKeysOf(data));
          Ok(fk)
        else Ok(fk)
    }

    /** TFdata.getCalendarKeys(scope): the keys of `keysInRange` from the loose key of the
        first record's `seen` to that of the last record's; none for a series with no records;
        the timeless scope has no key to start from (a TypeError). */
    function GetCalendarKeys(scope: Scope, memo: map<Scope, seq<string>>): (r: Result<seq<string>>)
      reads this
      requires Valid()
      ensures data == [] ==> r == Ok([])
      ensures data != [] && scope == Timeless ==> r.Err?
      ensures data != [] && scope != Timeless ==>
        r == KeyRange.KeysInRangeIn(memo, Render(KeyOf(data[0].seen, scope)), Render(KeyOf(data[|data| - 1].seen, scope)))
    {
      KeyValue.CalendarKeys(data, scope, memo)
    }

    /** TFdata.toKeyValue(scopeType, mode, options): a timeless series gives one entry, its
        value under the key of the current day `now` in `scope` (`null` for the timeless
        scope); any other series gives the filled dictionary of its records. */
    method ToKeyValue(scope: Scope, mode: KeyValue.Mode, options: KeyValue.Options, now: Date,
                      memo: map<Scope, seq<string>>) returns (r: Result<KeyValue.KeyValues>)
      requires Valid() && Calendar.Valid(now)
      requires options.fillToDate.Some? ==> Calendar.Valid(options.fillToDate.value)
      ensures scopeType == Timeless ==>
        r == Ok(JsObject.Put(JsObject.Empty(), JsObject.KeyName(DateToScopeKey(At(now), scope)),
                             Some(KeyValue.Scalar(value))))
      ensures scopeType != Timeless ==> r == KeyValue.KeyValueOf(data, scope, mode, options, memo)
    {
      if IsTimeless() {
        var key := DateToScopeKey(At(now), scope);
        return Ok(JsObject.Put(JsObject.Empty(), JsObject.KeyName(key), Some(KeyValue.Scalar(value))));
      }
      r := KeyValue.ToKeyValue(data, scope, mode, options, memo);
    }

    /** TFdata.groupByScope(scopeType, mode): each record tagged with its group, the padded key
        of its `seen` in calendar mode and its converted fiscal key in fiscal mode; a fiscal key
        that does not convert is the error of the whole call, and any other mode is refused.
        The timeless branch writes to an undeclared `kv` (a ReferenceError). */
    function GroupByScope(scope: Scope, mode: KeyValue.Mode): (r: Result<seq<KeyValue.Tagged>>)
      reads this
      requires Valid()
      ensures scopeType == Timeless ==> r == Err("ReferenceError: kv is not defined")
      ensures scopeType != Timeless && mode.OtherMode? ==> r == Err("Error: Unsupported mode (" + mode.name + ")")
      ensures scopeType != Timeless && !mode.OtherMode? ==>
        (r.Ok? <==> forall i :: 0 <= i < |data| ==> KeyValue.GroupOf(data[i], scope, mode).Ok?)
      ensures scopeType != Timeless && !mode.OtherMode? && r.Ok? ==>
        |r.value| == |data| &&
        forall i :: 0 <= i < |data| ==> r.value[i] == KeyValue.Tagged(data[i], KeyValue.GroupOf(data[i], scope, mode).value)
    {
      if IsTimeless() then Err("ReferenceError: kv is not defined")
      else KeyValue.Grouped(data, scope, mode)
    }

    /** TFdata.yearlyTrendingPeriods, yoyTrendingPeriods and qoqTrendingPeriods. */
    method TrendingPeriods(p: Trending.Periods, memo: map<Scope, seq<string>>)
      returns (r: Result<Option<Trending.Counts>>)
      requires Valid()
      ensures r == Trending.TrendingOf(p, scopeType, value, data, memo)
    {
      r := Trending.TrendingPeriods(p, scopeType, value, data, memo);
    }

    /** TFdata.lastQGrowth(method). */
    method LastQGrowth(name: string, memo: map<Scope, seq<string>>) returns (r: Result<Option<Growth.Growths>>)
      requires Valid() && Growth.PaddedWindows(memo)
      ensures r == Growth.LastQGrowthOf(scopeType, data, name, memo)
    {
      var n :- Growth.QuartersBack(name);
      if scopeType != Quarterly {
        return Ok(None);
      }
      var g :- Growth.GrowthByQuarter(data, Growth.LastQ(n), memo);
      r := Ok(Some(g));
    }

    /** TFdata.ttmCagr(numYear). */
    method TtmCagr(numYear: int, memo: map<Scope, seq<string>>) returns (r: Result<Growth.Growths>)
      requires Valid() && Growth.PaddedWindows(memo)
      ensures r == Growth.TtmCagrOf(isTTM, data, numYear, memo)
    {
      if !isTTM {
        return Err("Error: expected ttmCagr to be called on TTM");
      }
      r := Growth.GrowthByQuarter(data, Growth.TtmCagr(numYear), memo);
    }

    /** TFdata.quarterlyCagr(numYear, force). */
    method QuarterlyCagr(numYear: int, force: bool, memo: map<Scope, seq<string>>) returns (r: Result<Growth.Growths>)
      requires Valid() && Growth.PaddedWindows(memo)
      ensures r == Growth.QuarterlyCagrOf(scopeType, data, numYear, force, memo)
    {
      if scopeType != Annually && !force {
        return Err("Error: expected quarterlyCagr to be called on annually, got " + ScopeName(scopeType));
      }
      if scopeType == Timeless {
        return Err("TypeError: this.data is not iterable");
      }
      r := Growth.GrowthByQuarter(data, Growth.AnnualCagr(numYear), memo);
    }

    /** TFdata.daysTrailingValues(days); a timeless series has no last record. */
    function DaysTrailingValues(days: int): (r: seq<Record>)
      reads this
      requires Valid()
      ensures scopeType == Timeless ==> r == []
      ensures r == Rollups.DaysTrailingOf(data, days)
    {
      Rollups.DaysTrailingOf(data, days)
    }

    /** TFdata.ttm(): the trailing sum over the series' own fiscal dictionary. A timeless
        series' dictionary has the one key `null`, which names no period (a TypeError). */
    method Ttm(now: Date, memo: map<Scope, seq<string>>) returns (r: Result<Option<real>>)
      requires Valid() && Calendar.Valid(now)
      ensures scopeType == Timeless ==> r.Err?
      ensures scopeType != Timeless ==>
        r == (var hash := KeyValue.KeyValueOf(data, scopeType, KeyValue.FiscalMode, KeyValue.Defaults, memo);
              if hash.Err? then Err(hash.msg) else Rollups.TtmOf(hash.value, memo))
    {
      var hash :- ToKeyValue(scopeType, KeyValue.FiscalMode, KeyValue.Defaults, now, memo);
      NullNamesNoKey();
      r := Rollups.TtmOf(hash, memo);
    }

    /** TFdata.toFiscalYear(): a new annual series of the fourth-quarter records, re-keyed by
        fiscal year. */
    method ToFiscalYear() returns (r: Result<TFdata>)
      requires Valid()
      ensures scopeType != Quarterly ==> r.Err?
      ensures scopeType == Quarterly ==>
        && r.Ok? && fresh(r.value) && r.value.Valid()
        && r.value.scopeType == Annually && !r.value.isTTM
        && r.value.data == Rollups.FiscalYearOf(scopeType, data).value
    {
      var records :- Rollups.FiscalYearOf(scopeType, data);
      var t := new TFdata(Annually, records, false);
      r := Ok(t);
    }
  }

  /** The `fk` of every record. */
  function FiscalKeysOf(data: seq<Record>): (r: seq<Option<string>>)
    ensures |r| == |data| && forall i :: 0 <= i < |data| ==> r[i] == data[i].fk
  {
    seq(|data|, i requires 0 <= i < |data| => data[i].fk)
  }

  /** `.filter(key => key != null)` */
  function NonNullKeys(keys: seq<Option<string>>): (r: seq<string>)
    ensures forall i :: 0 <= i < |r| ==> Some(r[i]) in keys
    ensures forall i :: 0 <= i < |keys| && keys[i].Some? ==> keys[i].value in r
  {
    if keys == [] then []
    else (if keys[0].Some? then [keys[0].value] else []) + NonNullKeys(keys[1..])
  }

  /** Dropping the nulls keeps the order and the repeats: it works piece by piece, keeping a
      single key and dropping a single null. */
  lemma {:induction false} NonNullKeysAppend(a: seq<Option<string>>, b: seq<Option<string>>)
    ensures NonNullKeys(a + b) == NonNullKeys(a) + NonNullKeys(b)
    ensures forall k :: NonNullKeys([Some(k)]) == [k]
    ensures NonNullKeys([None]) == []
  {
    if a == [] {
      assert a + b == b;
    } else {
      assert (a + b)[0] == a[0] && (a + b)[1..] == a[1..] + b;
      NonNullKeysAppend(a[1..], b);
    }
    forall k ensures NonNullKeys([Some(k)]) == [k] {
      assert [Some(k)][1..] == [];
    }
    var nulls: seq<Option<string>> := [None];
    assert nulls[1..] == [];
  }

  /** The fiscal keys of two runs of records are those of the first run followed by those of
      the second, so getFiscalKeys lists every non-null key in record order, repeats kept. */
  lemma FiscalKeysAppend(a: seq<Record>, b: seq<Record>)
    ensures NonNullKeys(FiscalKeysOf(a + b)) == NonNullKeys(FiscalKeysOf(a)) + NonNullKeys(FiscalKeysOf(b))
  {
    assert FiscalKeysOf(a + b) == FiscalKeysOf(a) + FiscalKeysOf(b);
    NonNullKeysAppend(FiscalKeysOf(a), FiscalKeysOf(b));
  }

  /** A null key reads as time 0: a record seen on the last day of 1969 is found. */
  lemma NullKeyReadsEpoch(t: TFdata, rec: Record)
    requires t.scopeType != Timeless && t.data == [rec] && rec.seen == Date(1969, 12, 31)
    ensures t.GetLastValueBeforeKey(None) == Ok(Answer(Some(rec)))
  {
  }

  /** A list whose last key is not null keeps that key last after the nulls are dropped. */
  lemma {:induction false} NonNullKeysLast(keys: seq<Option<string>>)
    requires keys != [] && keys[|keys| - 1].Some?
    ensures var r := NonNullKeys(keys);
      |r| > 0 && r[|r| - 1] == keys[|keys| - 1].value
  {
    if |keys| > 1 {
      NonNullKeysLast(keys[1..]);
      assert keys[1..][|keys| - 2] == keys[|keys| - 1];
    }
  }

  /** `null` is not a key: subtracting from it is a TypeError. */
  lemma NullNamesNoKey()
    ensures KeyArith.SubtractScopeKey(Some("null"), Some(3)).Err?
  {
    var n := "null";
    assert n[..4] == n && !Digits.IsDigit(n[0]);
    assert !IsMonthKey(n) && !IsQuarterKey(n) && !IsAnnualKey(n) && !IsDayKey(n);
  }
}
