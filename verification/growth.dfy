/** The growth calculators of TFdata: lastQGrowth, ttmCagr and quarterlyCagr. Each walks the
    quarterly calendar keys of the series from the newest back; for each quarter it keeps the
    records seen by the quarter's last day, fills the fiscal periods up to the latest fiscal key
    among them, and compares the value of the last filled period with the value of the period
    a fixed number of periods before it. */
module Growth {
  import opened Wrappers
  import opened Calendar
  import opened ScopeKeys
  import opened Records
  import JsObject
  import KeyValue
  import KeyArith
  import KeyRange
  import ScopeKeyLemmas
  import Lex

  /** Which calculator runs, with how far back it looks. */
  datatype Calc =
    | LastQ(quarters: int)      // lastQGrowth: 1 quarter for 'qoq', 4 for 'yoy'
    | TtmCagr(numYear: int)     // ttmCagr: numYear * 4 quarters
    | AnnualCagr(numYear: int)  // quarterlyCagr: numYear fiscal years

  /** What a quarter yields when both values are usable: the growth rate of lastQGrowth, or
      the two values and the number of years a CAGR is raised from. */
  datatype Outcome = Rate(g: real) | Cagr(ending: real, beginning: real, numYear: int)

  /** The result object: one entry per calendar quarter, null where no growth is defined. */
  type Growths = JsObject.Obj<Option<Outcome>>

  /** lastQGrowth's `method` argument: 'qoq' looks one quarter back, 'yoy' four. */
  function QuartersBack(name: string): (r: Result<int>)
    ensures r.Ok? <==> name == "qoq" || name == "yoy"
    ensures r.Ok? ==> r.value == (if name == "qoq" then 1 else 4)
  {
    if name == "qoq" then Ok(1)
    else if name == "yoy" then Ok(4)
    else Err("Error: Unsupported lastQGrowth method " + name + ", only support ['yoy', 'qoq']")
  }

  /** The scope the records are grouped by: fiscal quarters, or fiscal years for quarterlyCagr. */
  function GroupScope(c: Calc): Scope {
    if c.AnnualCagr? then Annually else Quarterly
  }

  /** How many periods of the group scope the beginning value lies before the ending one. */
  function Back(c: Calc): int {
    match c
    case LastQ(n) => n
    case TtmCagr(y) => y * 4
    case AnnualCagr(y) => y
  }

  // ---------------------------------------------------------------------------------------
  // One quarter

  /** The test of `_.remove(filteredData, datum => datum.seen > seen)`, negated: what stays.
      A null cutoff compares as the epoch; an invalid date compares false, so everything stays. */
  function Remains(cutoff: Instant): Record -> bool {
    (u: Record) =>
      match cutoff
      case At(d) => NotAfter(u.seen, d)
      case NoDate => NotAfter(u.seen, Epoch)
      case InvalidDate => true
  }

  /** The largest key the fill runs to: the fiscal key of the last record still present,
      converted to a fiscal year for quarterlyCagr. */
  function MaxKeyOf(c: Calc, last: Record): (r: Result<Option<string>>)
    ensures !c.AnnualCagr? ==> r == Ok(last.fk)
    ensures c.AnnualCagr? ==> r == ConvertKey(last.fk, Annually)
  {
    if c.AnnualCagr? then ConvertKey(last.fk, Annually) else Ok(last.fk)
  }

  /** The key of the ending value: the largest key after `.sort()` for lastQGrowth, the last
      key in insertion order for the CAGRs; `undefined` for an empty dictionary. */
  function LastKey(c: Calc, keys: seq<string>): (r: Option<string>)
    ensures r.None? <==> keys == []
    ensures r.Some? ==> r.value in keys
    ensures r.Some? && c.LastQ? ==> forall i :: 0 <= i < |keys| ==> Lex.LessEq(keys[i], r.value)
    ensures r.Some? && !c.LastQ? ==> r.value == keys[|keys| - 1]
  {
    if keys == [] then None
    else if c.LastQ? then Some(KeyValue.MaxKey(keys))
    else Some(keys[|keys| - 1])
  }

  /** `(endingValue < 0 && beginningValue < 0) || (endingValue > 0 && beginningValue > 0)` */
  predicate SameSign(e: real, b: real) {
    (e < 0.0 && b < 0.0) || (e > 0.0 && b > 0.0)
  }

  /** lastQGrowth's ratio: null when a value is missing, or when the signs differ and the
      beginning value is not positive; otherwise the change relative to the beginning value.
      The beginning value is never zero where a rate is given. */
  function GrowthRate(ending: Option<real>, beginning: Option<real>): (r: Option<real>)
    ensures r.Some? <==>
      ending.Some? && beginning.Some? && (SameSign(ending.value, beginning.value) || beginning.value > 0.0)
    ensures r.Some? ==>
      beginning.value != 0.0 && beginning.value * (1.0 + r.value) == ending.value
  {
    if ending.None? || beginning.None? then None
    else if !SameSign(ending.value, beginning.value) && beginning.value <= 0.0 then None
    else Some((ending.value - beginning.value) / beginning.value)
  }

  /** The CAGRs' guard: null when a value is missing or not positive; otherwise the operands
      of `Math.pow(endingValue / beginningValue, 1 / numYear) - 1`. */
  function CagrOf(ending: Option<real>, beginning: Option<real>, numYear: int): (r: Option<Outcome>)
    ensures r.Some? <==> ending.Some? && beginning.Some? && ending.value > 0.0 && beginning.value > 0.0
    ensures r.Some? ==> r.value == Cagr(ending.value, beginning.value, numYear)
  {
    if ending.None? || beginning.None? then None
    else if ending.value <= 0.0 || beginning.value <= 0.0 then None
    else Some(Cagr(ending.value, beginning.value, numYear))
  }

  function OutcomeOf(c: Calc, ending: Option<real>, beginning: Option<real>): Option<Outcome> {
    match c
    case LastQ(_) => (var g := GrowthRate(ending, beginning); if g.None? then None else Some(Rate(g.value)))
    case TtmCagr(y) => CagrOf(ending, beginning, y)
    case AnnualCagr(y) => CagrOf(ending, beginning, y)
  }

  /** What one filled dictionary yields: the value of the last key against the value of the
      key `Back(c)` periods before it. */
  function GrowthIn(c: Calc, kv: KeyValue.KeyValues): (r: Result<Option<Outcome>>)
    ensures kv.keys == [] ==> r == Ok(None)
  {
    var last := LastKey(c, kv.keys);
    var back :- KeyArith.SubtractScopeKey(last, Some(Back(c)));
    Ok(OutcomeOf(c, KeyValue.NumberAt(kv, last), KeyValue.NumberAt(kv, back)))
  }

  /** The entry of calendar quarter `ck`, from the records that remain once those seen after
      the quarter's last day are removed. */
  function EntryAt(data: seq<Record>, groupResult: seq<KeyValue.Tagged>, c: Calc, ck: string,
                   memo: map<Scope, seq<string>>): (r: Result<Option<Outcome>>)
    ensures ScopeKeyToDate(Some(ck)).Err? ==> r.Err?
  {
    var seen :- ScopeKeyToDate(Some(ck));
    EntryFrom(Filter(data, Remains(seen)), groupResult, c, seen, memo)
  }

  /** The entry computed from the records that remain: the last one's fiscal key bounds the
      fill, whose dictionary gives the growth. No record left is a TypeError. */
  function EntryFrom(upTo: seq<Record>, groupResult: seq<KeyValue.Tagged>, c: Calc, seen: Instant,
                     memo: map<Scope, seq<string>>): (r: Result<Option<Outcome>>)
    ensures upTo == [] ==> r == Err("TypeError: Cannot read property 'fk' of undefined")
  {
    if upTo == [] then Err("TypeError: Cannot read property 'fk' of undefined")
    else
      var maxKey :- MaxKeyOf(c, upTo[|upTo| - 1]);
      var kv :- KeyValue.GroupToKeyValueOf(groupResult, seen, maxKey, KeyValue.Defaults, memo);
      GrowthIn(c, kv)
  }

  // ---------------------------------------------------------------------------------------
  // All quarters

  /** The `forEach` body for one calendar key. */
  function EntryFn(data: seq<Record>, groupResult: seq<KeyValue.Tagged>, c: Calc, memo: map<Scope, seq<string>>)
    : string -> Result<Option<Outcome>>
  {
    ck => EntryAt(data, groupResult, c, ck, memo)
  }

  /** The `forEach` over the calendar keys as a fold: `result[ck] = …` for each key in turn,
      stopping at the first error. */
  function Entries(cks: seq<string>, entry: string -> Result<Option<Outcome>>): (r: Result<Growths>)
    decreases |cks|
  {
    if cks == [] then Ok(JsObject.Empty())
    else
      var acc := Entries(cks[..|cks| - 1], entry);
      var e := entry(cks[|cks| - 1]);
      if acc.Err? then Err(acc.msg)
      else if e.Err? then Err(e.msg)
      else Ok(JsObject.Put(acc.value, cks[|cks| - 1], e.value))
  }

  function Reversed<T>(xs: seq<T>): (r: seq<T>)
    ensures |r| == |xs| && forall i :: 0 <= i < |xs| ==> r[i] == xs[|xs| - 1 - i]
  {
    seq(|xs|, i requires 0 <= i < |xs| => xs[|xs| - 1 - i])
  }

  /** The shared body of the three calculators: the quarterly calendar keys newest first, the
      records grouped by fiscal key of the group scope, and one entry per calendar key. */
  function GrowthByQuarterOf(data: seq<Record>, c: Calc, memo: map<Scope, seq<string>>): (r: Result<Growths>)
    requires SeenValid(data)
    ensures data == [] ==> r == Ok(JsObject.Empty())
  {
    var cks :- KeyValue.CalendarKeys(data, Quarterly, memo);
    var groupResult :- KeyValue.Grouped(data, GroupScope(c), KeyValue.FiscalMode);
    Entries(Reversed(cks), EntryFn(data, groupResult, c, memo))
  }

  /** TFdata.lastQGrowth(method): an unsupported method is an error; a series that is not
      quarterly gives null. */
  function LastQGrowthOf(scopeType: Scope, data: seq<Record>, name: string, memo: map<Scope, seq<string>>)
    : (r: Result<Option<Growths>>)
    requires SeenValid(data)
    ensures name != "qoq" && name != "yoy" ==> r.Err?
    ensures QuartersBack(name).Ok? && scopeType != Quarterly ==> r == Ok(None)
  {
    var n :- QuartersBack(name);
    if scopeType != Quarterly then Ok(None)
    else
      var g :- GrowthByQuarterOf(data, LastQ(n), memo);
      Ok(Some(g))
  }

  /** TFdata.ttmCagr(numYear): only a TTM series has one. */
  function TtmCagrOf(isTTM: bool, data: seq<Record>, numYear: int, memo: map<Scope, seq<string>>)
    : (r: Result<Growths>)
    requires SeenValid(data)
    ensures !isTTM ==> r == Err("Error: expected ttmCagr to be called on TTM")
  {
    if !isTTM then Err("Error: expected ttmCagr to be called on TTM")
    else GrowthByQuarterOf(data, TtmCagr(numYear), memo)
  }

  /** TFdata.quarterlyCagr(numYear, force): only an annual series has one unless `force` is
      set; a timeless series has no records to copy (a TypeError). */
  function QuarterlyCagrOf(scopeType: Scope, data: seq<Record>, numYear: int, force: bool,
                           memo: map<Scope, seq<string>>): (r: Result<Growths>)
    requires SeenValid(data)
    ensures scopeType != Annually && !force ==> r.Err?
    ensures scopeType == Timeless ==> r.Err?
  {
    if scopeType != Annually && !force then
      Err("Error: expected quarterlyCagr to be called on annually, got " + ScopeName(scopeType))
    else if scopeType == Timeless then Err("TypeError: this.data is not iterable")
    else GrowthByQuarterOf(data, AnnualCagr(numYear), memo)
  }

  // ---------------------------------------------------------------------------------------
  // The walk with its working copy

  /** Both keys name a calendar day, `a`'s no later than `b`'s. */
  ghost predicate NotLater(a: string, b: string) {
    var x, y := ScopeKeyToDate(Some(a)), ScopeKeyToDate(Some(b));
    x.Ok? && x.value.At? && y.Ok? && y.value.At? && NotAfter(x.value.date, y.value.date)
  }

  /** Each key's last day is no later than that of every key before it. */
  ghost predicate CutoffsDescend(cks: seq<string>) {
    forall i, j :: 0 <= i < j < |cks| ==> NotLater(cks[j], cks[i])
  }

  /** `x` is the padded key of a period of scope `s` with a four-digit year. */
  ghost predicate PaddedOf(x: string, s: Scope) {
    ParseKey(x).Some? && ValidKey(ParseKey(x).value) && FourDigitYear(ParseKey(x).value)
    && ScopeOf(ParseKey(x).value) == s && RenderPadded(ParseKey(x).value) == x
  }

  /** Every window of the memo lists padded keys of its own scope in ascending order. */
  ghost predicate PaddedWindows(memo: map<Scope, seq<string>>) {
    forall s :: s in memo ==>
      KeyRange.StrictlySorted(memo[s]) && forall x :: x in memo[s] ==> PaddedOf(x, s)
  }

  /** The cutoff of calendar key `ck` (an invalid date where the key is not recognised). */
  function Cutoff(ck: string): Instant {
    var seen := ScopeKeyToDate(Some(ck));
    if seen.Ok? then seen.value else InvalidDate
  }

  /** What stays under a cutoff stays under any later one. */
  lemma RemainsNarrows(a: string, b: string)
    requires NotLater(a, b)
    ensures forall u :: Remains(Cutoff(a))(u) ==> Remains(Cutoff(b))(u)
  {
  }

  /** One quarter of the walk: narrow the working copy by the quarter's cutoff and compute the
      quarter's entry. The working copy is the original records filtered by the cutoff of the
      previous key, which is no earlier than this one's. */
  method Step(data: seq<Record>, groupResult: seq<KeyValue.Tagged>, c: Calc, memo: map<Scope, seq<string>>,
              filtered: seq<Record>, desc: seq<string>, i: nat)
    returns (r: Result<Option<Outcome>>, rest: seq<Record>)
    requires i < |desc|
    requires i == 0 ==> filtered == data
    requires i > 0 ==> NotLater(desc[i], desc[i - 1]) && filtered == Filter(data, Remains(Cutoff(desc[i - 1])))
    ensures r == EntryFn(data, groupResult, c, memo)(desc[i])
    ensures r.Ok? ==> rest == Filter(data, Remains(Cutoff(desc[i])))
  {
    var ck := desc[i];
    rest := [];
    var seen :- ScopeKeyToDate(Some(ck));
    rest := Filter(filtered, Remains(seen));
    if i > 0 {
      RemainsNarrows(ck, desc[i - 1]);
      FilterNarrow(data, Remains(Cutoff(desc[i - 1])), Remains(seen));
    }
    r := QuarterEntry(rest, groupResult, c, seen, memo);
  }

  /** The body of the `forEach` once the working copy is narrowed. */
  method QuarterEntry(filteredData: seq<Record>, groupResult: seq<KeyValue.Tagged>, c: Calc, seen: Instant,
                      memo: map<Scope, seq<string>>) returns (r: Result<Option<Outcome>>)
    ensures r == EntryFrom(filteredData, groupResult, c, seen, memo)
  {
    if filteredData == [] {
      return Err("TypeError: Cannot read property 'fk' of undefined");
    }
    var maxKey :- MaxKeyOf(c, filteredData[|filteredData| - 1]);
    var kv :- KeyValue.GroupToKeyValue(groupResult, seen, maxKey, KeyValue.Defaults, memo);
    r := GrowthIn(c, kv);
  }

  /** The calculators' body: the calendar keys newest first, the fiscal groups, then the walk. */
  method GrowthByQuarter(data: seq<Record>, c: Calc, memo: map<Scope, seq<string>>) returns (r: Result<Growths>)
    requires SeenValid(data) && PaddedWindows(memo)
    ensures r == GrowthByQuarterOf(data, c, memo)
  {
    var cks :- KeyValue.CalendarKeys(data, Quarterly, memo);
    var groupResult :- KeyValue.Grouped(data, GroupScope(c), KeyValue.FiscalMode);
    CalendarKeysDescend(data, memo);
    r := WalkQuarters(data, groupResult, c, memo, Reversed(cks));
  }

  /** The `forEach`: `filteredData` is narrowed in place quarter by quarter, newest first, and
      each quarter's entry is written to the result. */
  method WalkQuarters(data: seq<Record>, groupResult: seq<KeyValue.Tagged>, c: Calc, memo: map<Scope, seq<string>>,
                      desc: seq<string>) returns (r: Result<Growths>)
    requires CutoffsDescend(desc)
    ensures r == Entries(desc, EntryFn(data, groupResult, c, memo))
  {
    var filteredData := data;
    var result: Growths := JsObject.Empty();
    var i := 0;
    assert desc[..0] == [];
    while i < |desc|
      invariant 0 <= i <= |desc|
      invariant Entries(desc[..i], EntryFn(data, groupResult, c, memo)) == Ok(result)
      invariant i == 0 ==> filteredData == data
      invariant i > 0 ==> filteredData == Filter(data, Remains(Cutoff(desc[i - 1])))
    {
      if i > 0 {
        assert NotLater(desc[i], desc[i - 1]);
      }
      var e, rest := Step(data, groupResult, c, memo, filteredData, desc, i);
      Advance(desc, i, EntryFn(data, groupResult, c, memo), result, e);
      if e.Err? {
        return Err(e.msg);
      }
      result := JsObject.Put(result, desc[i], e.value);
      filteredData := rest;
      i := i + 1;
    }
    assert desc[..i] == desc;
    r := Ok(result);
  }

  // ---------------------------------------------------------------------------------------
  // Properties

  /** One more key: its entry is added, or its error ends the fold. */
  lemma EntriesSnoc(cks: seq<string>, ck: string, entry: string -> Result<Option<Outcome>>)
    ensures Entries(cks, entry).Ok? && entry(ck).Ok? ==>
      Entries(cks + [ck], entry) == Ok(JsObject.Put(Entries(cks, entry).value, ck, entry(ck).value))
    ensures Entries(cks, entry).Ok? && entry(ck).Err? ==> Entries(cks + [ck], entry) == Err(entry(ck).msg)
  {
    assert (cks + [ck])[..|cks|] == cks;
  }

  /** The fold one key further: the key's entry is added, or its error is the whole fold's. */
  lemma Advance(cks: seq<string>, i: nat, entry: string -> Result<Option<Outcome>>, acc: Growths,
                e: Result<Option<Outcome>>)
    requires i < |cks| && Entries(cks[..i], entry) == Ok(acc) && e == entry(cks[i])
    ensures e.Ok? ==> Entries(cks[..i + 1], entry) == Ok(JsObject.Put(acc, cks[i], e.value))
    ensures e.Err? ==> Entries(cks, entry) == Err(e.msg)
  {
    assert cks[..i + 1] == cks[..i] + [cks[i]];
    EntriesSnoc(cks[..i], cks[i], entry);
    if e.Err? {
      EntriesStop(cks, entry, i + 1);
    }
  }

  /** Once a prefix of the keys fails, the whole fold fails with the same error. */
  lemma {:induction false} EntriesStop(cks: seq<string>, entry: string -> Result<Option<Outcome>>, j: nat)
    requires 0 < j <= |cks| && Entries(cks[..j], entry).Err?
    ensures Entries(cks, entry) == Entries(cks[..j], entry)
    decreases |cks|
  {
    if j < |cks| {
      var init := cks[..|cks| - 1];
      assert init[..j] == cks[..j];
      EntriesStop(init, entry, j);
    } else {
      assert cks[..j] == cks;
    }
  }

  /** The fold fails exactly when the entry of some key fails. */
  lemma {:induction false} EntriesFail(cks: seq<string>, entry: string -> Result<Option<Outcome>>)
    ensures Entries(cks, entry).Ok? <==> forall i :: 0 <= i < |cks| ==> entry(cks[i]).Ok?
    decreases |cks|
  {
    if cks != [] {
      var init, ck := cks[..|cks| - 1], cks[|cks| - 1];
      assert cks == init + [ck];
      EntriesFail(init, entry);
      EntriesSnoc(init, ck, entry);
      assert forall i :: 0 <= i < |init| ==> init[i] == cks[i];
    }
  }

  /** A successful fold lists the keys in the order walked, each holding its own entry. */
  lemma {:induction false} EntriesListed(cks: seq<string>, entry: string -> Result<Option<Outcome>>)
    requires forall i, j :: 0 <= i < j < |cks| ==> cks[i] != cks[j]
    ensures Entries(cks, entry).Ok? ==> JsObject.Valid(Entries(cks, entry).value)
    ensures Entries(cks, entry).Ok? ==> Entries(cks, entry).value.keys == cks
    decreases |cks|
  {
    if cks != [] {
      var init, ck := cks[..|cks| - 1], cks[|cks| - 1];
      EntriesListed(init, entry);
      EntriesSnoc(init, ck, entry);
      var acc := Entries(init, entry);
      if acc.Ok? && entry(ck).Ok? {
        JsObject.PutValid(acc.value, ck, entry(ck).value);
        assert cks == init + [ck];
        assert ck !in init by {
          assert forall i :: 0 <= i < |init| ==> init[i] == cks[i];
        }
      }
    }
  }

  /** The entry under each calendar key is that key's growth. */
  lemma {:induction false} EntryListed(cks: seq<string>, entry: string -> Result<Option<Outcome>>, i: nat)
    requires i < |cks| && forall a, b :: 0 <= a < b < |cks| ==> cks[a] != cks[b]
    ensures Entries(cks, entry).Ok? ==>
      entry(cks[i]).Ok? && cks[i] in Entries(cks, entry).value.at && Entries(cks, entry).value.at[cks[i]] == entry(cks[i]).value
    decreases |cks|
  {
    var n := |cks| - 1;
    var init := cks[..n];
    EntriesSnoc(init, cks[n], entry);
    assert cks == init + [cks[n]];
    if i < n && Entries(init, entry).Ok? {
      assert init[i] == cks[i];
      EntryListed(init, entry, i);
    }
  }

  /** A padded key that sorts before another of the same scope ends no later. */
  lemma PaddedLessIsEarlier(x: string, y: string, s: Scope)
    requires PaddedOf(x, s) && PaddedOf(y, s) && Lex.Less(x, y)
    ensures NotLater(x, y)
  {
    var kx, ky := ParseKey(x).value, ParseKey(y).value;
    ScopeKeyLemmas.PaddedOrderIsChronological(kx, ky);
    ScopeKeyLemmas.KeyOfEndDate(ky);
    ScopeKeyLemmas.KeyOfEndDate(kx);
    PeriodMembership(kx, EndDate(ky));
  }

  /** Padded keys of one scope in ascending order, reversed: every cutoff is a calendar day no
      later than the one before it. */
  lemma ReversedCutoffsDescend(asc: seq<string>, s: Scope)
    requires KeyRange.StrictlySorted(asc) && forall x :: x in asc ==> PaddedOf(x, s)
    ensures CutoffsDescend(Reversed(asc))
  {
    var desc := Reversed(asc);
    forall i, j | 0 <= i < j < |desc| ensures NotLater(desc[j], desc[i]) {
      SortedPairEarlier(asc, s, |asc| - 1 - j, |asc| - 1 - i);
    }
  }

  lemma SortedPairEarlier(asc: seq<string>, s: Scope, a: nat, b: nat)
    requires KeyRange.StrictlySorted(asc) && forall x :: x in asc ==> PaddedOf(x, s)
    requires a < b < |asc|
    ensures NotLater(asc[a], asc[b])
  {
    PaddedLessIsEarlier(asc[a], asc[b], s);
  }

  /** Two or more calendar keys come from the window of one scope, so they are padded keys of
      that scope in ascending order. */
  lemma CalendarKeysPadded(data: seq<Record>, memo: map<Scope, seq<string>>) returns (s: Scope)
    requires SeenValid(data) && PaddedWindows(memo)
    ensures var r := KeyValue.CalendarKeys(data, Quarterly, memo);
      r.Ok? && |r.value| >= 2 ==> KeyRange.StrictlySorted(r.value) && forall x :: x in r.value ==> PaddedOf(x, s)
  {
    s := Quarterly;
    var r := KeyValue.CalendarKeys(data, Quarterly, memo);
    if r.Ok? && |r.value| >= 2 {
      var startKey := Render(KeyOf(data[0].seen, Quarterly));
      var endKey := Render(KeyOf(data[|data| - 1].seen, Quarterly));
      var a, b := NormalizeKey(startKey), NormalizeKey(endKey);
      var scope := ScopeKeyType(Some(a));
      var w: seq<string> := if scope.Some? && scope.value in memo then memo[scope.value] else [];
      assert r == KeyRange.KeysInRangeOver(startKey, endKey, w);
      Lex.Total(a, b);
      assert r.value[0] in w;
      s := scope.value;
    }
  }

  /** The quarterly calendar keys of a series, over windows of padded keys, reversed: every
      cutoff is a calendar day no later than the one before it. */
  lemma CalendarKeysDescend(data: seq<Record>, memo: map<Scope, seq<string>>)
    requires SeenValid(data) && PaddedWindows(memo)
    ensures KeyValue.CalendarKeys(data, Quarterly, memo).Ok? ==>
      CutoffsDescend(Reversed(KeyValue.CalendarKeys(data, Quarterly, memo).value))
  {
    var r := KeyValue.CalendarKeys(data, Quarterly, memo);
    var s := CalendarKeysPadded(data, memo);
    if r.Ok? && |r.value| >= 2 {
      ReversedCutoffsDescend(r.value, s);
    }
  }

  /** The windows of a valid memo, filled before the year 10000, are padded windows. */
  lemma FilledWindowsArePadded(keys: map<Scope, seq<string>>, filledAt: map<Scope, Date>)
    requires KeyRange.ValidMemo(keys, filledAt)
    requires forall s :: s in filledAt ==> filledAt[s].year <= 9999
    ensures PaddedWindows(keys)
  {
    forall s | s in keys
      ensures KeyRange.StrictlySorted(keys[s]) && forall x :: x in keys[s] ==> PaddedOf(x, s)
    {
      if |keys[s]| > 0 {
        var now := filledAt[s];
        var ps := KeyRange.PeriodsFrom(KeyOf(KeyRange.StartOfMemo, s), now);
        KeyRange.WindowElements(s, now);
        KeyRange.WindowSorted(s, now);
        forall x | x in keys[s] ensures PaddedOf(x, s) {
          var i :| 0 <= i < |keys[s]| && keys[s][i] == x;
          ScopeKeyLemmas.ParseRender(ps[i]);
        }
      }
    }
  }

  /** A filled dictionary whose last key `s` is the key of the valid period `e` compares the
      value at `s` with the value at the key of the period `Back(c)` periods before `e`. */
  lemma GrowthLooksBack(c: Calc, kv: KeyValue.KeyValues, s: string, e: Key)
    requires LastKey(c, kv.keys) == Some(s) && ParseKey(s) == Some(e) && ValidKey(e)
    ensures GrowthIn(c, kv) == Ok(OutcomeOf(c, KeyValue.NumberAt(kv, Some(s)),
      KeyValue.NumberAt(kv, Some(Render(KeyArith.Shift(e, -Back(c)))))))
  {
    KeyArith.SubtractBy(Some(s), Back(c), e);
    GrowthInBack(c, kv, Some(s), Render(KeyArith.Shift(e, -Back(c))));
  }

  /** GrowthIn once the key `Back(c)` periods before the last key is known. */
  lemma GrowthInBack(c: Calc, kv: KeyValue.KeyValues, last: Option<string>, back: string)
    requires LastKey(c, kv.keys) == last
    requires KeyArith.SubtractScopeKey(last, Some(Back(c))) == Ok(Some(back))
    ensures GrowthIn(c, kv) == Ok(OutcomeOf(c, KeyValue.NumberAt(kv, last), KeyValue.NumberAt(kv, Some(back))))
  {
  }

  /** The sign guard is one-sided: a fall from a positive to a negative value has a rate, a
      rise from a negative to a positive value has none, and a fall between two negative values
      has a positive rate. */
  lemma SignGuardIsOneSided()
    ensures GrowthRate(Some(-1.0), Some(1.0)) == Some(-2.0)
    ensures GrowthRate(Some(1.0), Some(-1.0)) == None
    ensures GrowthRate(Some(-2.0), Some(-1.0)) == Some(1.0)
  {
  }

  /** On keys that strictly ascend, as every filled range does, the largest key and the last
      key coincide: lastQGrowth's `.sort()` and the CAGRs' insertion order pick the same key. */
  lemma LastKeyOfSorted(keys: seq<string>, c: Calc, d: Calc)
    requires KeyRange.StrictlySorted(keys)
    ensures LastKey(c, keys) == LastKey(d, keys)
  {
    if keys != [] {
      var m := KeyValue.MaxKey(keys);
      var last := keys[|keys| - 1];
      var i :| 0 <= i < |keys| && keys[i] == m;
      if i < |keys| - 1 {
        assert Lex.Less(m, last);
        assert Lex.LessEq(last, m);
        Lex.Irreflexive(m);
        Lex.Asymmetric(m, last);
      }
    }
  }
}
