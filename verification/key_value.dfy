/** TFdata.toKeyValue, groupByScope and groupToKeyValue: the records of a series grouped by
    the key of a scope (calendar mode: the padded key of the period of `seen`; fiscal mode:
    the fiscal key converted to the scope), and a dictionary holding, for every key of the
    range from the smallest group key to the largest (or to the key of `fillToDate`), the
    first or last usable record of that group, a forward-filled one, or null. */
module KeyValue {
  import opened Wrappers
  import opened Calendar
  import opened ScopeKeys
  import opened Records
  import JsObject
  import KeyRange
  import KeyArith
  import ScopeKeyLemmas
  import Digits
  import Lex

  /** The `mode` argument: 'calendar', 'fiscal' or anything else. */
  datatype Mode = CalendarMode | FiscalMode | OtherMode(name: string)

  /** The options after `Object.assign` over the defaults (preferFirst false, lean true,
      forwardFill false, no fillToDate). */
  datatype Options = Options(preferFirst: bool, lean: bool, forwardFill: bool, fillToDate: Option<Date>)

  const Defaults: Options := Options(false, true, false, None)

  /** A record with the `group` property added (`{ ...datum, group }`). */
  datatype Tagged = Tagged(rec: Record, group: Option<string>)

  /** A dictionary entry: the bare `v` (lean), the whole grouped record, or the value of a
      timeless series. */
  datatype Cell = Lean(v: Option<real>) | Full(t: Tagged) | Scalar(x: Option<real>)

  type KeyValues = JsObject.Obj<Option<Cell>>

  // ---------------------------------------------------------------------------------------
  // Grouping

  /** The group of one record, as the `map` of the chosen mode computes it. */
  function GroupOf(rec: Record, scope: Scope, mode: Mode): (r: Result<Option<string>>)
    requires Valid(rec.seen) && !mode.OtherMode?
    ensures mode == CalendarMode ==> r == Ok(DateToNormalizeScopeKey(rec.seen, scope))
    ensures mode == FiscalMode ==> r == ConvertKey(rec.fk, scope)
    ensures scope == Timeless && r.Ok? ==> r.value.None?
  {
    if mode == CalendarMode then Ok(DateToNormalizeScopeKey(rec.seen, scope))
    else ConvertKey(rec.fk, scope)
  }

  /** The records in order, each with its group; the first record whose fiscal key cannot be
      converted throws. */
  function TagAll(data: seq<Record>, scope: Scope, mode: Mode): (r: Result<seq<Tagged>>)
    requires SeenValid(data) && !mode.OtherMode?
    ensures r.Ok? <==> forall i :: 0 <= i < |data| ==> GroupOf(data[i], scope, mode).Ok?
    ensures r.Ok? ==> |r.value| == |data|
    ensures r.Ok? ==> forall i :: 0 <= i < |data| ==> r.value[i] == Tagged(data[i], GroupOf(data[i], scope, mode).value)
  {
    if data == [] then Ok([])
    else
      var g :- GroupOf(data[0], scope, mode);
      var rest :- TagAll(data[1..], scope, mode);
      assert forall i :: 1 <= i < |data| ==> data[1..][i - 1] == data[i];
      Ok([Tagged(data[0], g)] + rest)
  }

  /** The `switch (mode)` and `map` shared by toKeyValue and groupByScope; the `groupBy` that
      follows is kept implicit: the group of key `k` is the tagged records whose group is `k`. */
  function Grouped(data: seq<Record>, scope: Scope, mode: Mode): (r: Result<seq<Tagged>>)
    requires SeenValid(data)
    ensures mode.OtherMode? ==> r.Err?
    ensures !mode.OtherMode? ==> r == TagAll(data, scope, mode)
  {
    if mode.OtherMode? then Err("Error: Unsupported mode (" + mode.name + ")")
    else TagAll(data, scope, mode)
  }

  /** The non-null group keys, in record order, possibly repeated
      (`Object.keys(groupByKey).filter(key => key !== 'null')`). */
  function GroupNames(tagged: seq<Tagged>): (r: seq<string>)
    ensures forall x :: x in r <==> exists i :: 0 <= i < |tagged| && tagged[i].group == Some(x)
    ensures r == [] <==> forall i :: 0 <= i < |tagged| ==> tagged[i].group.None?
  {
    if tagged == [] then []
    else
      var rest := GroupNames(tagged[1..]);
      assert forall i :: 1 <= i < |tagged| ==> tagged[1..][i - 1] == tagged[i];
      (if tagged[0].group.Some? then [tagged[0].group.value] else []) + rest
  }

  /** `keys[0]` of the sorted key set: the smallest name. */
  function MinKey(names: seq<string>): (m: string)
    requires names != []
    ensures m in names && forall i :: 0 <= i < |names| ==> Lex.LessEq(m, names[i])
  {
    if |names| == 1 then names[0]
    else
      var rest := MinKey(names[1..]);
      assert forall i :: 1 <= i < |names| ==> names[1..][i - 1] == names[i];
      Lex.Total(names[0], rest);
      if Lex.Less(names[0], rest) then
        forall i | 1 <= i < |names| ensures Lex.LessEq(names[0], names[i]) {
          Lex.LessEqTransitive(names[0], rest, names[i]);
        }
        names[0]
      else rest
  }

  /** `keys[keys.length - 1]` of the sorted key set: the largest name. */
  function MaxKey(names: seq<string>): (m: string)
    requires names != []
    ensures m in names && forall i :: 0 <= i < |names| ==> Lex.LessEq(names[i], m)
  {
    if |names| == 1 then names[0]
    else
      var rest := MaxKey(names[1..]);
      assert forall i :: 1 <= i < |names| ==> names[1..][i - 1] == names[i];
      Lex.Total(names[0], rest);
      if Lex.Less(rest, names[0]) then
        forall i | 1 <= i < |names| ensures Lex.LessEq(names[i], names[0]) {
          Lex.LessEqTransitive(names[i], rest, names[0]);
        }
        names[0]
      else rest
  }

  /** The end key of toKeyValue: the largest group key, or the loose key of `fillToDate` when
      one is given, raised to the smallest group key when it sorts before it. */
  function EndKey(names: seq<string>, fillToDate: Option<Date>, scope: Scope): (r: Option<string>)
    requires names != [] && (fillToDate.Some? ==> Valid(fillToDate.value))
    ensures fillToDate.None? ==> r == Some(MaxKey(names))
    ensures fillToDate.Some? && scope != Timeless ==>
      var k := Render(KeyOf(fillToDate.value, scope));
      r == Some(if Lex.Less(k, MinKey(names)) then MinKey(names) else k)
    ensures r.Some? ==> Lex.LessEq(MinKey(names), r.value)
  {
    var key := if fillToDate.Some? then DateToScopeKey(At(fillToDate.value), scope) else Some(MaxKey(names));
    assert fillToDate.None? ==> !Lex.Less(MaxKey(names), MinKey(names)) by {
      Lex.Irreflexive(MinKey(names));
      Lex.Asymmetric(MinKey(names), MaxKey(names));
    }
    if key.None? then None
    else if Lex.Less(key.value, MinKey(names)) then Some(MinKey(names))
    else
      Lex.Total(key.value, MinKey(names));
      key
  }

  /** getCalendarKeys(scope) over a list of records: the keys of `keysInRange` from the loose
      key of the first record's `seen` to that of the last record's; none for no records; the
      timeless scope has no key to start from (a TypeError). */
  function CalendarKeys(data: seq<Record>, scope: Scope, memo: map<Scope, seq<string>>): (r: Result<seq<string>>)
    requires SeenValid(data)
    ensures data == [] ==> r == Ok([])
    ensures data != [] && scope == Timeless ==> r.Err?
    ensures data != [] && scope != Timeless ==>
      r == KeyRange.KeysInRangeIn(memo, Render(KeyOf(data[0].seen, scope)), Render(KeyOf(data[|data| - 1].seen, scope)))
  {
    if data == [] then Ok([])
    else
      var firstKey := DateToScopeKey(At(data[0].seen), scope);
      var lastKey := DateToScopeKey(At(data[|data| - 1].seen), scope);
      if firstKey.None? || lastKey.None? then Err("TypeError: Cannot read property 'match' of null")
      else KeyRange.KeysInRangeIn(memo, firstKey.value, lastKey.value)
  }

  // ---------------------------------------------------------------------------------------
  // Picking a record for a key

  /** `JS <=` between a record's `seen` and the cutoff of groupToKeyValue: a null cutoff
      converts to the epoch, an invalid date compares false. */
  predicate SeenNotAfter(seen: Date, cutoff: Instant) {
    match cutoff
    case At(d) => NotAfter(seen, d)
    case NoDate => NotAfter(seen, Epoch)
    case InvalidDate => false
  }

  /** The records of group `key` that survive the filter: a non-null `v`, and for
      groupToKeyValue (a cutoff given) seen no later than the cutoff. */
  function Usable(key: string, cutoff: Option<Instant>): Tagged -> bool {
    (t: Tagged) => t.group == Some(key) && t.rec.v.Some? && (cutoff.None? || SeenNotAfter(t.rec.seen, cutoff.value))
  }

  /** `options.preferFirst ? _.first(values) : _.last(values)`, null when no record of the
      group survives. */
  function Pick(tagged: seq<Tagged>, key: string, cutoff: Option<Instant>, preferFirst: bool): Option<Tagged> {
    var values := Filter(tagged, Usable(key, cutoff));
    if values == [] then None
    else if preferFirst then Some(values[0])
    else Some(values[|values| - 1])
  }

  /** The pick is the first usable record of the group, in record order, or the last. */
  lemma PickIsFirstOrLast(tagged: seq<Tagged>, key: string, cutoff: Option<Instant>, preferFirst: bool)
    ensures var r := Pick(tagged, key, cutoff, preferFirst);
      && (preferFirst ==> r == match FirstIndex(tagged, Usable(key, cutoff), 0)
                               case None => None
                               case Some(i) => Some(tagged[i]))
      && (!preferFirst ==> r == match LastIndex(tagged, Usable(key, cutoff), |tagged|)
                                case None => None
                                case Some(i) => Some(tagged[i]))
  {
    if preferFirst {
      FilterHead(tagged, Usable(key, cutoff));
    } else {
      FilterTail(tagged, Usable(key, cutoff));
    }
  }

  /** `options.lean ? targetValue.v : targetValue` */
  function CellOf(t: Tagged, lean: bool): Cell {
    if lean then Lean(t.rec.v) else Full(t)
  }

  /** `forEach` skips these two keys. */
  predicate Skipped(key: string) {
    key == "undefined" || key == "null"
  }

  /** What the `forEach` body settles on for `key`: the pick of its group, or, forward filling
      when there is none, the last value placed. */
  function Target(tagged: seq<Tagged>, key: string, cutoff: Option<Instant>, options: Options,
                  last: Option<Tagged>): Option<Tagged>
  {
    var picked := Pick(tagged, key, cutoff, options.preferFirst);
    if picked.None? && options.forwardFill then last else picked
  }

  /** `kv[key] = null`, or the cell of the target. */
  function EntryOf(t: Option<Tagged>, lean: bool): Option<Cell> {
    if t.None? then None else Some(CellOf(t.value, lean))
  }

  /** The dictionary after the `forEach` body for `key`. */
  function StepKv(kv: KeyValues, last: Option<Tagged>, key: string, tagged: seq<Tagged>,
                  cutoff: Option<Instant>, options: Options): (r: KeyValues)
    requires JsObject.Valid(kv)
    ensures JsObject.Valid(r)
  {
    if Skipped(key) then kv
    else
      var e := EntryOf(Target(tagged, key, cutoff, options, last), options.lean);
      JsObject.PutValid(kv, key, e);
      JsObject.Put(kv, key, e)
  }

  /** `lastValue` after the `forEach` body for `key`. */
  function StepLast(last: Option<Tagged>, key: string, tagged: seq<Tagged>, cutoff: Option<Instant>,
                    options: Options): Option<Tagged>
  {
    if Skipped(key) then last
    else
      var t := Target(tagged, key, cutoff, options, last);
      if t.None? then last else t
  }

  /** The `forEach` over the filled keys, from dictionary `kv` and forward-fill source `last`. */
  function FillFrom(kv: KeyValues, last: Option<Tagged>, keys: seq<string>, tagged: seq<Tagged>,
                    cutoff: Option<Instant>, options: Options): (r: KeyValues)
    requires JsObject.Valid(kv)
    ensures JsObject.Valid(r)
    decreases |keys|
  {
    if keys == [] then kv
    else
      FillFrom(StepKv(kv, last, keys[0], tagged, cutoff, options), StepLast(last, keys[0], tagged, cutoff, options),
               keys[1..], tagged, cutoff, options)
  }

  /** The loop of toKeyValue and groupToKeyValue. */
  method FillKeys(keys: seq<string>, tagged: seq<Tagged>, cutoff: Option<Instant>, options: Options)
    returns (kv: KeyValues)
    ensures JsObject.Valid(kv)
    ensures kv == FillFrom(JsObject.Empty(), None, keys, tagged, cutoff, options)
  {
    kv := JsObject.Empty();
    var lastValue: Option<Tagged> := None;
    var i := 0;
    while i < |keys|
      invariant 0 <= i <= |keys| && JsObject.Valid(kv)
      invariant FillFrom(kv, lastValue, keys[i..], tagged, cutoff, options) == FillFrom(JsObject.Empty(), None, keys, tagged, cutoff, options)
    {
      assert keys[i..][0] == keys[i] && keys[i..][1..] == keys[i + 1..];
      kv, lastValue := FillStep(kv, lastValue, keys[i], tagged, cutoff, options);
      i := i + 1;
    }
    assert keys[i..] == [];
  }

  /** The body of the `forEach`: skip the two keys, pick, forward fill, store. */
  method FillStep(kv: KeyValues, lastValue: Option<Tagged>, key: string, tagged: seq<Tagged>,
                  cutoff: Option<Instant>, options: Options)
    returns (kv': KeyValues, lastValue': Option<Tagged>)
    requires JsObject.Valid(kv)
    ensures JsObject.Valid(kv')
    ensures kv' == StepKv(kv, lastValue, key, tagged, cutoff, options)
    ensures lastValue' == StepLast(lastValue, key, tagged, cutoff, options)
  {
    kv', lastValue' := kv, lastValue;
    if key == "undefined" || key == "null" {
      return;
    }
    var targetValue := Pick(tagged, key, cutoff, options.preferFirst);
    if targetValue.None? && options.forwardFill {
      targetValue := lastValue;
    }
    if targetValue.None? {
      kv' := JsObject.Put(kv, key, None);
    } else {
      kv' := JsObject.Put(kv, key, Some(CellOf(targetValue.value, options.lean)));
      lastValue' := targetValue;
    }
  }

  // ---------------------------------------------------------------------------------------
  // What the loop builds

  predicate Kept(key: string) {
    !Skipped(key)
  }

  /** A key holds a value of its own. */
  function HasPick(tagged: seq<Tagged>, cutoff: Option<Instant>, preferFirst: bool): string -> bool {
    (k: string) => !Skipped(k) && Pick(tagged, k, cutoff, preferFirst).Some?
  }

  /** What key `keys[j]` ends up holding: its own pick; or, forward filling, the pick of the
      latest earlier key that had one (`last` when none did); or null. */
  function Resolved(keys: seq<string>, j: nat, last: Option<Tagged>, tagged: seq<Tagged>,
                    cutoff: Option<Instant>, options: Options): Option<Cell>
    requires j < |keys|
  {
    var own := Pick(tagged, keys[j], cutoff, options.preferFirst);
    if own.Some? then Some(CellOf(own.value, options.lean))
    else if !options.forwardFill then None
    else Fallback(keys, j, last, tagged, cutoff, options)
  }

  /** The forward-filled entry before index `j`: the pick of the latest earlier key that had
      one, or `last`. */
  function Fallback(keys: seq<string>, j: nat, last: Option<Tagged>, tagged: seq<Tagged>,
                    cutoff: Option<Instant>, options: Options): Option<Cell>
    requires j <= |keys|
  {
    match LastIndex(keys, HasPick(tagged, cutoff, options.preferFirst), j)
    case Some(i) => EntryOf(Pick(tagged, keys[i], cutoff, options.preferFirst), options.lean)
    case None => EntryOf(last, options.lean)
  }

  predicate Distinct(keys: seq<string>) {
    forall i, j :: 0 <= i < j < |keys| ==> keys[i] != keys[j]
  }

  /** The dictionary lists the kept range keys, in range order, and each holds what
      `Resolved` says. */
  ghost predicate Describes(kv: KeyValues, keys: seq<string>, tagged: seq<Tagged>, cutoff: Option<Instant>,
                            options: Options)
  {
    && kv.keys == Filter(keys, Kept)
    && forall j :: 0 <= j < |keys| && Kept(keys[j]) ==>
         keys[j] in kv.at && kv.at[keys[j]] == Resolved(keys, j, None, tagged, cutoff, options)
  }

  /** Keys the loop does not visit keep what they held. */
  lemma {:induction false} FillKeepsOthers(kv: KeyValues, last: Option<Tagged>, keys: seq<string>, tagged: seq<Tagged>,
                                           cutoff: Option<Instant>, options: Options, k: string)
    requires JsObject.Valid(kv) && k !in keys
    ensures var r := FillFrom(kv, last, keys, tagged, cutoff, options);
      (k in r.at <==> k in kv.at) && (k in kv.at ==> r.at[k] == kv.at[k])
    decreases |keys|
  {
    if keys != [] {
      assert k !in keys[1..] by {
        assert forall x :: x in keys[1..] ==> x in keys;
      }
      FillKeepsOthers(StepKv(kv, last, keys[0], tagged, cutoff, options), StepLast(last, keys[0], tagged, cutoff, options),
                      keys[1..], tagged, cutoff, options, k);
    }
  }

  /** The dictionary lists the visited keys once each, in range order, after the keys it
      already had; `undefined` and `null` are left out. */
  lemma {:induction false} FillKeyOrder(kv: KeyValues, last: Option<Tagged>, keys: seq<string>, tagged: seq<Tagged>,
                                        cutoff: Option<Instant>, options: Options)
    requires JsObject.Valid(kv) && Distinct(keys)
    requires forall i :: 0 <= i < |keys| ==> keys[i] !in kv.at
    ensures FillFrom(kv, last, keys, tagged, cutoff, options).keys == kv.keys + Filter(keys, Kept)
    decreases |keys|
  {
    if keys == [] {
      assert kv.keys + Filter(keys, Kept) == kv.keys;
    } else {
      var key := keys[0];
      var kv' := StepKv(kv, last, key, tagged, cutoff, options);
      assert Filter(keys, Kept) == (if Kept(key) then [key] else []) + Filter(keys[1..], Kept);
      assert key !in kv.at;
      assert kv'.keys == kv.keys + (if Kept(key) then [key] else []);
      forall i | 0 <= i < |keys[1..]| ensures keys[1..][i] !in kv'.at {
        assert keys[1..][i] == keys[i + 1] != key;
      }
      assert Distinct(keys[1..]) by {
        assert forall i :: 1 <= i < |keys| ==> keys[1..][i - 1] == keys[i];
      }
      var last' := StepLast(last, key, tagged, cutoff, options);
      FillKeyOrder(kv', last', keys[1..], tagged, cutoff, options);
      assert FillFrom(kv, last, keys, tagged, cutoff, options) == FillFrom(kv', last', keys[1..], tagged, cutoff, options);
      var h := if Kept(key) then [key] else [];
      Associative(kv.keys, h, Filter(keys[1..], Kept));
    }
  }

  lemma Associative(a: seq<string>, b: seq<string>, c: seq<string>)
    ensures (a + b) + c == a + (b + c)
  {
  }

  /** Moving the start of the range one key on moves the latest earlier key with a value one
      index back. */
  lemma {:induction false} LastIndexTail(keys: seq<string>, p: string -> bool, j: nat)
    requires 0 < j <= |keys|
    ensures LastIndex(keys[1..], p, j - 1).Some? ==>
      LastIndex(keys, p, j) == Some(LastIndex(keys[1..], p, j - 1).value + 1)
    ensures LastIndex(keys[1..], p, j - 1).None? ==>
      LastIndex(keys, p, j) == (if p(keys[0]) then Some(0) else None)
    decreases j
  {
    if j > 1 {
      assert keys[1..][j - 2] == keys[j - 1];
      if !p(keys[j - 1]) {
        LastIndexTail(keys, p, j - 1);
      }
    }
  }

  /** What a later key resolves to does not change when the first key is consumed and its
      effect on `lastValue` is carried along. */
  lemma ResolvedTail(keys: seq<string>, j: nat, last: Option<Tagged>, tagged: seq<Tagged>,
                     cutoff: Option<Instant>, options: Options)
    requires 0 < j < |keys|
    ensures Resolved(keys[1..], j - 1, StepLast(last, keys[0], tagged, cutoff, options), tagged, cutoff, options)
         == Resolved(keys, j, last, tagged, cutoff, options)
  {
    assert keys[1..][j - 1] == keys[j];
    if options.forwardFill {
      FallbackTail(keys, j, last, tagged, cutoff, options);
    }
  }

  lemma FallbackTail(keys: seq<string>, j: nat, last: Option<Tagged>, tagged: seq<Tagged>,
                     cutoff: Option<Instant>, options: Options)
    requires 0 < j <= |keys| && options.forwardFill
    ensures Fallback(keys[1..], j - 1, StepLast(last, keys[0], tagged, cutoff, options), tagged, cutoff, options)
         == Fallback(keys, j, last, tagged, cutoff, options)
  {
    var hp := HasPick(tagged, cutoff, options.preferFirst);
    var last' := StepLast(last, keys[0], tagged, cutoff, options);
    assert last' == if hp(keys[0]) then Pick(tagged, keys[0], cutoff, options.preferFirst) else last;
    LastIndexTail(keys, hp, j);
    match LastIndex(keys[1..], hp, j - 1)
    case Some(i) =>
      assert keys[1..][i] == keys[i + 1];
    case None =>
  }

  /** Every visited key holds its own pick; forward filling, a key without one holds the pick
      of the latest earlier key that had one; otherwise null. */
  lemma {:induction false} FillValues(kv: KeyValues, last: Option<Tagged>, keys: seq<string>, tagged: seq<Tagged>,
                                      cutoff: Option<Instant>, options: Options, j: nat)
    requires JsObject.Valid(kv) && Distinct(keys) && j < |keys| && Kept(keys[j])
    ensures var r := FillFrom(kv, last, keys, tagged, cutoff, options);
      keys[j] in r.at && r.at[keys[j]] == Resolved(keys, j, last, tagged, cutoff, options)
    decreases |keys|
  {
    var key := keys[0];
    var kv' := StepKv(kv, last, key, tagged, cutoff, options);
    var last' := StepLast(last, key, tagged, cutoff, options);
    assert Distinct(keys[1..]) by {
      assert forall i :: 1 <= i < |keys| ==> keys[1..][i - 1] == keys[i];
    }
    if j == 0 {
      assert key !in keys[1..] by {
        forall i | 0 <= i < |keys[1..]| ensures keys[1..][i] != key {
          assert keys[1..][i] == keys[i + 1];
        }
      }
      FillKeepsOthers(kv', last', keys[1..], tagged, cutoff, options, key);
    } else {
      assert keys[1..][j - 1] == keys[j];
      FillValues(kv', last', keys[1..], tagged, cutoff, options, j - 1);
      ResolvedTail(keys, j, last, tagged, cutoff, options);
    }
  }

  /** The loop's dictionary over distinct keys is described by `Resolved`. */
  lemma FillDescribes(keys: seq<string>, tagged: seq<Tagged>, cutoff: Option<Instant>, options: Options)
    requires Distinct(keys)
    ensures Describes(FillFrom(JsObject.Empty(), None, keys, tagged, cutoff, options), keys, tagged, cutoff, options)
  {
    var e: KeyValues := JsObject.Empty();
    FillKeyOrder(e, None, keys, tagged, cutoff, options);
    assert e.keys + Filter(keys, Kept) == Filter(keys, Kept);
    forall j | 0 <= j < |keys| && Kept(keys[j])
      ensures keys[j] in FillFrom(e, None, keys, tagged, cutoff, options).at
      ensures FillFrom(e, None, keys, tagged, cutoff, options).at[keys[j]] == Resolved(keys, j, None, tagged, cutoff, options)
    {
      FillValues(e, None, keys, tagged, cutoff, options, j);
    }
  }

  // ---------------------------------------------------------------------------------------
  // toKeyValue, groupByScope, groupToKeyValue

  /** `kv[key]` as a number: the value of a lean entry. A null entry, a key that is not there
      and a null key all read as null; the other kinds of entry do not occur with the default
      options. */
  function NumberAt(kv: KeyValues, key: Option<string>): (r: Option<real>)
    ensures r.Some? ==> key.Some? && JsObject.Get(kv, key.value) == Some(Some(Lean(r)))
  {
    if key.None? then None
    else
      var entry: Option<Option<Cell>> := JsObject.Get(kv, key.value);
      if entry.Some? && entry.value.Some? && entry.value.value.Lean? then entry.value.value.v else None
  }

  /** The fill over a computed key range, or the range's error. */
  function FillRange(range: Result<seq<string>>, tagged: seq<Tagged>, cutoff: Option<Instant>, options: Options)
    : (r: Result<KeyValues>)
    ensures r.Ok? ==> JsObject.Valid(r.value)
  {
    match range
    case Err(e) => Err(e)
    case Ok(keys) => Ok(FillFrom(JsObject.Empty(), None, keys, tagged, cutoff, options))
  }

  /** toKeyValue for a series with records: group, find the smallest and the end key, fill the
      range between them. No group key gives `{}`; an unsupported mode, an unconvertible
      fiscal key or a key range across two scopes is an error. */
  function KeyValueOf(data: seq<Record>, scope: Scope, mode: Mode, options: Options,
                      memo: map<Scope, seq<string>>): (r: Result<KeyValues>)
    requires SeenValid(data) && (options.fillToDate.Some? ==> Valid(options.fillToDate.value))
    ensures r.Ok? ==> JsObject.Valid(r.value)
    ensures mode.OtherMode? ==> r.Err?
  {
    var tagged :- Grouped(data, scope, mode);
    var names := GroupNames(tagged);
    if names == [] then Ok(JsObject.Empty())
    else
      var maxKey := EndKey(names, options.fillToDate, scope);
      if maxKey.None? then Ok(JsObject.Empty())
      else
        FillRange(KeyRange.KeysInRangeIn(memo, MinKey(names), maxKey.value), tagged, None, options)
  }

  /** TFdata.groupToKeyValue(groupResult, { seen, maxKey }, options): the same fill over the
      range from the smallest group key to the given `maxKey`, counting only records seen no
      later than `seen`; no group key or a null `maxKey` gives `{}`. */
  function GroupToKeyValueOf(groupResult: seq<Tagged>, seen: Instant, maxKey: Option<string>, options: Options,
                             memo: map<Scope, seq<string>>): (r: Result<KeyValues>)
    ensures r.Ok? ==> JsObject.Valid(r.value)
    ensures GroupNames(groupResult) == [] || maxKey.None? || maxKey == Some("null") ==> r == Ok(JsObject.Empty())
  {
    var names := GroupNames(groupResult);
    if names == [] || maxKey.None? || maxKey == Some("null") then Ok(JsObject.Empty())
    else
      FillRange(KeyRange.KeysInRangeIn(memo, MinKey(names), maxKey.value), groupResult, Some(seen), options)
  }

  /** toKeyValue as the source computes it, with the `forEach` as a loop. */
  method ToKeyValue(data: seq<Record>, scope: Scope, mode: Mode, options: Options, memo: map<Scope, seq<string>>)
    returns (r: Result<KeyValues>)
    requires SeenValid(data) && (options.fillToDate.Some? ==> Valid(options.fillToDate.value))
    ensures r == KeyValueOf(data, scope, mode, options, memo)
  {
    var tagged :- Grouped(data, scope, mode);
    var names := GroupNames(tagged);
    if names == [] {
      return Ok(JsObject.Empty());
    }
    var maxKey := EndKey(names, options.fillToDate, scope);
    if maxKey.None? {
      return Ok(JsObject.Empty());
    }
    var filledKeys :- KeyRange.KeysInRangeIn(memo, MinKey(names), maxKey.value);
    var kv := FillKeys(filledKeys, tagged, None, options);
    r := Ok(kv);
  }

  /** groupToKeyValue as the source computes it. */
  method GroupToKeyValue(groupResult: seq<Tagged>, seen: Instant, maxKey: Option<string>, options: Options,
                         memo: map<Scope, seq<string>>)
    returns (r: Result<KeyValues>)
    ensures r == GroupToKeyValueOf(groupResult, seen, maxKey, options, memo)
  {
    var names := GroupNames(groupResult);
    if names == [] || maxKey.None? || maxKey == Some("null") {
      return Ok(JsObject.Empty());
    }
    var filledKeys :- KeyRange.KeysInRangeIn(memo, MinKey(names), maxKey.value);
    var kv := FillKeys(filledKeys, groupResult, Some(seen), options);
    r := Ok(kv);
  }

  // ---------------------------------------------------------------------------------------
  // Properties

  /** Only the timeless scope leaves every record without a group, so a non-empty series of
      any other scope always reaches the range. */
  lemma GroupsUnlessTimeless(data: seq<Record>, scope: Scope, mode: Mode)
    requires SeenValid(data) && Grouped(data, scope, mode).Ok?
    ensures scope == Timeless ==> GroupNames(Grouped(data, scope, mode).value) == []
    ensures scope != Timeless && mode == CalendarMode && data != [] ==>
      RenderPadded(KeyOf(data[0].seen, scope)) in GroupNames(Grouped(data, scope, mode).value)
  {
    var tagged := Grouped(data, scope, mode).value;
    if scope == Timeless {
      assert forall i :: 0 <= i < |tagged| ==> tagged[i].group.None?;
    }
    if scope != Timeless && mode == CalendarMode && data != [] {
      assert tagged[0].group == Some(RenderPadded(KeyOf(data[0].seen, scope)));
    }
  }

  /** The result of toKeyValue once grouping succeeded, some record has a group and the range
      is computed over windows whose keys strictly ascend: the dictionary lists exactly the
      kept keys of the range, in order, and each holds what `Resolved` says. */
  lemma KeyValueEntries(data: seq<Record>, scope: Scope, mode: Mode, options: Options, memo: map<Scope, seq<string>>)
    requires SeenValid(data) && (options.fillToDate.Some? ==> Valid(options.fillToDate.value))
    requires forall s :: s in memo ==> KeyRange.StrictlySorted(memo[s])
    requires Grouped(data, scope, mode).Ok?
    ensures var tagged := Grouped(data, scope, mode).value;
      var names := GroupNames(tagged);
      names != [] && EndKey(names, options.fillToDate, scope).Some? ==>
        var range := KeyRange.KeysInRangeIn(memo, MinKey(names), EndKey(names, options.fillToDate, scope).value);
        var r := KeyValueOf(data, scope, mode, options, memo);
        (r.Ok? <==> range.Ok?) && (r.Ok? ==> Describes(r.value, range.value, tagged, None, options))
  {
    var tagged := Grouped(data, scope, mode).value;
    var names := GroupNames(tagged);
    if names != [] && EndKey(names, options.fillToDate, scope).Some? {
      var range := KeyRange.KeysInRangeIn(memo, MinKey(names), EndKey(names, options.fillToDate, scope).value);
      assert KeyValueOf(data, scope, mode, options, memo) == FillRange(range, tagged, None, options);
      RangeSorted(memo, MinKey(names), EndKey(names, options.fillToDate, scope).value);
      FillRangeDescribes(range, tagged, None, options);
    }
  }

  /** The same for groupToKeyValue, whose picks count only records seen by the cutoff. */
  lemma GroupToKeyValueEntries(groupResult: seq<Tagged>, seen: Instant, maxKey: Option<string>, options: Options,
                               memo: map<Scope, seq<string>>)
    requires forall s :: s in memo ==> KeyRange.StrictlySorted(memo[s])
    requires GroupNames(groupResult) != [] && maxKey.Some? && maxKey != Some("null")
    ensures var range := KeyRange.KeysInRangeIn(memo, MinKey(GroupNames(groupResult)), maxKey.value);
      var r := GroupToKeyValueOf(groupResult, seen, maxKey, options, memo);
      (r.Ok? <==> range.Ok?) && (r.Ok? ==> Describes(r.value, range.value, groupResult, Some(seen), options))
  {
    var range := KeyRange.KeysInRangeIn(memo, MinKey(GroupNames(groupResult)), maxKey.value);
    RangeSorted(memo, MinKey(GroupNames(groupResult)), maxKey.value);
    FillRangeDescribes(range, groupResult, Some(seen), options);
  }

  /** keysInRange over ascending windows ascends. */
  lemma RangeSorted(memo: map<Scope, seq<string>>, a: string, b: string)
    requires forall s :: s in memo ==> KeyRange.StrictlySorted(memo[s])
    ensures KeyRange.KeysInRangeIn(memo, a, b).Ok? ==> KeyRange.StrictlySorted(KeyRange.KeysInRangeIn(memo, a, b).value)
  {
    var scope := ScopeKeyType(Some(NormalizeKey(a)));
    var w: seq<string> := if scope.Some? && scope.value in memo then memo[scope.value] else [];
    assert KeyRange.StrictlySorted(w);
  }

  lemma FillRangeDescribes(range: Result<seq<string>>, tagged: seq<Tagged>, cutoff: Option<Instant>, options: Options)
    requires range.Ok? ==> KeyRange.StrictlySorted(range.value)
    ensures var r := FillRange(range, tagged, cutoff, options);
      (r.Ok? <==> range.Ok?) && (r.Ok? ==> Describes(r.value, range.value, tagged, cutoff, options))
  {
    if range.Ok? {
      StrictlySortedDistinct(range.value);
      FillDescribes(range.value, tagged, cutoff, options);
    }
  }

  /** A strictly ascending key list has no repeats. */
  lemma StrictlySortedDistinct(keys: seq<string>)
    requires KeyRange.StrictlySorted(keys)
    ensures Distinct(keys)
  {
    forall i, j | 0 <= i < j < |keys| ensures keys[i] != keys[j] {
      Lex.Irreflexive(keys[i]);
    }
  }

  /** In fiscal mode at the monthly scope, a fiscal key for January to September written
      without a leading zero groups under itself, but keysInRange lists that month by its
      padded key: the record is never picked for its own month. */
  lemma FiscalMonthlyMissesLooseMonths(rec: Record, y: int, m: int, cutoff: Option<Instant>)
    requires 0 <= y <= 9999 && 1 <= m <= 9 && Valid(rec.seen)
    requires rec.fk == Some(Render(Month(y, m)))
    ensures GroupOf(rec, Monthly, FiscalMode) == Ok(Some(Render(Month(y, m))))
    ensures NormalizeKey(Render(Month(y, m))) == RenderPadded(Month(y, m))
    ensures !Usable(RenderPadded(Month(y, m)), cutoff)(Tagged(rec, GroupOf(rec, Monthly, FiscalMode).value))
  {
    var Y, t := YearText(y), Digits.Digits(m);
    ScopeKeyLemmas.YearTextFacts(y);
    ScopeKeyLemmas.ShortFields(m);
    ScopeKeyLemmas.SmallDigitsOne(m);
    assert Render(Month(y, m)) == Y + "-" + t;
    KeyArith.LooseMonthConverts(Y, t);
    KeyRange.NormalizeRendered(Month(y, m));
    assert |Render(Month(y, m))| == 6;
    assert RenderPadded(Month(y, m)) == Y + "-" + Digits.Pad(m, 2);
    assert |RenderPadded(Month(y, m))| == 7;
  }
}
