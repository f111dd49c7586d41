/** The raw value object of a formula (`{ _type, value }` for a timeless value,
    `{ _type, _values: [{ v, ck, fk, seen, ed, meta }] }` otherwise): util.setValue writes one
    value into it, util.getFiscalValue reads one back by fiscal key. */
module RawValues {
  import opened Wrappers
  import opened Calendar
  import opened ScopeKeys
  import opened Records

  /** The `meta` argument of setValue: its `ed` property and the others. */
  datatype Meta<V> = Meta(ed: Option<Date>, fields: map<string, V>)

  /** One stored value, keyed by its calendar key `ck`. */
  datatype Entry<V> = Entry(v: V, ck: string, fk: Option<string>, seen: Option<Date>,
                            ed: Option<Date>, meta: Meta<V>)

  /** What `_getValue` answers: a value (null when absent), or the whole object when it has
      no `_type`. */
  datatype Lookup<V> = Value(v: Option<V>) | Whole

  /** `val.ck === ck`, the test of setValue's `_.find`. */
  function HasCk<V>(ck: string): Entry<V> -> bool {
    (e: Entry<V>) => e.ck == ck
  }

  /** `val.fk === fk`, the test of getFiscalValue's `_.find`. */
  function HasFk<V>(fk: Option<string>): Entry<V> -> bool {
    (e: Entry<V>) => e.fk == fk
  }

  /** An entry after setValue wrote into it: `ed` moves over from `meta` when `meta` has one,
      and is kept otherwise; the stored `meta` no longer has `ed`. */
  function Written<V>(target: Entry<V>, val: V, ck: string, fk: Option<string>, seen: Option<Date>,
                      meta: Meta<V>): Entry<V>
  {
    Entry(val, ck, fk, seen, if meta.ed.Some? then meta.ed else target.ed, Meta(None, meta.fields))
  }

  /** The `_values` array after setValue: the first entry with calendar key `ck` is rewritten
      in place, or a new entry is appended when there is none. */
  function Upsert<V>(values: seq<Entry<V>>, val: V, ck: string, fk: Option<string>, seen: Option<Date>,
                     meta: Meta<V>): (r: seq<Entry<V>>)
    ensures FirstIndex(values, HasCk(ck), 0).None? ==> |r| == |values| + 1 && r[..|values|] == values
    ensures FirstIndex(values, HasCk(ck), 0).Some? ==> |r| == |values|
    ensures forall j :: 0 <= j < |values| && values[j].ck != ck ==> r[j] == values[j]
    ensures FirstIndex(r, HasCk(ck), 0).Some? && var e := r[FirstIndex(r, HasCk(ck), 0).value];
      e.v == val && e.ck == ck && e.fk == fk && e.seen == seen && e.meta == Meta(None, meta.fields)
      && (meta.ed.Some? ==> e.ed == meta.ed)
  {
    match FirstIndex(values, HasCk(ck), 0)
    case Some(i) =>
      var r := values[i := Written(values[i], val, ck, fk, seen, meta)];
      assert FirstIndex(r, HasCk(ck), 0) == Some(i) by {
        assert r[i].ck == ck;
        assert forall j :: 0 <= j < i ==> r[j] == values[j];
      }
      r
    case None =>
      var r := values + [Written(Entry(val, ck, fk, seen, None, Meta(None, map[])), val, ck, fk, seen, meta)];
      assert r[..|values|] == values;
      assert FirstIndex(r, HasCk(ck), 0) == Some(|values|) by {
        assert r[|values|].ck == ck;
        assert forall j :: 0 <= j < |values| ==> r[j] == values[j];
      }
      r
  }

  /** The `_.find` on `ck` and the write of setValue: the entry found is updated in place,
      or a fresh one is pushed. */
  method WriteEntry<V>(current: seq<Entry<V>>, val: V, ck: string, fk: Option<string>, seen: Option<Date>,
                       meta: Meta<V>) returns (updated: seq<Entry<V>>)
    ensures updated == Upsert(current, val, ck, fk, seen, meta)
  {
    var found := FirstIndex(current, HasCk(ck), 0);
    var target := if found.Some? then current[found.value] else Entry(val, ck, fk, seen, None, Meta(None, map[]));
    var written := Written(target, val, ck, fk, seen, meta);
    updated := if found.Some? then current[found.value := written] else current + [written];
  }

  /** No two entries share a calendar key. */
  ghost predicate DistinctCks<V>(values: seq<Entry<V>>) {
    forall i, j :: 0 <= i < j < |values| ==> values[i].ck != values[j].ck
  }

  /** Writing by calendar key keeps the calendar keys of the entries distinct. */
  lemma UpsertKeepsUnique<V>(values: seq<Entry<V>>, val: V, ck: string, fk: Option<string>, seen: Option<Date>,
                             meta: Meta<V>)
    ensures DistinctCks(values) ==> DistinctCks(Upsert(values, val, ck, fk, seen, meta))
  {
  }

  /** A formula's raw value object. `typ` is `_type`: None until set, and None again when
      setValue is given a calendar key no key pattern recognises. */
  class RawValue<V> {
    var typ: Option<Scope>
    var value: Option<V>
    var values: Option<seq<Entry<V>>>

    constructor ()
      ensures typ == None && value == None && values == None
    {
      typ, value, values := None, None, None;
    }

    /** Calendar keys identify entries: no two entries share a `ck`. */
    ghost predicate UniqueCk()
      reads this
    {
      values.Some? ==> DistinctCks(values.value)
    }

    /** util.setValue(obj, scope, fiscalKey, calendarKey, seen, val, meta): a null calendar key
        stores a timeless value; any other key sets `_type` to the key's scope and upserts the
        entry keyed by the calendar key. Returns the updated `meta` (without `ed`). */
    method SetValue(fiscalKey: Option<string>, calendarKey: Option<string>, seen: Option<Date>,
                    val: V, meta: Meta<V>) returns (metaAfter: Meta<V>)
      modifies this
      ensures calendarKey.None? ==>
        typ == Some(Timeless) && value == Some(val) && values == old(values) && metaAfter == meta
      ensures calendarKey.Some? ==>
        && typ == ScopeKeyType(calendarKey) && value == old(value)
        && values == Some(Upsert(old(values).GetOr([]), val, calendarKey.value, fiscalKey, seen, meta))
        && metaAfter == Meta(None, meta.fields)
      ensures old(UniqueCk()) ==> UniqueCk()
    {
      metaAfter := meta;
      var scope := ScopeKeyType(calendarKey);
      if scope == Some(Timeless) {
        value := Some(val);
        typ := Some(Timeless);
      } else {
        var current := if values.None? then [] else values.value;
        UpsertKeepsUnique(current, val, calendarKey.value, fiscalKey, seen, meta);
        typ := scope;
        var updated := WriteEntry(current, val, calendarKey.value, fiscalKey, seen, meta);
        metaAfter := Meta(None, meta.fields);
        values := Some(updated);
      }
    }

    /** util.getFiscalValue(obj, null, fiscalKey): the timeless value, or the `v` of the first
        entry with that fiscal key (null when there is none), or the object itself when it has
        no `_type`; an object with a `_type` but no `_values` throws. */
    function GetFiscalValue(fiscalKey: Option<string>): (r: Result<Lookup<V>>)
      reads this
      ensures typ.None? <==> r == Ok(Whole)
      ensures typ == Some(Timeless) ==> r == Ok(Value(value))
      ensures typ.Some? && typ != Some(Timeless) && values.Some? ==>
        (r == Ok(Value(None)) <==> forall j :: 0 <= j < |values.value| ==> values.value[j].fk != fiscalKey)
      ensures typ.Some? && typ != Some(Timeless) && values.Some? ==>
        forall i ::
          (0 <= i < |values.value| && values.value[i].fk == fiscalKey &&
           forall j :: 0 <= j < i ==> values.value[j].fk != fiscalKey) ==>
          r == Ok(Value(Some(values.value[i].v)))
      ensures typ.Some? && typ != Some(Timeless) && values.None? ==> r.Err?
    {
      if typ.None? then Ok(Whole)
      else if typ == Some(Timeless) then Ok(Value(value))
      else if values.None? then Err("TypeError: Cannot read property 'find' of undefined")
      else
        match FirstIndex(values.value, HasFk(fiscalKey), 0)
        case None => Ok(Value(None))
        case Some(i) => Ok(Value(Some(values.value[i].v)))
    }
  }

  /** Writing a value and reading it back by its fiscal key gives the value, as long as no
      other calendar key's entry carries the same fiscal key. */
  lemma SetThenGetFiscal<V>(values: seq<Entry<V>>, val: V, ck: string, fk: Option<string>,
                            seen: Option<Date>, meta: Meta<V>)
    requires forall j :: 0 <= j < |values| && values[j].ck != ck ==> values[j].fk != fk
    ensures var r := Upsert(values, val, ck, fk, seen, meta);
      FirstIndex(r, HasFk(fk), 0).Some? && r[FirstIndex(r, HasFk(fk), 0).value].v == val
  {
    var r := Upsert(values, val, ck, fk, seen, meta);
    var i := FirstIndex(r, HasCk(ck), 0).value;
    assert r[i].fk == fk;
    var f := FirstIndex(r, HasFk(fk), 0).value;
    assert forall j :: 0 <= j < i ==> r[j].ck != ck && j < |values| && r[j] == values[j];
    assert f == i;
  }
}
