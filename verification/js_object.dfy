/** A plain JavaScript object used as a dictionary: string keys in insertion order and the
    value stored under each. Assigning to a key already present replaces its value and keeps
    its place; assigning to a new key appends it. */
module JsObject {
  import opened Wrappers

  datatype Obj<T> = Obj(keys: seq<string>, at: map<string, T>)

  /** The listed keys are exactly the stored ones, each listed once. */
  ghost predicate Valid<T>(o: Obj<T>) {
    && (forall k :: k in o.at <==> k in o.keys)
    && forall i, j :: 0 <= i < j < |o.keys| ==> o.keys[i] != o.keys[j]
  }

  /** `{}` */
  function Empty<T>(): (o: Obj<T>)
    ensures Valid(o) && o.keys == []
  {
    Obj([], map[])
  }

  /** `o[k] = v` */
  function Put<T>(o: Obj<T>, k: string, v: T): (r: Obj<T>)
    ensures Valid(o) ==> Valid(r)
    ensures r.at == o.at[k := v]
    ensures k in o.at ==> r.keys == o.keys
    ensures k !in o.at ==> r.keys == o.keys + [k]
  {
    if k in o.at then Obj(o.keys, o.at[k := v]) else Obj(o.keys + [k], o.at[k := v])
  }

  /** Assigning keeps every stored key listed exactly once. */
  lemma PutValid<T>(o: Obj<T>, k: string, v: T)
    requires Valid(o)
    ensures Valid(Put(o, k, v))
  {
  }

  /** The property name a key becomes: `null` is written as the string "null". */
  function KeyName(k: Option<string>): string {
    if k.Some? then k.value else "null"
  }

  /** `o[k]`, with `undefined` for a missing key. */
  function Get<T>(o: Obj<T>, k: string): Option<T> {
    if k in o.at then Some(o.at[k]) else None
  }
}
