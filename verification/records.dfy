/** The records of a TFdata series and `Array.prototype.filter` over them, with where the
    first, second and last elements of a filtered array come from. */
module Records {
  import opened Wrappers
  import opened Calendar

  /** One observation `{ v, seen, fk, ed, ck }`: the value (null allowed), the day it was seen,
      the fiscal key, the end date and the calendar key (written by getValuesForCalendarKey). */
  datatype Record = Record(v: Option<real>, seen: Date, fk: Option<string>, ed: Option<Date>,
                           ck: Option<string>)

  /** Every `seen` is a calendar day. */
  predicate SeenValid(data: seq<Record>) {
    forall i :: 0 <= i < |data| ==> Valid(data[i].seen)
  }

  /** `xs.filter(p)`: the elements satisfying `p`, in their order. */
  function Filter<T>(xs: seq<T>, p: T -> bool): (r: seq<T>)
    ensures |r| <= |xs|
    ensures forall i :: 0 <= i < |r| ==> p(r[i]) && r[i] in xs
  {
    if xs == [] then []
    else
      (if p(xs[0]) then [xs[0]] else []) + Filter(xs[1..], p)
  }

  lemma {:induction false} FilterAppend<T>(a: seq<T>, b: seq<T>, p: T -> bool)
    ensures Filter(a + b, p) == Filter(a, p) + Filter(b, p)
  {
    if a == [] {
      assert a + b == b;
    } else {
      assert (a + b)[0] == a[0] && (a + b)[1..] == a[1..] + b;
      FilterAppend(a[1..], b, p);
    }
  }

  /** The first index at or after `from` whose element satisfies `p`. */
  function FirstIndex<T>(xs: seq<T>, p: T -> bool, from: nat): (r: Option<nat>)
    ensures r.Some? ==> from <= r.value < |xs| && p(xs[r.value]) && forall j :: from <= j < r.value ==> !p(xs[j])
    ensures r.None? ==> forall j :: from <= j < |xs| ==> !p(xs[j])
    decreases |xs| - from
  {
    if from >= |xs| then None
    else if p(xs[from]) then Some(from)
    else FirstIndex(xs, p, from + 1)
  }

  /** The last index below `upto` whose element satisfies `p`. */
  function LastIndex<T>(xs: seq<T>, p: T -> bool, upto: nat): (r: Option<nat>)
    requires upto <= |xs|
    ensures r.Some? ==> r.value < upto && p(xs[r.value]) && forall j :: r.value < j < upto ==> !p(xs[j])
    ensures r.None? ==> forall j :: 0 <= j < upto ==> !p(xs[j])
  {
    if upto == 0 then None
    else if p(xs[upto - 1]) then Some(upto - 1)
    else LastIndex(xs, p, upto - 1)
  }

  /** Filtering a suffix starts with the first element of the suffix that satisfies `p`. */
  lemma {:induction false} FilterFrom<T>(xs: seq<T>, p: T -> bool, from: nat)
    requires from <= |xs|
    ensures FirstIndex(xs, p, from).None? ==> Filter(xs[from..], p) == []
    ensures FirstIndex(xs, p, from).Some? ==>
      Filter(xs[from..], p) == [xs[FirstIndex(xs, p, from).value]] + Filter(xs[FirstIndex(xs, p, from).value + 1..], p)
    decreases |xs| - from
  {
    var s := xs[from..];
    if from < |xs| {
      assert s[0] == xs[from] && s[1..] == xs[from + 1..];
      assert Filter(s, p) == (if p(xs[from]) then [xs[from]] else []) + Filter(xs[from + 1..], p);
      if !p(xs[from]) {
        FilterFrom(xs, p, from + 1);
        assert FirstIndex(xs, p, from) == FirstIndex(xs, p, from + 1);
      }
    } else {
      assert s == [];
    }
  }

  /** Filtering a prefix ends with the last element of the prefix that satisfies `p`. */
  lemma {:induction false} FilterUpTo<T>(xs: seq<T>, p: T -> bool, upto: nat)
    requires upto <= |xs|
    ensures LastIndex(xs, p, upto).None? ==> Filter(xs[..upto], p) == []
    ensures LastIndex(xs, p, upto).Some? ==>
      Filter(xs[..upto], p) == Filter(xs[..LastIndex(xs, p, upto).value], p) + [xs[LastIndex(xs, p, upto).value]]
  {
    if upto > 0 {
      var x := xs[upto - 1];
      assert xs[..upto] == xs[..upto - 1] + [x];
      FilterAppend(xs[..upto - 1], [x], p);
      assert Filter([x], p) == (if p(x) then [x] else []) + Filter([x][1..], p);
      if !p(x) {
        FilterUpTo(xs, p, upto - 1);
      }
    }
  }

  /** `filtered[0]` and `filtered[1]`: the first and the next element satisfying `p`. */
  lemma FilterHead<T>(xs: seq<T>, p: T -> bool)
    ensures Filter(xs, p) == [] <==> FirstIndex(xs, p, 0).None?
    ensures FirstIndex(xs, p, 0).Some? ==>
      && Filter(xs, p)[0] == xs[FirstIndex(xs, p, 0).value]
      && (|Filter(xs, p)| >= 2 <==> FirstIndex(xs, p, FirstIndex(xs, p, 0).value + 1).Some?)
      && (|Filter(xs, p)| >= 2 ==>
            Filter(xs, p)[1] == xs[FirstIndex(xs, p, FirstIndex(xs, p, 0).value + 1).value])
  {
    assert xs[0..] == xs;
    FilterFrom(xs, p, 0);
    if FirstIndex(xs, p, 0).Some? {
      FilterFrom(xs, p, FirstIndex(xs, p, 0).value + 1);
    }
  }

  /** `_.last(filtered)`: the last element satisfying `p`. */
  lemma FilterTail<T>(xs: seq<T>, p: T -> bool)
    ensures Filter(xs, p) == [] <==> LastIndex(xs, p, |xs|).None?
    ensures LastIndex(xs, p, |xs|).Some? ==> Filter(xs, p)[|Filter(xs, p)| - 1] == xs[LastIndex(xs, p, |xs|).value]
  {
    assert xs[..|xs|] == xs;
    FilterUpTo(xs, p, |xs|);
  }

  /** Filtering keeps every element that satisfies the test. */
  lemma {:induction false} FilterComplete<T>(xs: seq<T>, p: T -> bool)
    ensures forall i :: 0 <= i < |xs| && p(xs[i]) ==> xs[i] in Filter(xs, p)
  {
    if xs != [] {
      FilterComplete(xs[1..], p);
      forall i | 1 <= i < |xs| && p(xs[i]) ensures xs[i] in Filter(xs, p) {
        assert xs[1..][i - 1] == xs[i];
      }
    }
  }

  /** Filtering by a narrower test again, as `_.remove` does to a working copy, is filtering
      the original by the narrower test. */
  lemma {:induction false} FilterNarrow<T>(xs: seq<T>, p: T -> bool, q: T -> bool)
    requires forall x :: q(x) ==> p(x)
    ensures Filter(Filter(xs, p), q) == Filter(xs, q)
  {
    if xs != [] {
      var rest := xs[1..];
      FilterNarrow(rest, p, q);
      if p(xs[0]) {
        var f := [xs[0]] + Filter(rest, p);
        assert Filter(xs, p) == f;
        assert f[0] == xs[0] && f[1..] == Filter(rest, p);
        assert Filter(f, q) == (if q(xs[0]) then [xs[0]] else []) + Filter(rest, q);
      } else {
        assert !q(xs[0]);
        assert Filter(xs, p) == Filter(rest, p);
        assert Filter(xs, q) == Filter(rest, q);
      }
    }
  }
}
