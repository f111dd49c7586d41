/** TFdata.trendCount and TFdata.trendCountStrict: how many periods an ascending series (newest
    last) has been trending up (positive) or down (negative), looking only after its last null. */
module Trend {
  import opened Wrappers

  // ---------------------------------------------------------------------------------------
  // The part after the last null.

  /** `array.lastIndexOf(null)`: the index of the last null, or -1. */
  function LastNull(a: seq<Option<real>>): (r: int)
    ensures -1 <= r < |a|
    ensures r >= 0 ==> a[r].None?
    ensures forall i :: r < i < |a| ==> a[i].Some?
  {
    if a == [] then -1
    else if a[|a| - 1].None? then |a| - 1
    else LastNull(a[..|a| - 1])
  }

  /** The numbers after the last null (`values.slice(values.lastIndexOf(null) + 1)`). */
  function Cleaned(a: seq<Option<real>>): (c: seq<real>)
    ensures |c| == |a| - LastNull(a) - 1
    ensures forall i :: 0 <= i < |c| ==> a[LastNull(a) + 1 + i] == Some(c[i])
  {
    var tail := a[LastNull(a) + 1..];
    seq(|tail|, i requires 0 <= i < |tail| => tail[i].value)
  }

  // ---------------------------------------------------------------------------------------
  // The reference: pairs of neighbours, numbered by the index of their later element.

  /** Pair `p` (the elements at `p - 1` and `p`) rises or falls. */
  predicate Rises(c: seq<real>, p: int)
    requires 0 < p < |c|
  {
    c[p - 1] < c[p]
  }

  predicate Falls(c: seq<real>, p: int)
    requires 0 < p < |c|
  {
    c[p - 1] > c[p]
  }

  /** Pair `p` ends a run in direction `up`: for trendCount a pair moving the other way, for
      trendCountStrict any pair that does not move strictly in direction `up`. */
  predicate Ends(c: seq<real>, p: int, up: bool, strict: bool)
    requires 0 < p < |c|
  {
    if strict then !(if up then Rises(c, p) else Falls(c, p))
    else if up then Falls(c, p) else Rises(c, p)
  }

  /** The last pair up to `p` whose elements differ, or 0 when there is none. */
  function LastChange(c: seq<real>, p: nat): (r: nat)
    requires p < |c|
    ensures r <= p && (r > 0 ==> c[r - 1] != c[r])
    ensures forall q :: r < q <= p ==> c[q - 1] == c[q]
  {
    if p == 0 then 0
    else if c[p - 1] != c[p] then p
    else LastChange(c, p - 1)
  }

  /** The last pair up to `p` that ends a run in direction `up`, or 0 when there is none. */
  function LastEnd(c: seq<real>, p: nat, up: bool, strict: bool): (r: nat)
    requires p < |c|
    ensures r <= p && (r > 0 ==> Ends(c, r, up, strict))
    ensures forall q :: r < q <= p ==> !Ends(c, q, up, strict)
  {
    if p == 0 then 0
    else if Ends(c, p, up, strict) then p
    else LastEnd(c, p - 1, up, strict)
  }

  /** A changing pair with only flat pairs after it up to `p` is the last change. */
  lemma LastChangeIs(c: seq<real>, p: nat, i: nat)
    requires 0 <= i <= p < |c| && (i > 0 ==> c[i - 1] != c[i])
    requires forall q :: i < q <= p ==> c[q - 1] == c[q]
    ensures LastChange(c, p) == i
  {
  }

  /** A pair that ends the run, with none ending it after it up to `p`, is the last end. */
  lemma LastEndIs(c: seq<real>, p: nat, up: bool, strict: bool, i: nat)
    requires 0 <= i <= p < |c| && (i > 0 ==> Ends(c, i, up, strict))
    requires forall q :: i < q <= p ==> !Ends(c, q, up, strict)
    ensures LastEnd(c, p, up, strict) == i
  {
  }

  /** trendCount on the numbers after the last null: the direction is that of the last
      change; the count is the number of pairs after the last pair moving the other way (flat
      pairs included, also those after the last change). */
  function TrendOf(c: seq<real>): (r: int)
    ensures r != 0 ==> -|c| < r < |c|
  {
    if |c| <= 1 then 0
    else
      var f := LastChange(c, |c| - 1);
      if f == 0 then 0
      else
        var up := Rises(c, f);
        var n := |c| - 1 - LastEnd(c, f - 1, up, false);
        if up then n else -n
  }

  /** trendCountStrict on the numbers after the last null: zero when the last pair is flat;
      otherwise the number of pairs in the strictly rising or falling run at the end, negative
      when falling. */
  function TrendStrictOf(c: seq<real>): (r: int)
    ensures r != 0 ==> -|c| < r < |c|
  {
    if |c| <= 1 || c[|c| - 2] == c[|c| - 1] then 0
    else
      var up := Rises(c, |c| - 1);
      var n := |c| - 1 - LastEnd(c, |c| - 1, up, true);
      if up then n else -n
  }

  /** One more pair, not ending the run, extends the stretch without an end. */
  lemma NoEndBefore(c: seq<real>, i: nat, f: nat, up: bool)
    requires 0 < i < f < |c| && !Ends(c, i, up, false)
    requires forall q :: i < q < f ==> !Ends(c, q, up, false)
    ensures forall q :: i - 1 < q < f ==> !Ends(c, q, up, false)
  {
  }

  /** TrendOf read off the last change `f` and the last pair `s` moving against it. */
  lemma TrendOfParts(c: seq<real>, f: nat, s: nat)
    requires 0 < f < |c| && f == LastChange(c, |c| - 1) && s == LastEnd(c, f - 1, Rises(c, f), false)
    ensures TrendOf(c) == if Rises(c, f) then |c| - 1 - s else -(|c| - 1 - s)
  {
  }

  function TrendCountOf(a: seq<Option<real>>): int {
    if |a| <= 1 then 0 else TrendOf(Cleaned(a))
  }

  function TrendCountStrictOf(a: seq<Option<real>>): int {
    if |a| <= 1 then 0 else TrendStrictOf(Cleaned(a))
  }

  // ---------------------------------------------------------------------------------------
  // The loops.

  /** TFdata.trendCount: scan the pairs from the newest back, counting every scanned pair
      once the first change fixes a direction, and stop at a pair moving the other way. */
  method TrendCount(values: seq<Option<real>>) returns (r: int)
    ensures r == TrendCountOf(values)
  {
    if |values| <= 1 {
      return 0;
    }
    var cleaned := Cleaned(values);
    var trend, f, stop := ScanBack(cleaned);
    if trend.Some? {
      TrendOfParts(cleaned, f, stop);
    }
    r := if trend.None? then 0 else trend.value;
  }

  /** The backward loop of trendCount over the numbers after the last null: `trend` stays
      null when every pair is flat; otherwise the last change is pair `f`, and the loop stops
      at pair `stop`, the last one moving against it (0 when there is none). */
  method ScanBack(cleaned: seq<real>) returns (trend: Option<int>, ghost f: nat, ghost stop: nat)
    ensures trend.None? ==> |cleaned| <= 1 || LastChange(cleaned, |cleaned| - 1) == 0
    ensures trend.Some? ==> && 0 < f < |cleaned| && f == LastChange(cleaned, |cleaned| - 1)
                            && stop == LastEnd(cleaned, f - 1, Rises(cleaned, f), false)
                            && trend.value == if Rises(cleaned, f) then |cleaned| - 1 - stop else -(|cleaned| - 1 - stop)
  {
    var m := |cleaned|;
    trend, f, stop := None, 0, 0;
    if m <= 1 {
      return;
    }
    var loopCount := 0;
    var i := m - 1;
    ghost var up := false;
    while i > 0
      invariant 0 <= i <= m - 1
      invariant loopCount == m - 1 - i
      invariant Scanned(cleaned, i, trend, f, up)
    {
      loopCount := loopCount + 1;
      var done;
      trend, done, f, up := ScanPair(cleaned, i, loopCount, trend, f, up);
      if done {
        break;
      }
      i := i - 1;
    }
    if trend.None? {
      LastChangeIs(cleaned, m - 1, 0);
    } else if i == 0 {
      LastEndIs(cleaned, f - 1, up, false, 0);
    }
    stop := i;
  }

  /** What the backward loop of trendCount knows after scanning the pairs above `i`: with no
      trend yet they are all flat; with one, `f` is the last change, in direction `up`, the
      count is that of the scanned pairs, and none of them after `f` moves against it. */
  ghost predicate Scanned(c: seq<real>, i: nat, trend: Option<int>, f: nat, up: bool)
    requires i < |c|
  {
    && (trend.None? ==> forall q :: i < q < |c| ==> c[q - 1] == c[q])
    && (trend.Some? ==> && i < f < |c| && f == LastChange(c, |c| - 1) && up == Rises(c, f)
                        && trend.value == (if up then |c| - 1 - i else -(|c| - 1 - i))
                        && forall q :: i < q < f ==> !Ends(c, q, up, false))
  }

  /** One pass of the loop body of trendCount, on pair `i`: either it stops the loop (a pair
      moving against the trend, which is then the last such pair) or the trend covers pair `i`
      too. */
  method ScanPair(cleaned: seq<real>, i: nat, loopCount: int, trend: Option<int>, ghost f: nat, ghost up: bool)
    returns (next: Option<int>, done: bool, ghost f': nat, ghost up': bool)
    requires 0 < i < |cleaned| && loopCount == |cleaned| - i && Scanned(cleaned, i, trend, f, up)
    ensures done ==> && next == trend && f' == f && up' == up && trend.Some? && i < f
                     && LastEnd(cleaned, f - 1, up, false) == i
    ensures !done ==> Scanned(cleaned, i - 1, next, f', up')
  {
    next, done, f', up' := trend, false, f, up;
    if cleaned[i - 1] < cleaned[i] {
      if trend.None? {
        LastChangeIs(cleaned, |cleaned| - 1, i);
        next, up', f' := Some(loopCount), true, i;
      } else if trend.value <= 0 {
        LastEndIs(cleaned, f - 1, up, false, i);
        done := true;
      } else {
        NoEndBefore(cleaned, i, f, up);
        next := Some(trend.value + 1);
      }
    } else if cleaned[i - 1] > cleaned[i] {
      if trend.None? {
        LastChangeIs(cleaned, |cleaned| - 1, i);
        next, up', f' := Some(-loopCount), false, i;
      } else if trend.value >= 0 {
        LastEndIs(cleaned, f - 1, up, false, i);
        done := true;
      } else {
        NoEndBefore(cleaned, i, f, up);
        next := Some(trend.value - 1);
      }
    } else if trend.Some? && trend.value < 0 {
      NoEndBefore(cleaned, i, f, up);
      next := Some(trend.value - 1);
    } else if trend.Some? && trend.value > 0 {
      NoEndBefore(cleaned, i, f, up);
      next := Some(trend.value + 1);
    }
  }

  /** TFdata.trendCountStrict: scan the pairs from the newest back while they keep moving
      strictly in the direction of the newest pair. */
  method TrendCountStrict(values: seq<Option<real>>) returns (r: int)
    ensures r == TrendCountStrictOf(values)
  {
    if |values| <= 1 {
      return 0;
    }
    var cleaned := Cleaned(values);
    var trend := ScanBackStrict(cleaned);
    r := if trend.None? then 0 else trend.value;
  }

  /** The backward loop of trendCountStrict over the numbers after the last null: `trend`
      stays null only when there is no pair at all; a flat newest pair gives 0. */
  method ScanBackStrict(cleaned: seq<real>) returns (trend: Option<int>)
    ensures trend.None? <==> |cleaned| <= 1
    ensures trend.Some? ==> trend.value == TrendStrictOf(cleaned)
  {
    var m := |cleaned|;
    trend := None;
    if m <= 1 {
      return;
    }
    var i := m - 1;
    ghost var up := Rises(cleaned, m - 1);
    while i > 0
      invariant 0 <= i <= m - 1
      invariant trend.None? ==> i == m - 1
      invariant trend.Some? ==> && i < m - 1 && cleaned[m - 2] != cleaned[m - 1]
                                && trend.value == (if up then m - 1 - i else -(m - 1 - i))
                                && forall q :: i < q < m ==> !Ends(cleaned, q, up, true)
    {
      if cleaned[i - 1] < cleaned[i] {
        if trend.None? {
          trend := Some(1);
        } else if trend.value > 0 {
          trend := Some(trend.value + 1);
        } else {
          break;
        }
      } else if cleaned[i - 1] > cleaned[i] {
        if trend.None? {
          trend := Some(-1);
        } else if trend.value < 0 {
          trend := Some(trend.value - 1);
        } else {
          break;
        }
      } else {
        if trend.None? {
          trend := Some(0);
        }
        break;
      }
      i := i - 1;
    }
    if trend.value != 0 {
      LastEndIs(cleaned, m - 1, up, true, i);
    }
  }

  // ---------------------------------------------------------------------------------------
  // Properties.

  /** A null resets the count: only what follows the last null matters. */
  lemma {:induction false} LastNullAfter(a: seq<Option<real>>, b: seq<Option<real>>)
    ensures LastNull(a + [None] + b) == |a| + 1 + LastNull(b)
  {
    if b != [] && b[|b| - 1].Some? {
      assert (a + [None] + b)[..|a| + |b|] == a + [None] + b[..|b| - 1];
      LastNullAfter(a, b[..|b| - 1]);
    }
  }

  lemma OnlyAfterLastNull(a: seq<Option<real>>, b: seq<Option<real>>)
    ensures TrendCountOf(a + [None] + b) == TrendCountOf(b)
    ensures TrendCountStrictOf(a + [None] + b) == TrendCountStrictOf(b)
  {
    var x := a + [None] + b;
    LastNullAfter(a, b);
    var cb := Cleaned(b);
    forall i | 0 <= i < |cb| ensures Cleaned(x)[i] == cb[i] {
      assert x[LastNull(x) + 1 + i] == b[LastNull(b) + 1 + i];
    }
    assert Cleaned(x) == cb;
  }

  /** The values after the last null are flat exactly when the numbers after it are. */
  lemma FlatAfterLastNull(a: seq<Option<real>>)
    ensures (forall q :: LastNull(a) + 1 < q < |a| ==> a[q - 1] == a[q])
        <==> (forall q :: 0 < q < |Cleaned(a)| ==> Cleaned(a)[q - 1] == Cleaned(a)[q])
  {
    var l := LastNull(a);
    var c := Cleaned(a);
    if forall q :: l + 1 < q < |a| ==> a[q - 1] == a[q] {
      forall q | 0 < q < |c| ensures c[q - 1] == c[q] {
        assert a[l + q] == Some(c[q - 1]) && a[l + 1 + q] == Some(c[q]);
      }
    }
    if forall q :: 0 < q < |c| ==> c[q - 1] == c[q] {
      forall q | l + 1 < q < |a| ensures a[q - 1] == a[q] {
        var k := q - l - 1;
        assert a[l + 1 + k] == Some(c[k]) && a[l + 1 + (k - 1)] == Some(c[k - 1]);
      }
    }
  }

  /** TrendOf is 0 exactly when every pair is flat. */
  lemma TrendZeroIffFlat(c: seq<real>)
    ensures TrendOf(c) == 0 <==> forall q :: 0 < q < |c| ==> c[q - 1] == c[q]
  {
    if |c| > 1 && LastChange(c, |c| - 1) > 0 {
      var f := LastChange(c, |c| - 1);
      assert c[f - 1] != c[f];
    }
  }

  /** trendCount is 0 exactly when every pair after the last null is flat. */
  lemma CountZeroIffFlat(a: seq<Option<real>>)
    ensures TrendCountOf(a) == 0 <==> forall q :: LastNull(a) + 1 < q < |a| ==> a[q - 1] == a[q]
  {
    FlatAfterLastNull(a);
    TrendZeroIffFlat(Cleaned(a));
  }

  /** Every pair moving against a run is also one that does not move strictly with it. */
  lemma {:induction false} LastEndStrictLater(c: seq<real>, p: nat, up: bool)
    requires p < |c|
    ensures LastEnd(c, p, up, false) <= LastEnd(c, p, up, true)
  {
    if p > 0 && !Ends(c, p, up, true) {
      LastEndStrictLater(c, p - 1, up);
    }
  }

  /** A strict count agrees in sign with trendCount and never exceeds it: trendCount also
      counts the flat pairs of the run. */
  lemma StrictWithinCount(a: seq<Option<real>>)
    ensures TrendCountStrictOf(a) > 0 ==> TrendCountStrictOf(a) <= TrendCountOf(a)
    ensures TrendCountStrictOf(a) < 0 ==> TrendCountOf(a) <= TrendCountStrictOf(a)
  {
    var c := Cleaned(a);
    if |a| > 1 && |c| > 1 && c[|c| - 2] != c[|c| - 1] {
      var up := Rises(c, |c| - 1);
      assert LastChange(c, |c| - 1) == |c| - 1;
      assert LastEnd(c, |c| - 1, up, true) == LastEnd(c, |c| - 2, up, true);
      LastEndStrictLater(c, |c| - 2, up);
    }
  }

  /** The case the source calls out: flat values after a rise still count for trendCount, and
      end a strict run at once. */
  lemma FlatTailCounts(x: real, y: real)
    requires x < y
    ensures TrendCountOf([Some(x), Some(y), Some(y)]) == 2
    ensures TrendCountStrictOf([Some(x), Some(y), Some(y)]) == 0
  {
    var a := [Some(x), Some(y), Some(y)];
    assert LastNull(a[..2]) == LastNull(a[..1]);
    assert Cleaned(a) == [x, y, y];
  }
}
