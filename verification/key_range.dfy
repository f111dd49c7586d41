/** The key window of util.getKeysByScope and the range query util.keysInRange built on it.
    The window of a scope holds the zero-padded keys of every period from 1 January 2000 up to
    the moment of the first query for that scope; it is memoised and never extended. */
module KeyRange {
  import opened Wrappers
  import opened Calendar
  import opened ScopeKeys
  import ScopeKeyLemmas
  import KeyArith
  import Lex
  import Digits

  /** START_YEAR: the walk starts on 1 January 2000. */
  const StartOfMemo := Date(2000, 1, 1)

  /** The periods from `k` onwards, one after another, whose first day is not after `now`. */
  function PeriodsFrom(k: Key, now: Date): (ps: seq<Key>)
    requires ValidKey(k)
    ensures forall p :: p in ps ==> ValidKey(p) && ScopeOf(p) == ScopeOf(k)
    decreases Ord(now) - Ord(StartDate(k))
  {
    if Before(now, StartDate(k)) then []
    else
      KeyArith.ShiftInverse(k, 1);
      [k] + PeriodsFrom(KeyArith.Shift(k, 1), now)
  }

  /** Each period written as its padded key. */
  function RenderAll(ps: seq<Key>): (r: seq<string>)
    ensures |r| == |ps|
    ensures forall i :: 0 <= i < |ps| ==> r[i] == RenderPadded(ps[i])
  {
    if ps == [] then [] else [RenderPadded(ps[0])] + RenderAll(ps[1..])
  }

  /** The padded keys of the periods from `k` onwards whose first day is not after `now`. */
  function WindowFrom(k: Key, now: Date): seq<string>
    requires ValidKey(k)
  {
    RenderAll(PeriodsFrom(k, now))
  }

  /** The padded keys of the periods of scope `s` from 2000 up to `now`, oldest first. */
  function WindowKeys(s: Scope, now: Date): seq<string>
    requires s != Timeless
  {
    WindowFrom(KeyOf(StartOfMemo, s), now)
  }

  /** One step of the walk. */
  lemma WindowFromStep(k: Key, now: Date)
    requires ValidKey(k)
    ensures Before(now, StartDate(k)) ==> WindowFrom(k, now) == []
    ensures !Before(now, StartDate(k)) ==>
      WindowFrom(k, now) == [RenderPadded(k)] + WindowFrom(KeyArith.Shift(k, 1), now)
  {
    if !Before(now, StartDate(k)) {
      var ps := PeriodsFrom(k, now);
      assert ps == [k] + PeriodsFrom(KeyArith.Shift(k, 1), now);
      assert ps[0] == k && ps[1..] == PeriodsFrom(KeyArith.Shift(k, 1), now);
    }
  }

  predicate StrictlySorted(w: seq<string>) {
    forall i, j :: 0 <= i < j < |w| ==> Lex.Less(w[i], w[j])
  }

  // ---------------------------------------------------------------------------------------
  // The walk, period by period.

  /** The walk visits `k` and the periods after it in order, stopping at the first one that
      starts after `now`. */
  lemma PeriodsFromShape(k: Key, now: Date)
    requires ValidKey(k)
    ensures var ps := PeriodsFrom(k, now);
      && (forall i :: 0 <= i < |ps| ==> ps[i] == KeyArith.Shift(k, i) && NotAfter(StartDate(ps[i]), now))
      && Before(now, StartDate(KeyArith.Shift(k, |ps|)))
  {
    PeriodsFromIndex(k, now);
    PeriodsFromEnd(k, now);
  }

  /** The i-th period of the walk is `k` moved forward by i periods. */
  lemma PeriodsFromIndex(k: Key, now: Date)
    requires ValidKey(k)
    ensures var ps := PeriodsFrom(k, now);
      forall i :: 0 <= i < |ps| ==> ps[i] == KeyArith.Shift(k, i) && NotAfter(StartDate(ps[i]), now)
  {
    var ps := PeriodsFrom(k, now);
    forall i | 0 <= i < |ps| ensures ps[i] == KeyArith.Shift(k, i) && NotAfter(StartDate(ps[i]), now) {
      PeriodAt(k, now, i);
    }
  }

  /** Period `i` of the walk, by induction on `i`. */
  lemma {:induction false} PeriodAt(k: Key, now: Date, i: nat)
    requires ValidKey(k) && i < |PeriodsFrom(k, now)|
    ensures PeriodsFrom(k, now)[i] == KeyArith.Shift(k, i) && NotAfter(StartDate(PeriodsFrom(k, now)[i]), now)
    decreases i
  {
    KeyArith.ShiftInverse(k, 0);
    var n := KeyArith.Shift(k, 1);
    KeyArith.ShiftInverse(k, 1);
    assert PeriodsFrom(k, now) == [k] + PeriodsFrom(n, now);
    if i > 0 {
      PeriodAt(n, now, i - 1);
      KeyArith.ShiftCompose(k, 1, i - 1);
    }
  }

  /** The walk stops at the first period that starts after `now`. */
  lemma {:induction false} PeriodsFromEnd(k: Key, now: Date)
    requires ValidKey(k)
    ensures Before(now, StartDate(KeyArith.Shift(k, |PeriodsFrom(k, now)|)))
    decreases Ord(now) - Ord(StartDate(k))
  {
    KeyArith.ShiftInverse(k, 0);
    if !Before(now, StartDate(k)) {
      var n := KeyArith.Shift(k, 1);
      KeyArith.ShiftInverse(k, 1);
      var rest := PeriodsFrom(n, now);
      assert |PeriodsFrom(k, now)| == |rest| + 1;
      PeriodsFromEnd(n, now);
      KeyArith.ShiftCompose(k, 1, |rest|);
    }
  }

  /** Within one scope, periods with the same first day are the same period. */
  lemma StartDateInjective(a: Key, b: Key)
    requires ValidKey(a) && ValidKey(b) && ScopeOf(a) == ScopeOf(b)
    ensures StartDate(a) == StartDate(b) <==> a == b
  {
    if !a.Day? {
      KeyArith.IndexIsChronological(a, b);
      KeyArith.IndexIsChronological(b, a);
    }
  }

  /** A period is visited exactly when it starts between `k`'s first day and `now`. */
  lemma {:induction false} PeriodsFromMembership(k: Key, now: Date, p: Key)
    requires ValidKey(k) && ValidKey(p) && ScopeOf(p) == ScopeOf(k)
    ensures p in PeriodsFrom(k, now) <==> NotAfter(StartDate(k), StartDate(p)) && NotAfter(StartDate(p), now)
    decreases Ord(now) - Ord(StartDate(k))
  {
    StartDateInjective(k, p);
    if !Before(now, StartDate(k)) {
      var n := KeyArith.Shift(k, 1);
      KeyArith.ShiftInverse(k, 1);
      PeriodsFromMembership(n, now, p);
      KeyArith.ShiftSuccessor(k, p);
    }
  }

  /** The periods of the walk are in chronological order. */
  lemma PeriodsFromOrdered(k: Key, now: Date, i: int, j: int)
    requires ValidKey(k) && 0 <= i < j < |PeriodsFrom(k, now)|
    ensures Before(StartDate(PeriodsFrom(k, now)[i]), StartDate(PeriodsFrom(k, now)[j]))
  {
    PeriodsFromShape(k, now);
    KeyArith.ShiftCompose(k, i, j - i);
    KeyArith.ShiftInverse(KeyArith.Shift(k, i), j - i);
  }

  // ---------------------------------------------------------------------------------------
  // The window as strings.

  /** Every key of the window is the padded key of a period between 2000 and `now`. */
  lemma WindowElements(s: Scope, now: Date)
    requires s != Timeless && Valid(now) && now.year <= 9999
    ensures var ps := PeriodsFrom(KeyOf(StartOfMemo, s), now);
      && |WindowKeys(s, now)| == |ps|
      && forall i :: 0 <= i < |ps| ==>
           && WindowKeys(s, now)[i] == RenderPadded(ps[i])
           && ScopeOf(ps[i]) == s && ValidKey(ps[i]) && FourDigitYear(ps[i])
           && NotAfter(StartOfMemo, StartDate(ps[i])) && NotAfter(StartDate(ps[i]), now)
  {
    var k0 := KeyOf(StartOfMemo, s);
    var ps := PeriodsFrom(k0, now);
    PeriodsFromShape(k0, now);
    ScopeKeyLemmas.KeyOfEndDate(k0);
    forall i | 0 <= i < |ps|
      ensures ScopeOf(ps[i]) == s && ValidKey(ps[i]) && FourDigitYear(ps[i])
      ensures NotAfter(StartOfMemo, StartDate(ps[i])) && NotAfter(StartDate(ps[i]), now)
    {
      PeriodsFromMembership(k0, now, ps[i]);
      OrdIsLexicographic(StartDate(ps[i]), now);
      OrdIsLexicographic(StartOfMemo, StartDate(ps[i]));
    }
  }

  /** The window is strictly ascending as strings. */
  lemma WindowSorted(s: Scope, now: Date)
    requires s != Timeless && Valid(now) && now.year <= 9999
    ensures StrictlySorted(WindowKeys(s, now))
  {
    var k0 := KeyOf(StartOfMemo, s);
    var ps := PeriodsFrom(k0, now);
    var w := WindowKeys(s, now);
    WindowElements(s, now);
    forall i, j | 0 <= i < j < |w| ensures Lex.Less(w[i], w[j]) {
      PeriodsFromOrdered(k0, now, i, j);
      ScopeKeyLemmas.PaddedOrderIsChronological(ps[i], ps[j]);
    }
  }

  /** A padded key is in the window exactly when its period starts between 1 January 2000
      and `now`. */
  lemma WindowMembership(s: Scope, now: Date, p: Key)
    requires s != Timeless && Valid(now) && now.year <= 9999
    requires ValidKey(p) && FourDigitYear(p) && ScopeOf(p) == s
    ensures RenderPadded(p) in WindowKeys(s, now) <==>
      NotAfter(StartOfMemo, StartDate(p)) && NotAfter(StartDate(p), now)
  {
    var k0 := KeyOf(StartOfMemo, s);
    var ps := PeriodsFrom(k0, now);
    var w := WindowKeys(s, now);
    WindowElements(s, now);
    ScopeKeyLemmas.KeyOfEndDate(k0);
    PeriodsFromMembership(k0, now, p);
    if RenderPadded(p) in w {
      var i :| 0 <= i < |w| && w[i] == RenderPadded(p);
      ScopeKeyLemmas.PaddedOrderIsChronological(ps[i], p);
    }
  }

  // ---------------------------------------------------------------------------------------
  // keysInRange

  /** The `keys.filter(key => key >= start && key <= end)` step. */
  function Between(w: seq<string>, lo: string, hi: string): (r: seq<string>)
    ensures forall x :: x in r <==> x in w && Lex.LessEq(lo, x) && Lex.LessEq(x, hi)
    ensures StrictlySorted(w) ==> StrictlySorted(r)
    decreases |w|
  {
    if |w| == 0 then []
    else
      var rest := Between(w[1..], lo, hi);
      assert forall x :: x in w[1..] ==> x in w;
      if Lex.LessEq(lo, w[0]) && Lex.LessEq(w[0], hi) then
        assert StrictlySorted(w) ==> forall x :: x in rest ==> Lex.Less(w[0], x) by {
          if StrictlySorted(w) {
            forall x | x in rest ensures Lex.Less(w[0], x) {
              var j :| 0 <= j < |w[1..]| && w[1..][j] == x;
              assert w[j + 1] == x;
            }
          }
        }
        [w[0]] + rest
      else rest
  }

  /** util.keysInRange over the window of the start key's scope: both keys are normalised;
      keys of different types are an error; equal keys give that one key whether or not it
      lies in the window; a start after the end gives nothing; otherwise the window keys
      between the two, inclusive. A pair of unrecognised keys reaches the memo with no scope,
      which is an error too. */
  function KeysInRangeOver(startKey: string, endKey: string, window: seq<string>): (r: Result<seq<string>>)
    ensures var a, b := NormalizeKey(startKey), NormalizeKey(endKey);
      && (ScopeKeyType(Some(a)) != ScopeKeyType(Some(b)) ==> r.Err?)
      && (ScopeKeyType(Some(a)) == ScopeKeyType(Some(b)) && a == b ==> r == Ok([a]))
      && (ScopeKeyType(Some(a)) == ScopeKeyType(Some(b)) && Lex.Less(b, a) ==> r == Ok([]))
      && (r.Ok? && Lex.Less(a, b) ==>
            forall x :: x in r.value <==> x in window && Lex.LessEq(a, x) && Lex.LessEq(x, b))
      && (StrictlySorted(window) && r.Ok? ==> StrictlySorted(r.value))
  {
    var a, b := NormalizeKey(startKey), NormalizeKey(endKey);
    var scope := ScopeKeyType(Some(a));
    if scope != ScopeKeyType(Some(b)) then Err("Error: Mismatch key type: " + startKey + " and " + endKey)
    else if a == b then
      Lex.Irreflexive(a);
      Ok([a])
    else if !Lex.Less(a, b) then
      Lex.Total(a, b);
      Ok([])
    else
      Lex.Asymmetric(a, b);
      if scope.None? then Err("TypeError: Cannot read property 'length' of undefined")
      else Ok(Between(window, a, b))
  }

  /** util.keysInRange once the memo holds `memo` (one window per scope): the window read is
      that of the normalised start key's scope. */
  function KeysInRangeIn(memo: map<Scope, seq<string>>, startKey: string, endKey: string): Result<seq<string>> {
    var scope := ScopeKeyType(Some(NormalizeKey(startKey)));
    KeysInRangeOver(startKey, endKey, if scope.Some? && scope.value in memo then memo[scope.value] else [])
  }

  /** A padded key is its own normal form, and normalising a loose monthly, quarterly or
      annual key gives the padded key. */
  lemma NormalizeRendered(k: Key)
    requires ValidKey(k) && FourDigitYear(k)
    ensures NormalizeKey(RenderPadded(k)) == RenderPadded(k)
    ensures !k.Day? ==> NormalizeKey(Render(k)) == RenderPadded(k)
  {
    ScopeKeyLemmas.ParseRender(k);
    ScopeKeyLemmas.KeyDateRoundTrip(k);
    if k.Month? {
      ScopeKeyLemmas.YearOrder(k.year, k.year);
      assert Digits.Pow10(2) == 100;
      ScopeKeyLemmas.FieldOrder(k.month, k.month, 2);
      assert |RenderPadded(k)| == 7;
    }
    if !k.Day? {
      ScopeKeyLemmas.KeyStringRoundTrip(Render(k));
    }
  }

  /** The loop of util.getKeysByScope: from 1 January 2000, format the current day with the
      scope's padded format and step one period forward, while the day is not after `now`. */
  method Walk(s: Scope, now: Date) returns (window: seq<string>)
    requires s != Timeless && Valid(now)
    ensures window == WindowKeys(s, now)
  {
    ghost var k := KeyOf(StartOfMemo, s);
    ScopeKeyLemmas.KeyOfEndDate(k);
    window := WalkFrom(StartOfMemo, s, k, now);
  }

  /** The walk from the first day of period `k`. */
  method WalkFrom(start: Date, s: Scope, ghost k0: Key, now: Date) returns (window: seq<string>)
    requires ValidKey(k0) && ScopeOf(k0) == s && start == StartDate(k0)
    ensures window == WindowFrom(k0, now)
  {
    var cur := start;
    ghost var k := k0;
    window := [];
    while !Before(now, cur)
      invariant ValidKey(k) && ScopeOf(k) == s && cur == StartDate(k)
      invariant window + WindowFrom(k, now) == WindowFrom(k0, now)
      decreases Ord(now) - Ord(cur)
    {
      var key, next, nextKey := WalkOnce(cur, s, k, now);
      Snoc(window, key, WindowFrom(nextKey, now));
      window := window + [key];
      cur := next;
      k := nextKey;
    }
  }

  /** The body of the walk: format the current day, then move it one period forward. */
  method WalkOnce(cur: Date, s: Scope, ghost k: Key, now: Date) returns (key: string, next: Date, ghost nextKey: Key)
    requires ValidKey(k) && ScopeOf(k) == s && cur == StartDate(k) && !Before(now, cur)
    ensures ValidKey(nextKey) && ScopeOf(nextKey) == s
    ensures key == RenderPadded(k) && next == StartDate(nextKey) && Ord(cur) < Ord(next)
    ensures WindowFrom(k, now) == [key] + WindowFrom(nextKey, now)
  {
    WalkStep(k, now);
    key := RenderPadded(KeyOf(cur, s));
    next := KeyArith.MoveDate(cur, 1, s);
    nextKey := KeyArith.Shift(k, 1);
  }

  lemma Snoc(a: seq<string>, x: string, b: seq<string>)
    ensures (a + [x]) + b == a + ([x] + b)
  {
  }

  /** One turn of the walk: the day formatted is the first day of the current period, and
      moving it one period forward gives the first day of the next period. */
  lemma WalkStep(k: Key, now: Date)
    requires ValidKey(k) && !Before(now, StartDate(k))
    ensures KeyOf(StartDate(k), ScopeOf(k)) == k
    ensures KeyArith.MoveDate(StartDate(k), 1, ScopeOf(k)) == StartDate(KeyArith.Shift(k, 1))
    ensures ValidKey(KeyArith.Shift(k, 1)) && ScopeOf(KeyArith.Shift(k, 1)) == ScopeOf(k)
    ensures Ord(StartDate(k)) < Ord(StartDate(KeyArith.Shift(k, 1)))
    ensures WindowFrom(k, now) == [RenderPadded(k)] + WindowFrom(KeyArith.Shift(k, 1), now)
  {
    ScopeKeyLemmas.KeyOfEndDate(k);
    KeyArith.MoveStartIsShift(k);
    KeyArith.ShiftInverse(k, 1);
    WindowFromStep(k, now);
  }

  /** Padded keys of one scope: "not after" as strings is "not after" in time. */
  lemma PaddedLessEq(a: Key, p: Key)
    requires ValidKey(a) && ValidKey(p) && FourDigitYear(a) && FourDigitYear(p) && ScopeOf(a) == ScopeOf(p)
    ensures Lex.LessEq(RenderPadded(a), RenderPadded(p)) <==> NotAfter(StartDate(a), StartDate(p))
  {
    ScopeKeyLemmas.PaddedOrderIsChronological(a, p);
    StartDateInjective(a, p);
    OrdIsLexicographic(StartDate(a), StartDate(p));
  }

  /** keysInRange on the padded keys of two periods `a` and `b` of one scope, over the window
      filled at `now`: the result is ascending; it is `[a]` when `a` is `b` and empty when `a`
      comes after `b`; otherwise it holds the padded key of a period exactly when the period
      lies between `a` and `b` inclusive and also inside the window (from 2000 to `now`), so
      periods outside the window are silently dropped. */
  lemma {:induction false} RangeIsPeriods(a: Key, b: Key, now: Date)
    requires ValidKey(a) && ValidKey(b) && FourDigitYear(a) && FourDigitYear(b) && ScopeOf(a) == ScopeOf(b)
    requires Valid(now) && now.year <= 9999
    ensures var r := KeysInRangeOver(RenderPadded(a), RenderPadded(b), WindowKeys(ScopeOf(a), now));
      && r.Ok?
      && StrictlySorted(r.value)
      && (a == b ==> r.value == [RenderPadded(a)])
      && (Before(StartDate(b), StartDate(a)) ==> r.value == [])
      && (Before(StartDate(a), StartDate(b)) ==>
            forall p :: ValidKey(p) && FourDigitYear(p) && ScopeOf(p) == ScopeOf(a) ==>
              (RenderPadded(p) in r.value <==>
                 && NotAfter(StartDate(a), StartDate(p)) && NotAfter(StartDate(p), StartDate(b))
                 && NotAfter(StartOfMemo, StartDate(p)) && NotAfter(StartDate(p), now)))
      && (forall x :: x in r.value ==>
            exists p :: ValidKey(p) && FourDigitYear(p) && ScopeOf(p) == ScopeOf(a) && x == RenderPadded(p))
  {
    RangeBasics(a, b, now);
    if Before(StartDate(a), StartDate(b)) {
      RangeMembers(a, b, now);
    }
    RangeShape(a, b, now);
  }

  /** The cases of keysInRange on two padded keys of one scope, and the window filter in the
      remaining case. */
  lemma RangeBasics(a: Key, b: Key, now: Date)
    requires ValidKey(a) && ValidKey(b) && FourDigitYear(a) && FourDigitYear(b) && ScopeOf(a) == ScopeOf(b)
    requires Valid(now) && now.year <= 9999
    ensures var w := WindowKeys(ScopeOf(a), now);
      var r := KeysInRangeOver(RenderPadded(a), RenderPadded(b), w);
      && r.Ok?
      && StrictlySorted(r.value)
      && (a == b ==> r.value == [RenderPadded(a)])
      && (Before(StartDate(b), StartDate(a)) ==> r.value == [])
      && (Before(StartDate(a), StartDate(b)) ==>
            forall x :: x in r.value <==> x in w && Lex.LessEq(RenderPadded(a), x) && Lex.LessEq(x, RenderPadded(b)))
  {
    NormalizeRendered(a);
    NormalizeRendered(b);
    ScopeKeyLemmas.ParseRender(a);
    ScopeKeyLemmas.ParseRender(b);
    ScopeKeyLemmas.PaddedOrderIsChronological(a, b);
    ScopeKeyLemmas.PaddedOrderIsChronological(b, a);
    WindowSorted(ScopeOf(a), now);
  }

  /** Between two distinct periods, a padded key is returned exactly when its period lies
      between them and inside the window. */
  lemma RangeMembers(a: Key, b: Key, now: Date)
    requires ValidKey(a) && ValidKey(b) && FourDigitYear(a) && FourDigitYear(b) && ScopeOf(a) == ScopeOf(b)
    requires Valid(now) && now.year <= 9999
    requires Before(StartDate(a), StartDate(b))
    ensures var r := KeysInRangeOver(RenderPadded(a), RenderPadded(b), WindowKeys(ScopeOf(a), now));
      && r.Ok?
      && forall p :: ValidKey(p) && FourDigitYear(p) && ScopeOf(p) == ScopeOf(a) ==>
           (RenderPadded(p) in r.value <==>
              && NotAfter(StartDate(a), StartDate(p)) && NotAfter(StartDate(p), StartDate(b))
              && NotAfter(StartOfMemo, StartDate(p)) && NotAfter(StartDate(p), now))
  {
    var s := ScopeOf(a);
    RangeBasics(a, b, now);
    var r := KeysInRangeOver(RenderPadded(a), RenderPadded(b), WindowKeys(s, now));
    forall p | ValidKey(p) && FourDigitYear(p) && ScopeOf(p) == s
      ensures RenderPadded(p) in r.value <==>
        && NotAfter(StartDate(a), StartDate(p)) && NotAfter(StartDate(p), StartDate(b))
        && NotAfter(StartOfMemo, StartDate(p)) && NotAfter(StartDate(p), now)
    {
      WindowMembership(s, now, p);
      PaddedLessEq(a, p);
      PaddedLessEq(p, b);
    }
  }

  /** Every key returned is the padded key of a period of the scope. */
  lemma RangeShape(a: Key, b: Key, now: Date)
    requires ValidKey(a) && ValidKey(b) && FourDigitYear(a) && FourDigitYear(b) && ScopeOf(a) == ScopeOf(b)
    requires Valid(now) && now.year <= 9999
    ensures var r := KeysInRangeOver(RenderPadded(a), RenderPadded(b), WindowKeys(ScopeOf(a), now));
      && r.Ok?
      && forall x :: x in r.value ==>
           exists p :: ValidKey(p) && FourDigitYear(p) && ScopeOf(p) == ScopeOf(a) && x == RenderPadded(p)
  {
    var s := ScopeOf(a);
    var w := WindowKeys(s, now);
    RangeBasics(a, b, now);
    WindowShape(s, now);
    StartDateInjective(a, b);
    var r := KeysInRangeOver(RenderPadded(a), RenderPadded(b), w);
    forall x | x in r.value
      ensures exists p :: ValidKey(p) && FourDigitYear(p) && ScopeOf(p) == s && x == RenderPadded(p)
    {
      if a == b {
        assert x == RenderPadded(a);
      } else {
        assert x in w;
      }
    }
  }

  /** Every key of the window is the padded key of a period of its scope. */
  lemma WindowShape(s: Scope, now: Date)
    requires s != Timeless && Valid(now) && now.year <= 9999
    ensures forall x :: x in WindowKeys(s, now) ==>
      exists p :: ValidKey(p) && FourDigitYear(p) && ScopeOf(p) == s && x == RenderPadded(p)
  {
    var w := WindowKeys(s, now);
    var ps := PeriodsFrom(KeyOf(StartOfMemo, s), now);
    WindowElements(s, now);
    forall x | x in w ensures exists p :: ValidKey(p) && FourDigitYear(p) && ScopeOf(p) == s && x == RenderPadded(p) {
      var i :| 0 <= i < |w| && w[i] == x;
      assert x == RenderPadded(ps[i]);
    }
  }

  // ---------------------------------------------------------------------------------------
  // The memo (util.keysByScope) and the two operations that use it.

  /** util.keysByScope: one key list per scope, empty until the first query for that scope
      fills it. `filledAt` records the instant of that first query. */
  /** One list per scope; each non-empty list is the window of its scope at the moment it
      was filled. */
  ghost predicate ValidMemo(keys: map<Scope, seq<string>>, filledAt: map<Scope, Date>) {
    && keys.Keys == {Annually, Quarterly, Monthly, Daily}
    && forall s :: s in keys && |keys[s]| > 0 ==>
         s in filledAt && Calendar.Valid(filledAt[s]) && keys[s] == WindowKeys(s, filledAt[s])
  }

  /** Filling the list of one scope with its window at `now` keeps the memo valid. */
  lemma FillKeepsValid(keys: map<Scope, seq<string>>, filledAt: map<Scope, Date>, s: Scope, now: Date)
    requires ValidMemo(keys, filledAt) && s in keys && s != Timeless && Calendar.Valid(now)
    ensures ValidMemo(keys[s := WindowKeys(s, now)], filledAt[s := now])
  {
    var w := WindowKeys(s, now);
    var keys', filledAt' := keys[s := w], filledAt[s := now];
    assert keys'.Keys == keys.Keys;
    forall t | t in keys' && |keys'[t]| > 0
      ensures t in filledAt' && Calendar.Valid(filledAt'[t]) && keys'[t] == WindowKeys(t, filledAt'[t])
    {
      if t != s {
        assert keys'[t] == keys[t] && filledAt'[t] == filledAt[t];
      }
    }
  }

  /** Whether keysInRange gets as far as the memo: the normalised keys share a recognised
      scope and the start sorts strictly before the end. */
  predicate ReadsMemo(startKey: string, endKey: string) {
    var a, b := NormalizeKey(startKey), NormalizeKey(endKey);
    ScopeKeyType(Some(a)) == ScopeKeyType(Some(b)) && ScopeKeyType(Some(a)).Some? && Lex.Less(a, b)
  }

  class KeysByScope {
    var keys: map<Scope, seq<string>>
    ghost var filledAt: map<Scope, Date>

    ghost predicate Valid()
      reads this
    {
      ValidMemo(keys, filledAt)
    }

    constructor ()
      ensures Valid()
      ensures keys == map[Annually := [], Quarterly := [], Monthly := [], Daily := []]
    {
      var empty: map<Scope, seq<string>> := map[Annually := [], Quarterly := [], Monthly := [], Daily := []];
      assert empty.Keys == {Annually, Quarterly, Monthly, Daily} by {
        assert forall s :: s in empty <==> s in {Annually, Quarterly, Monthly, Daily};
      }
      keys := empty;
      filledAt := map[];
    }

    /** util.getKeysByScope: the memoised window of `s`, walked from 2000 up to `now` when the
        memo for `s` is still empty; the timeless scope has no list (a TypeError). */
    method GetKeysByScope(s: Scope, now: Date) returns (r: Result<seq<string>>)
      requires Valid() && Calendar.Valid(now)
      modifies this
      ensures Valid()
      ensures s == Timeless ==> r.Err? && keys == old(keys)
      ensures s != Timeless && |old(keys)[s]| > 0 ==> r == Ok(old(keys)[s]) && keys == old(keys)
      ensures s != Timeless && |old(keys)[s]| == 0 ==>
        r == Ok(WindowKeys(s, now)) && keys == old(keys)[s := WindowKeys(s, now)]
    {
      if s == Timeless {
        return Err("TypeError: Cannot read property 'length' of undefined");
      }
      if |keys[s]| == 0 {
        var window := Walk(s, now);
        FillKeepsValid(keys, filledAt, s, now);
        keys := keys[s := window];
        filledAt := filledAt[s := now];
      }
      r := Ok(keys[s]);
    }

    /** util.keysInRange: the checks and shortcuts of `KeysInRangeOver`, reading the memo of
        the start key's scope (and filling it on its first use) only when it gets that far. */
    method KeysInRange(startKey: string, endKey: string, now: Date) returns (r: Result<seq<string>>)
      requires Valid() && Calendar.Valid(now)
      modifies this
      ensures Valid()
      ensures var scope := ScopeKeyType(Some(NormalizeKey(startKey)));
        r == KeysInRangeOver(startKey, endKey, if scope.Some? && scope.value in keys then keys[scope.value] else [])
      ensures !ReadsMemo(startKey, endKey) ==> keys == old(keys)
      ensures ReadsMemo(startKey, endKey) ==>
        var s := ScopeKeyType(Some(NormalizeKey(startKey))).value;
        && s in old(keys)
        && (|old(keys)[s]| > 0 ==> keys == old(keys))
        && (|old(keys)[s]| == 0 ==> keys == old(keys)[s := WindowKeys(s, now)])
      ensures forall s :: s in old(keys) && |old(keys)[s]| > 0 ==> s in keys && keys[s] == old(keys)[s]
    {
      var a, b := NormalizeKey(startKey), NormalizeKey(endKey);
      var scope := ScopeKeyType(Some(a));
      if scope != ScopeKeyType(Some(b)) {
        return Err("Error: Mismatch key type: " + startKey + " and " + endKey);
      }
      if a == b {
        return Ok([a]);
      }
      if !Lex.Less(a, b) {
        return Ok([]);
      }
      if scope.None? {
        return Err("TypeError: Cannot read property 'length' of undefined");
      }
      var window := GetKeysByScope(scope.value, now);
      assert window.Ok?;
      r := Ok(Between(window.value, a, b));
    }
  }
}
