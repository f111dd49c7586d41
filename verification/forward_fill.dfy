/** util.forwardFill: a series of observations, each seen on some day, extended to one entry
    per day from the first day (or `minSeen`) up to `fillToDate` (or the last day seen); a day
    without an observation repeats the latest earlier one and records when that was seen. */
module DailyFill {
  import opened Wrappers
  import opened Calendar

  /** An observation `{ v, _t, seen }`: a value, the day it was seen and, in a filled entry,
      the day the repeated observation was originally seen. */
  datatype Rec<V> = Rec(v: V, t: Option<Date>, seen: Date)

  /** January 1, 2002: the `minSeen` of the default options. */
  const DefaultMinSeen := Date(2002, 1, 1)

  predicate AllValid<V>(rs: seq<Rec<V>>) {
    forall i :: 0 <= i < |rs| ==> Valid(rs[i].seen)
  }

  /** The `seens` array: the day of every observation, in input order. */
  function Seens<V>(rs: seq<Rec<V>>): (ds: seq<Date>)
    ensures |ds| == |rs| && forall i :: 0 <= i < |rs| ==> ds[i] == rs[i].seen
  {
    seq(|rs|, i requires 0 <= i < |rs| => rs[i].seen)
  }

  /** The `map` object: the days seen, each mapped to an observation seen that day. */
  function Table<V>(rs: seq<Rec<V>>): (m: map<Date, Rec<V>>)
    ensures forall d :: d in m ==> m[d].seen == d
  {
    if rs == [] then map[]
    else Table(rs[..|rs| - 1])[rs[|rs| - 1].seen := rs[|rs| - 1]]
  }

  /** The days in the table are exactly the days seen, and each maps to the LAST observation
      seen that day (a later one overwrites an earlier one). */
  lemma TableHoldsLastRecord<V>(rs: seq<Rec<V>>)
    ensures forall d :: d in Table(rs) <==> d in Seens(rs)
    ensures forall i :: 0 <= i < |rs| && (forall j :: i < j < |rs| ==> rs[j].seen != rs[i].seen) ==>
      Table(rs)[rs[i].seen] == rs[i]
  {
    TableKeys(rs);
    TableValues(rs);
  }

  lemma {:induction false} TableKeys<V>(rs: seq<Rec<V>>)
    ensures forall d :: d in Table(rs) <==> d in Seens(rs)
  {
    if rs != [] {
      var front := rs[..|rs| - 1];
      TableKeys(front);
      assert Seens(rs) == Seens(front) + [rs[|rs| - 1].seen];
    }
  }

  lemma {:induction false} TableValues<V>(rs: seq<Rec<V>>)
    ensures forall i :: 0 <= i < |rs| && (forall j :: i < j < |rs| ==> rs[j].seen != rs[i].seen) ==>
      rs[i].seen in Table(rs) && Table(rs)[rs[i].seen] == rs[i]
  {
    if rs != [] {
      var front, last := rs[..|rs| - 1], rs[|rs| - 1];
      TableValues(front);
      forall i | 0 <= i < |rs| && (forall j :: i < j < |rs| ==> rs[j].seen != rs[i].seen)
        ensures rs[i].seen in Table(rs) && Table(rs)[rs[i].seen] == rs[i]
      {
        if i < |front| {
          assert rs[i] == front[i] && rs[|rs| - 1] == last;
          assert forall j :: i < j < |front| ==> front[j] == rs[j];
        }
      }
    }
  }

  /** The earliest of a non-empty list of days: `seens` sorted ascending, first element. */
  function Earliest(ds: seq<Date>): (m: Date)
    requires |ds| > 0
    ensures m in ds && forall i :: 0 <= i < |ds| ==> NotAfter(m, ds[i])
  {
    if |ds| == 1 then ds[0]
    else
      var rest := Earliest(ds[1..]);
      assert forall i :: 1 <= i < |ds| ==> ds[i] == ds[1..][i - 1];
      if NotAfter(ds[0], rest) then ds[0] else rest
  }

  /** The latest of a non-empty list of days: `seens` sorted ascending, last element. */
  function Latest(ds: seq<Date>): (m: Date)
    requires |ds| > 0
    ensures m in ds && forall i :: 0 <= i < |ds| ==> NotAfter(ds[i], m)
  {
    if |ds| == 1 then ds[0]
    else
      var rest := Latest(ds[1..]);
      assert forall i :: 1 <= i < |ds| ==> ds[i] == ds[1..][i - 1];
      if NotAfter(rest, ds[0]) then ds[0] else rest
  }

  // ---------------------------------------------------------------------------------------
  // The filled series, day by day.

  /** Days are ordered by `Ord`, and two valid days with the same `Ord` are the same day. */
  lemma PrevDayBounds(start: Date, d: Date)
    requires Valid(start) && Valid(d) && Before(start, d)
    ensures NotAfter(start, PrevDay(d)) && Before(PrevDay(d), d)
    ensures forall x :: Valid(x) && Before(x, d) ==> NotAfter(x, PrevDay(d))
  {
    NextDayIsSuccessor(PrevDay(d), start);
    forall x | Valid(x) && Before(x, d) ensures NotAfter(x, PrevDay(d)) {
      NextDayIsSuccessor(PrevDay(d), x);
    }
  }

  /** The latest day from `start` up to `d` that has an observation in `table`. */
  function LastHit<V>(table: map<Date, Rec<V>>, start: Date, d: Date): (h: Date)
    requires Valid(start) && Valid(d) && start in table && NotAfter(start, d)
    ensures Valid(h) && h in table && NotAfter(start, h) && NotAfter(h, d)
    decreases Ord(d) - Ord(start)
  {
    if d in table then d
    else
      OrdIsLexicographic(start, d);
      PrevDayBounds(start, d);
      LastHit(table, start, PrevDay(d))
  }

  /** No day after the last hit and up to `d` has an observation. */
  lemma {:induction false} LastHitIsLatest<V>(table: map<Date, Rec<V>>, start: Date, d: Date, x: Date)
    requires Valid(start) && Valid(d) && start in table && NotAfter(start, d)
    requires Valid(x) && Before(LastHit(table, start, d), x) && NotAfter(x, d)
    ensures x !in table
    decreases Ord(d) - Ord(start)
  {
    if d !in table {
      OrdIsLexicographic(start, d);
      OrdIsLexicographic(x, d);
      PrevDayBounds(start, d);
      if x != d {
        LastHitIsLatest(table, start, PrevDay(d), x);
      }
    }
  }

  /** The entry pushed for day `d`: the observation seen that day, or a copy of the latest
      earlier one with `_t` set to the day that one was seen. */
  function FillEntry<V>(table: map<Date, Rec<V>>, start: Date, d: Date): (r: Rec<V>)
    requires Valid(start) && Valid(d) && start in table && NotAfter(start, d)
    ensures r.seen == d
    ensures d in table ==> r == Rec(table[d].v, table[d].t, d)
  {
    var h := LastHit(table, start, d);
    if h == d then Rec(table[d].v, table[d].t, d)
    else Rec(table[h].v, Some(table[h].seen), d)
  }

  /** The entries for the days from `from` up to `end`. */
  function FillDays<V>(table: map<Date, Rec<V>>, start: Date, from: Date, end: Date): seq<Rec<V>>
    requires Valid(start) && Valid(from) && start in table && NotAfter(start, from)
    decreases Ord(end) - Ord(from)
  {
    if NotAfter(from, end) then
      NextDayIsSuccessor(from, from);
      [FillEntry(table, start, from)] + FillDays(table, start, NextDay(from), end)
    else []
  }

  /** The filled entries are the consecutive days from `from`, up to and including `end`,
      each with its `FillEntry`. */
  lemma FillDaysShape<V>(table: map<Date, Rec<V>>, start: Date, from: Date, end: Date)
    requires Valid(start) && Valid(from) && start in table && NotAfter(start, from)
    ensures var r := FillDays(table, start, from, end);
      && (forall i :: 0 <= i < |r| ==>
            && r[i].seen == AddDays(from, i) && NotAfter(AddDays(from, i), end)
            && NotAfter(start, AddDays(from, i))
            && r[i] == FillEntry(table, start, AddDays(from, i)))
      && !NotAfter(AddDays(from, |r|), end)
  {
    var r := FillDays(table, start, from, end);
    FillDaysEnd(table, start, from, end);
    forall i | 0 <= i < |r|
      ensures && r[i].seen == AddDays(from, i) && NotAfter(AddDays(from, i), end)
              && NotAfter(start, AddDays(from, i))
              && r[i] == FillEntry(table, start, AddDays(from, i))
    {
      FillDaysAt(table, start, from, end, i);
    }
  }

  /** Entry `i` of the fill is the entry for the `i`-th day after `from`, which is not after
      `end`. */
  lemma {:induction false} FillDaysAt<V>(table: map<Date, Rec<V>>, start: Date, from: Date, end: Date, i: nat)
    requires Valid(start) && Valid(from) && start in table && NotAfter(start, from)
    requires i < |FillDays(table, start, from, end)|
    ensures && NotAfter(AddDays(from, i), end) && NotAfter(start, AddDays(from, i))
            && FillDays(table, start, from, end)[i] == FillEntry(table, start, AddDays(from, i))
    decreases i
  {
    NextDayIsSuccessor(from, from);
    if i > 0 {
      FillDaysAt(table, start, NextDay(from), end, i - 1);
      AddDaysShift(from, i - 1);
    }
  }

  /** The day after the last filled one is after `end`. */
  lemma {:induction false} FillDaysEnd<V>(table: map<Date, Rec<V>>, start: Date, from: Date, end: Date)
    requires Valid(start) && Valid(from) && start in table && NotAfter(start, from)
    ensures !NotAfter(AddDays(from, |FillDays(table, start, from, end)|), end)
    decreases Ord(end) - Ord(from)
  {
    if NotAfter(from, end) {
      NextDayIsSuccessor(from, from);
      FillDaysEnd(table, start, NextDay(from), end);
      AddDaysShift(from, |FillDays(table, start, NextDay(from), end)|);
    }
  }

  /** Before the first day, the series starts at `minSeen` when the earliest observation is
      older, and the earliest observation is also filed under `minSeen`. */
  function StartDay<V>(rs: seq<Rec<V>>, minSeen: Option<Date>): Date
    requires |rs| > 0
  {
    var first := Earliest(Seens(rs));
    if minSeen.Some? && Before(first, minSeen.value) then minSeen.value else first
  }

  function StartTable<V>(rs: seq<Rec<V>>, minSeen: Option<Date>): (m: map<Date, Rec<V>>)
    requires |rs| > 0
    ensures StartDay(rs, minSeen) in m
  {
    TableHoldsLastRecord(rs);
    var table, first := Table(rs), Earliest(Seens(rs));
    if minSeen.Some? && Before(first, minSeen.value) then table[minSeen.value := table[first]] else table
  }

  /** The array util.forwardFill returns, for options `minSeen` and `fillToDate`. */
  function ForwardFilled<V>(rs: seq<Rec<V>>, minSeen: Option<Date>, fillToDate: Option<Date>): seq<Rec<V>>
    requires AllValid(rs) && (minSeen.Some? ==> Valid(minSeen.value))
  {
    if rs == [] then []
    else
      var start := StartDay(rs, minSeen);
      FillDays(StartTable(rs, minSeen), start, start, fillToDate.GetOr(Latest(Seens(rs))))
  }

  /** The table the fill starts from differs from the observations' table only at the start
      day, which holds the earliest observation when `minSeen` moved the start. */
  lemma StartTableAgrees<V>(rs: seq<Rec<V>>, minSeen: Option<Date>)
    requires |rs| > 0
    ensures var t, start, first := StartTable(rs, minSeen), StartDay(rs, minSeen), Earliest(Seens(rs));
      && (forall d :: d in t <==> d in Seens(rs) || d == start)
      && (forall d :: d in t && d != start ==> t[d] == Table(rs)[d])
      && t[start] == Table(rs)[first]
  {
    TableHoldsLastRecord(rs);
  }

  /** The filled series runs over consecutive days, from the start day up to and including
      the end day (`fillToDate`, or the last day seen); a day with an observation shows that
      observation, and any other day repeats the latest earlier one, with `_t` the day that
      one was seen. */
  lemma ForwardFilledDays<V>(rs: seq<Rec<V>>, minSeen: Option<Date>, fillToDate: Option<Date>)
    requires AllValid(rs) && (minSeen.Some? ==> Valid(minSeen.value)) && |rs| > 0
    ensures var r, t := ForwardFilled(rs, minSeen, fillToDate), StartTable(rs, minSeen);
      var start, end := StartDay(rs, minSeen), fillToDate.GetOr(Latest(Seens(rs)));
      && Valid(start) && start in t
      && (forall i :: 0 <= i < |r| ==>
            r[i].seen == AddDays(start, i) && NotAfter(start, r[i].seen) && NotAfter(r[i].seen, end))
      && !NotAfter(AddDays(start, |r|), end)
      && (forall i :: 0 <= i < |r| && r[i].seen in t ==> r[i] == Rec(t[r[i].seen].v, t[r[i].seen].t, r[i].seen))
      && (forall i :: 0 <= i < |r| && r[i].seen !in t ==>
            var h := LastHit(t, start, r[i].seen);
            && Before(h, r[i].seen) && r[i] == Rec(t[h].v, Some(t[h].seen), r[i].seen)
            && forall x :: Valid(x) && Before(h, x) && NotAfter(x, r[i].seen) ==> x !in t)
  {
    var t, start := StartTable(rs, minSeen), StartDay(rs, minSeen);
    var end := fillToDate.GetOr(Latest(Seens(rs)));
    assert Valid(start) by {
      assert Earliest(Seens(rs)) in Seens(rs);
    }
    FillDaysShape(t, start, start, end);
    var r := ForwardFilled(rs, minSeen, fillToDate);
    forall i | 0 <= i < |r| && r[i].seen !in t
      ensures var h := LastHit(t, start, r[i].seen);
        && Before(h, r[i].seen) && r[i] == Rec(t[h].v, Some(t[h].seen), r[i].seen)
        && forall x :: Valid(x) && Before(h, x) && NotAfter(x, r[i].seen) ==> x !in t
    {
      var d := r[i].seen;
      var h := LastHit(t, start, d);
      OrdIsLexicographic(h, d);
      forall x | Valid(x) && Before(h, x) && NotAfter(x, d) ensures x !in t {
        LastHitIsLatest(t, start, d, x);
      }
    }
  }

  /** As written, when the earliest observation is older than `minSeen`, the first entry
      (on `minSeen`) shows the EARLIEST observation, even when another one was seen later but
      still by `minSeen`, or on `minSeen` itself. */
  lemma MinSeenTakesEarliest<V>(rs: seq<Rec<V>>, minSeen: Date, fillToDate: Option<Date>)
    requires AllValid(rs) && Valid(minSeen) && |rs| > 0
    requires Before(Earliest(Seens(rs)), minSeen) && NotAfter(minSeen, fillToDate.GetOr(Latest(Seens(rs))))
    ensures var r, first := ForwardFilled(rs, Some(minSeen), fillToDate), Earliest(Seens(rs));
      first in Table(rs) && |r| > 0 && r[0] == Rec(Table(rs)[first].v, Table(rs)[first].t, minSeen)
  {
    TableHoldsLastRecord(rs);
    var t := StartTable(rs, Some(minSeen));
    FillDaysShape(t, minSeen, minSeen, fillToDate.GetOr(Latest(Seens(rs))));
    StartTableAgrees(rs, Some(minSeen));
  }

  /** The start table with the latest observation seen by `minSeen` filed under `minSeen`. */
  function StartTableLatest<V>(rs: seq<Rec<V>>, minSeen: Option<Date>): (m: map<Date, Rec<V>>)
    requires AllValid(rs) && (minSeen.Some? ==> Valid(minSeen.value)) && |rs| > 0
    ensures StartDay(rs, minSeen) in m
  {
    TableHoldsLastRecord(rs);
    var table, first := Table(rs), Earliest(Seens(rs));
    if minSeen.Some? && Before(first, minSeen.value) then
      table[minSeen.value := table[LastHit(table, first, minSeen.value)]]
    else table
  }

  /** util.forwardFill carrying the last value before `minSeen` into the first entry. */
  function ForwardFilledLatest<V>(rs: seq<Rec<V>>, minSeen: Option<Date>, fillToDate: Option<Date>): seq<Rec<V>>
    requires AllValid(rs) && (minSeen.Some? ==> Valid(minSeen.value))
  {
    if rs == [] then []
    else
      var start := StartDay(rs, minSeen);
      FillDays(StartTableLatest(rs, minSeen), start, start, fillToDate.GetOr(Latest(Seens(rs))))
  }

  /** Carrying the latest observation: the first entry shows the last observation seen on or
      before `minSeen`, and no day between it and `minSeen` has one. */
  lemma MinSeenTakesLatest<V>(rs: seq<Rec<V>>, minSeen: Date, fillToDate: Option<Date>)
    requires AllValid(rs) && Valid(minSeen) && |rs| > 0
    requires Before(Earliest(Seens(rs)), minSeen) && NotAfter(minSeen, fillToDate.GetOr(Latest(Seens(rs))))
    ensures var r, first := ForwardFilledLatest(rs, Some(minSeen), fillToDate), Earliest(Seens(rs));
      && first in Table(rs) && Valid(first)
      && var h := LastHit(Table(rs), first, minSeen);
      && h in Seens(rs) && NotAfter(h, minSeen)
      && (forall x :: Valid(x) && Before(h, x) && NotAfter(x, minSeen) ==> x !in Seens(rs))
      && |r| > 0 && r[0] == Rec(Table(rs)[h].v, Table(rs)[h].t, minSeen)
  {
    TableHoldsLastRecord(rs);
    var first := Earliest(Seens(rs));
    var t := StartTableLatest(rs, Some(minSeen));
    FillDaysShape(t, minSeen, minSeen, fillToDate.GetOr(Latest(Seens(rs))));
    forall x | Valid(x) && Before(LastHit(Table(rs), first, minSeen), x) && NotAfter(x, minSeen)
      ensures x !in Seens(rs)
    {
      LastHitIsLatest(Table(rs), first, minSeen, x);
    }
  }

  /** Two observations, the second seen on `minSeen` itself: as written the first entry shows
      the first observation's value, carrying the latest one it shows the second's. */
  lemma MinSeenDropsItsOwnObservation<V>(a: Rec<V>, b: Rec<V>, fillToDate: Option<Date>)
    requires Valid(a.seen) && Valid(b.seen) && Before(a.seen, b.seen)
    requires fillToDate.Some? ==> NotAfter(b.seen, fillToDate.value)
    ensures var asWritten := ForwardFilled([a, b], Some(b.seen), fillToDate);
      |asWritten| > 0 && asWritten[0] == Rec(a.v, a.t, b.seen)
    ensures var latest := ForwardFilledLatest([a, b], Some(b.seen), fillToDate);
      |latest| > 0 && latest[0] == Rec(b.v, b.t, b.seen)
  {
    var rs := [a, b];
    assert Seens(rs) == [a.seen, b.seen];
    assert Earliest(Seens(rs)) == a.seen;
    assert Latest(Seens(rs)) == b.seen;
    TableHoldsLastRecord(rs);
    assert Table(rs)[a.seen] == a;
    assert Table(rs)[b.seen] == b;
    MinSeenTakesEarliest(rs, b.seen, fillToDate);
    MinSeenTakesLatest(rs, b.seen, fillToDate);
  }

  // ---------------------------------------------------------------------------------------
  // The call itself.

  /** The options object of util.forwardFill; the call writes `fillToDate` into it when it
      is null. */
  class FillOptions {
    var minSeen: Option<Date>
    var fillToDate: Option<Date>

    /** The options used when none are passed: `minSeen` January 1, 2002, no `fillToDate`. */
    constructor Default()
      ensures minSeen == Some(DefaultMinSeen) && fillToDate == None
    {
      minSeen := Some(DefaultMinSeen);
      fillToDate := None;
    }

    constructor (minSeen: Option<Date>, fillToDate: Option<Date>)
      ensures this.minSeen == minSeen && this.fillToDate == fillToDate
    {
      this.minSeen := minSeen;
      this.fillToDate := fillToDate;
    }
  }

  /** The `forEach` pass of util.forwardFill: file each observation under its day and list
      the days. */
  method IndexRecords<V>(records: seq<Rec<V>>) returns (table: map<Date, Rec<V>>, seens: seq<Date>)
    ensures table == Table(records) && seens == Seens(records)
  {
    table, seens := map[], [];
    var i := 0;
    while i < |records|
      invariant 0 <= i <= |records|
      invariant table == Table(records[..i]) && seens == Seens(records[..i])
    {
      assert records[..i + 1][..i] == records[..i];
      table := table[records[i].seen := records[i]];
      seens := seens + [records[i].seen];
      i := i + 1;
    }
    assert records[..|records|] == records;
  }

  /** The `while (currentDate <= options.fillToDate)` loop of util.forwardFill, from the start
      day `firstDate`, which has an observation in `table`. */
  method FillLoop<V>(table: map<Date, Rec<V>>, firstDate: Date, end: Date) returns (filled: seq<Rec<V>>)
    requires Valid(firstDate) && firstDate in table
    ensures filled == FillDays(table, firstDate, firstDate, end)
  {
    var cur := firstDate;
    var lastSeen := table[firstDate];
    filled := [];
    while NotAfter(cur, end)
      invariant Valid(cur) && NotAfter(firstDate, cur)
      invariant cur == firstDate ==> lastSeen == table[firstDate]
      invariant Before(firstDate, cur) ==>
        NotAfter(firstDate, PrevDay(cur)) && lastSeen == table[LastHit(table, firstDate, PrevDay(cur))]
      invariant filled + FillDays(table, firstDate, cur, end) == FillDays(table, firstDate, firstDate, end)
      decreases Ord(end) - Ord(cur)
    {
      var entry;
      entry, lastSeen := FillOnce(table, firstDate, cur, lastSeen);
      FillDaysStep(table, firstDate, cur, end);
      Snoc(filled, entry, FillDays(table, firstDate, NextDay(cur), end));
      filled := filled + [entry];
      cur := NextDay(cur);
    }
  }

  /** One day of the loop: the day's own observation when it has one, otherwise a copy of the
      latest one with `_t` set to when that was seen. */
  method FillOnce<V>(table: map<Date, Rec<V>>, firstDate: Date, cur: Date, lastSeen: Rec<V>)
    returns (entry: Rec<V>, seenNow: Rec<V>)
    requires Valid(firstDate) && firstDate in table && Valid(cur) && NotAfter(firstDate, cur)
    requires cur == firstDate ==> lastSeen == table[firstDate]
    requires Before(firstDate, cur) ==>
        NotAfter(firstDate, PrevDay(cur)) && lastSeen == table[LastHit(table, firstDate, PrevDay(cur))]
    ensures entry == FillEntry(table, firstDate, cur)
    ensures seenNow == table[LastHit(table, firstDate, cur)]
  {
    OrdIsLexicographic(firstDate, cur);
    if cur in table {
      var data := table[cur];
      seenNow := data;
      entry := Rec(data.v, data.t, cur);
    } else {
      seenNow := lastSeen;
      entry := Rec(lastSeen.v, Some(lastSeen.seen), cur);
    }
  }

  /** One more day of `FillDays`, and the facts the loop needs about the next day. */
  lemma FillDaysStep<V>(table: map<Date, Rec<V>>, start: Date, cur: Date, end: Date)
    requires Valid(start) && Valid(cur) && start in table && NotAfter(start, cur) && NotAfter(cur, end)
    ensures Before(start, NextDay(cur)) && PrevDay(NextDay(cur)) == cur && Ord(cur) < Ord(NextDay(cur))
    ensures FillDays(table, start, cur, end) == [FillEntry(table, start, cur)] + FillDays(table, start, NextDay(cur), end)
  {
    NextDayIsSuccessor(cur, cur);
  }

  lemma Snoc<T>(a: seq<T>, x: T, b: seq<T>)
    ensures (a + [x]) + b == a + ([x] + b)
  {
  }

  /** util.forwardFill: index the observations by day, start at the earliest day (or at
      `minSeen`, filed with the earliest observation), and push one entry per day up to
      `fillToDate`, which defaults to the last day seen and is then stored in `options`. */
  method ForwardFill<V>(records: seq<Rec<V>>, options: FillOptions) returns (filled: seq<Rec<V>>)
    requires AllValid(records) && (options.minSeen.Some? ==> Valid(options.minSeen.value))
    modifies options
    ensures options.minSeen == old(options.minSeen)
    ensures options.fillToDate ==
      if old(options.fillToDate).Some? || records == [] then old(options.fillToDate) else Some(Latest(Seens(records)))
    ensures filled == ForwardFilled(records, old(options.minSeen), old(options.fillToDate))
  {
    var table, seens := IndexRecords(records);
    if records == [] {
      // `seens[0]` is undefined: the start day is an Invalid Date and no day is pushed.
      return [];
    }
    TableHoldsLastRecord(records);
    var first, last := Earliest(seens), Latest(seens);
    var firstDate := first;
    if options.minSeen.Some? && Before(first, options.minSeen.value) {
      firstDate := options.minSeen.value;
      table := table[firstDate := table[first]];
    }
    if options.fillToDate.None? {
      options.fillToDate := Some(last);
    }
    filled := FillLoop(table, firstDate, options.fillToDate.value);
  }
}
