# tfdata in Dafny

A model of tfdata, a container for financial time series. A series (`TFdata`) has a scope
type (annually, quarterly, monthly, daily or timeless) and an ordered list of observations
`{ v, seen, fk, ed }`: a value, the day it was seen, a fiscal key and an end date. A timeless
series holds one value instead. Periods are named by scope keys: `2015`, `2015Q3`, `2015-3`
or `2015-03`, and `2015-3-15`. The utilities in `util.js` classify, parse, print and shift
these keys and list the keys between two of them. They also trim and fill arrays and
dictionaries. `tfdata.js` builds lookups on top: point-in-time and fiscal lookups, grouping
into key/value dictionaries, trend counts, trending periods, growth rates, trailing sums and
the fiscal-year roll-up.

The model has one Dafny module per concern:

- `Calendar`: UTC calendar days and day, month and year arithmetic.
- `Digits`, `Lex`: decimal fields, and JavaScript's string order.
- `ScopeKeys`, `ScopeKeyLemmas`: the key codec and its round trips.
- `KeyArith`: key arithmetic, `convertScopePeriod`, `compareKey` and
  `getLargestKeyWithScopeType`.
- `KeyRange`: the memoised key windows of `getKeysByScope` (a class) and `keysInRange`.
- `Fill`: `filterAscArray`, `generateDates` and `forwardFillObject`.
- `DailyFill`: `forwardFill`.
- `RawValues`: the raw value object (a class) with `setValue` and `getFiscalValue`.
- `Records`, `JsObject`: observations, `Array.filter`, and plain objects used as
  dictionaries.
- `Series`: the `TFdata` class.
- `KeyValue`: `toKeyValue`, `groupByScope` and `groupToKeyValue`.
- `Trend`: `trendCount` and `trendCountStrict`.
- `Trending`: the trending-period counters.
- `Growth`: `lastQGrowth`, `ttmCagr` and `quarterlyCagr`.
- `Rollups`: `daysTrailingValues`, `ttm` and `toFiscalYear`.

Code that works step by step is modelled as methods with loops. These include the memo walk,
`filterAscArray`, the two fill loops, the `forEach` loops of the dictionary builders and
counters, and `setValue`'s upsert. Each method is proved equal to a specification function.
The properties promised are proved as lemmas about those functions. The source's classes
(`TFdata`, the key memo, the raw value object and `forwardFill`'s options) are Dafny classes
whose methods update their fields.

The current moment (`moment()`, `new Date()`) is a parameter `now`. The memo that
`keysInRange` reads is a parameter `memo` wherever a pure function needs it. The class
`KeyRange.KeysByScope` keeps it as state.

Where the code and its description disagree, the model follows the code:

- The key windows are filled once, up to the moment of the first query for each scope, and
  are never extended.
- The round trip from key string to date and back is `normalizeKey` of the key only through
  `dateToNormalizeScopeKey`. `dateToScopeKey` prints monthly keys without the zero
  (`KeyStringRoundTrip`).
- At `minSeen`, `forwardFill` shows the earliest observation (see Findings).
- In fiscal mode at the monthly scope, months 1-9 are grouped under unpadded keys. The
  range lists them padded, so those groups are never read (`FiscalMonthlyMissesLooseMonths`).

## Model

| member | source | states |
|---|---|---|
| `Calendar.NextDayIsSuccessor` | util.js:147-151 | The next day is later than the day, no valid day lies strictly between them, and the next and the previous day undo each other. |
| `Calendar.AddDaysCompose` | util.js:147-151 | Moving a days and then b days is moving a + b days. |
| `Calendar.AddDaysMonotone` | util.js:147-151 | Moving forward by a non-negative number of days never goes back in time, and a positive count moves strictly forward. |
| `Calendar.DifferenceOfAddMonths` | util.js:724-729 | differenceMonth finds n again from a date and that date moved n months, in either argument order, with the sign flipped. |
| `Lex.Transitive` | util.js:588-593 | JavaScript's `<` on strings, which keysInRange uses, is transitive. |
| `Lex.Total` | util.js:588-593 | Any two different strings are ordered one way or the other. |
| `ScopeKeys.ScopeKeyType` | util.js:266-283 | A null key, and only a null key, is timeless. |
| `ScopeKeyLemmas.KeyTypeExamples` | util.js:266-283 | `2015-1`, `2015-01` and `2015-12` are monthly, `2015Q3` quarterly, `2015` annual and `2015-3-15` daily. `2015Q5`, `2015-13` and `15` match no pattern. |
| `ScopeKeys.ParseKey` | util.js:10-13 | A string parses exactly when scopeKeyType recognises it, and then with the same scope and a four-digit year. Every parsed key other than a daily one names a real period. |
| `ScopeKeys.KeyOf` | util.js:226-244 | The key of a date at a scope has that scope, is a real period and has the date's year. |
| `ScopeKeys.ScopeKeyToDate` | util.js:284-308 | A null key gives null and an unrecognised key is a TypeError. A date result is the last day of the period the key names. |
| `ScopeKeys.DateToScopeKey` | util.js:226-234 | Null for a null date or the timeless scope. Otherwise the loose key of the period that contains the date. |
| `ScopeKeys.DateToNormalizeScopeKey` | util.js:236-244 | Null for the timeless scope. Otherwise the zero-padded key of the period that contains the date. |
| `ScopeKeys.ConvertKey` | util.js:195-198 | A null key converts to null and an unrecognised key is an error. A recognised key gives a string at a dated scope, and null at the timeless scope. That string is a key, except for a daily key naming no day (`2015-2-30`), which gives "Invalid date". |
| `ScopeKeys.PeriodMembership` | util.js:226-244 | A date's key is k exactly when the date lies between k's first and last day. |
| `ScopeKeys.EndOfPeriodStaysInPeriod` | util.js:226-244 | Rounding a date up to the end of its period stays in the period, and that end is the period's anchor day. |
| `ScopeKeyLemmas.ParseRender` | util.js:20-32 | Every period with a four-digit year prints, loose or padded, to a string that scopeKeyType classifies by the period's scope and that parses back to the same period. |
| `ScopeKeyLemmas.KeyOfEndDate` | util.js:284-308 | A period's first and last days lie in the period. |
| `ScopeKeyLemmas.DateInPeriodYieldsKey` | util.js:226-244 | Every day inside a period yields that period's key: the loose one from dateToScopeKey and the padded one from dateToNormalizeScopeKey. |
| `ScopeKeyLemmas.KeyDateRoundTrip` | util.js:284-308 | Key to date to key: both printed forms of a key map to its period's last day, and that day prints back to the key in each format. |
| `ScopeKeyLemmas.KeyStringRoundTrip` | util.js:246-253 | A recognised monthly, quarterly or annual key string maps to its last day, which prints back as normalizeKey of the string. Quarterly and annual strings also come back unchanged in the loose format. |
| `ScopeKeyLemmas.ConvertKeyPeriods` | util.js:195-198 | convertKey gives the target-scope period containing the key's last day. The key's own scope gives the key back. A finer scope gives the last sub-period, and a coarser one the containing period. |
| `ScopeKeyLemmas.PaddedOrderIsChronological` | util.js:27-32 | Padded keys of one scope sort as strings exactly as their periods sort in time, and equal strings are equal periods. |
| `KeyArith.ShiftIndex` | util.js:309-325 | Moving a key n periods moves its running period number by exactly n. |
| `KeyArith.ShiftInverse` | util.js:309-325 | Moving n periods and then -n returns to the same period. Moving 0 stays put, and a positive move goes forward in time. |
| `KeyArith.ShiftCompose` | util.js:309-325 | Moves add up. |
| `KeyArith.ShiftSuccessor` | util.js:309-325 | No period of the same scope starts strictly between a period and the next one. |
| `KeyArith.MoveDateIsShift` | util.js:175-188 | Moving a period's last day by i units of its scope (addDay, addMonth, addQuarter, addYear) lands in the period i periods later. |
| `KeyArith.MoveStartIsShift` | util.js:566-569 | Moving a period's first day by one unit gives the next period's first day. |
| `KeyArith.AddScopeKey` | util.js:309-325 | A null key gives null and an unrecognised key is a TypeError. A key naming a period gives the loose key of the period i periods later, in the key's own scope. A daily key that names no day gives "Invalid date". |
| `KeyArith.AddNormalizedScopeKey` | util.js:326-352 | The same cases, with the moved period printed in the padded format. |
| `KeyArith.SubtractScopeKey` | util.js:353-358 | A key naming a period gives the loose key i periods earlier, or one period earlier when i is missing. |
| `KeyArith.AddToRendered` | util.js:309-352 | Adding n to a loose or padded key gives the key of the period n later. |
| `KeyArith.AddZeroIsIdentity` | util.js:309-358 | Adding or subtracting 0 gives the key back, in the loose format. |
| `KeyArith.AddScopeKeyCountsPeriods` | util.js:309-325 | On a monthly, quarterly or annual key, addScopeKey moves exactly n periods of the key's own scope. |
| `KeyArith.ConvertScopePeriod` | util.js:428-436 | Equal scopes give the count itself. Otherwise the result is the fewest target periods that cover the source periods. A daily or timeless scope has no ratio and gives an error. For a target scope, that error stands for the `NaN` that `Math.ceil(i * undefined)` returns. For a source scope, it stands for the TypeError thrown on the missing table row. |
| `KeyArith.ConvertScopePeriodRoundTrip` | util.js:402-436 | Converting a count to a finer scope and back gives the count again. One year is 4 quarters and 12 months. |
| `KeyArith.CompareKey` | util.js:437-471 | The result is -1, 0 or 1. Null sorts first, and 0 means equal keys. A non-monthly first key is compared as a whole string. |
| `KeyArith.CompareKeyIsChronological` | util.js:437-471 | On padded keys of one scope, compareKey is the chronological comparison of the periods. |
| `KeyArith.CompareKeyUnpaddedMonths` | util.js:437-471 | Unpadded month fields compare as strings, so `2015-10` sorts before `2015-9`. |
| `KeyArith.ConvertAll` | util.js:549-551 | Every key is converted, in order, or the result names a key that convertKey rejects. |
| `KeyArith.Largest` | util.js:552-553 | The last key after `.sort()` is one of the keys and no key sorts after it. |
| `KeyArith.LargestKeyWithScopeType` | util.js:548-554 | An error exactly when some key cannot be converted. Otherwise the result is a converted key, and every converted key sorts no later than it. |
| `KeyArith.LargestKeyIsLatest` | util.js:548-554 | Converted to quarters or years, the result is the latest period that any of the keys falls in. |
| `KeyArith.LargestMonthlyKeyQuirk` | util.js:548-554 | Converted to months, `Y-9` is picked over `Y-12`. |
| `KeyRange.PeriodsFromShape` | util.js:566-569 | The walk visits the period and the ones after it in order, and stops at the first period that starts after `now`. |
| `KeyRange.PeriodsFromMembership` | util.js:566-569 | A period is visited exactly when it starts between the first period's start and `now`. |
| `KeyRange.WindowElements` | util.js:557-573 | Each window key is the padded key of a period that starts between 1 January 2000 and `now`. |
| `KeyRange.WindowSorted` | util.js:557-573 | A window is strictly ascending as strings. |
| `KeyRange.WindowMembership` | util.js:557-573 | A padded key is in a window exactly when its period starts between 1 January 2000 and `now`. |
| `KeyRange.Walk` | util.js:559-570 | The while loop builds exactly the window of the scope at `now`. |
| `KeyRange.WalkOnce` | util.js:567-568 | One turn of the loop formats the current period's padded key and moves to the next period's first day. |
| `KeyRange.Between` | util.js:593 | The filter keeps exactly the window keys between the two bounds inclusive, and keeps them ascending. |
| `KeyRange.KeysInRangeOver` | util.js:576-595 | Keys of different types are an error. Equal keys give that one key, and a start after the end gives nothing. Otherwise the result is the window keys between the two keys, ascending. |
| `KeyRange.NormalizeRendered` | util.js:246-253 | A padded key is its own normal form. Normalising a loose monthly, quarterly or annual key gives the padded key. |
| `KeyRange.RangeIsPeriods` | util.js:576-595 | On two periods of one scope the result is ascending. It is the one key when the periods are equal and empty when the start is later. Otherwise it lists a period exactly when the period lies between the two and inside the 2000-to-`now` window. |
| `KeyRange.FillKeepsValid` | util.js:557-573 | Filling one scope's list with its window keeps every list the window of its scope at its filling time. |
| `KeyRange.KeysByScope.constructor` | util.js:46-51 | The memo starts with an empty list for each dated scope. |
| `KeyRange.KeysByScope.GetKeysByScope` | util.js:557-573 | Timeless is an error. A filled list is returned unchanged. An empty list is filled with the scope's window at `now` and then returned. |
| `KeyRange.KeysByScope.KeysInRange` | util.js:576-595 | The answer is keysInRange over the list of the start key's scope. When the call reaches the memo and that list is empty, the list becomes the window at `now`. Every other list stays as it was, and nothing changes when the call returns before the memo. An unrecognised scope reads `.length` of undefined (a TypeError). |
| `Fill.TrimTail` | util.js:525-547 | The result is a prefix of the array that is empty or ends in a surviving element, and every element cut off fails the test. |
| `Fill.FilterAscArray` | util.js:525-547 | The popping loop over a copy computes exactly that trimmed prefix. |
| `Fill.EndsBeforeShape` | util.js:511-521 | The dates are the last days of consecutive periods, starting with the start date's period, all before `to`. The next period's last day is not before `to`. |
| `Fill.GenerateDates` | util.js:511-521 | The loop yields exactly those period ends, and the timeless scope is an error. |
| `Fill.LastKey` | util.js:612 | The greatest key in string order, and one of the keys. |
| `Fill.LookbackTest` | util.js:622-628 | Without a lookback nothing is cut. With one, the test compares the loose key `maxLookback` periods before the end period with the padded key after the greatest key. |
| `Fill.FillAdvance` | util.js:630-633 | One turn of the fill loop writes the padded key of a period that starts by `endDate` and moves to the next period's padded key. |
| `Fill.FillLoop` | util.js:630-633 | The loop writes the last value under the padded key of every period from the one after the greatest key up to `endDate`'s period, and leaves every other entry as it was. |
| `Fill.FilledObjectCases` | util.js:610-636 | On a recognised greatest key the object is extended unless the lookback cuts it. A daily key naming no day leaves the object unchanged. |
| `Fill.ForwardFillObject` | util.js:610-636 | An empty object comes back as it is. Otherwise the result is the filled copy for the greatest key: an error when that key is not a key, and otherwise every original entry kept and every later period up to `endDate` carrying its value. |
| `Fill.LookbackCountsPeriods` | util.js:622-628 | For annual and quarterly keys the fill is skipped exactly when the period after the greatest key comes before the earliest allowed period. |
| `Fill.MonthlyLookbackSkipsTooEarly` | util.js:622-628 | For monthly keys the test is not chronological. Earliest allowed September and next key October: the test cuts, although October is within the lookback. |
| `Fill.MonthlyLookbackOutcome` | util.js:610-636 | On a whole object with greatest key September, endDate in November and a lookback of 2, the object is left as it is. The padded comparison fills October and November. |
| `Fill.FilledObjectPadded` | util.js:610-636 | With the earliest allowed key printed padded, a filled object keeps every original key. |
| `Fill.PaddedLookbackIsChronological` | util.js:622-628 | With the padded earliest key, the fill is skipped exactly when the period after the greatest key starts before the earliest allowed period, in every scope. |
| `DailyFill.Seens` | util.js:646-649 | The `seens` array lists the day of every observation in input order. |
| `DailyFill.TableHoldsLastRecord` | util.js:646-649 | The table's days are exactly the days seen. Each day holds the last observation seen that day. |
| `DailyFill.Earliest` | util.js:651-658 | The first of the sorted days is one of them and no later than any. |
| `DailyFill.Latest` | util.js:661 | The last of the sorted days is one of them and no earlier than any. |
| `DailyFill.LastHit` | util.js:667-677 | The latest day up to `d` with an observation, from the start day on. |
| `DailyFill.LastHitIsLatest` | util.js:667-677 | No day after that last hit and up to `d` has an observation. |
| `DailyFill.FillEntry` | util.js:670-683 | A day's entry is dated that day. A day with an observation shows it. |
| `DailyFill.FillDaysShape` | util.js:669-687 | The entries are the consecutive days from the start, up to and including the end, each with its entry. |
| `DailyFill.StartTableAgrees` | util.js:653-659 | The table the loop reads differs from the observations' table only at the start day, which holds the earliest observation. |
| `DailyFill.ForwardFilledDays` | util.js:638-690 | One entry per day from the start day through the end day. A day with an observation shows it. Any other day repeats the latest earlier observation, and `_t` gives the day that observation was seen. |
| `DailyFill.MinSeenTakesEarliest` | util.js:653-659 | When the earliest observation predates `minSeen`, the first entry shows the earliest observation. |
| `DailyFill.MinSeenDropsItsOwnObservation` | util.js:653-659 | With one observation before `minSeen` and one on it, as written the first entry shows the older one. Carrying the latest, it shows the one seen on `minSeen`. |
| `DailyFill.MinSeenTakesLatest` | util.js:653-659 | Carrying the latest observation, the first entry shows the last observation seen on or before `minSeen`, and no day between that one and `minSeen` has one. |
| `DailyFill.FillOptions.Default` | util.js:638-641 | The default options: `minSeen` is 1 January 2002 and there is no `fillToDate`. |
| `DailyFill.FillOptions.constructor` | util.js:638-641 | Options hold the given `minSeen` and `fillToDate`. |
| `DailyFill.IndexRecords` | util.js:646-649 | The `forEach` builds the day table and the list of days. |
| `DailyFill.FillOnce` | util.js:670-683 | One day's entry is the day's own observation or a copy of the latest one, and the latest observation is carried on. |
| `DailyFill.FillLoop` | util.js:669-687 | The while loop yields exactly the day-by-day entries from the start day through the end. |
| `DailyFill.ForwardFill` | util.js:638-690 | The result is the filled series. `fillToDate` is written back into the options when it was null and there are observations. |
| `RawValues.Upsert` | util.js:70-89 | Without an entry for `ck` one is appended and the others stay. Otherwise the entry is rewritten in place. Entries with other calendar keys are untouched. The written entry holds the value, keys and `seen`, takes `ed` from `meta` when given, and stores `meta` without `ed`. |
| `RawValues.WriteEntry` | util.js:70-89 | The in-place find and write computes exactly that upsert. |
| `RawValues.UpsertKeepsUnique` | util.js:70-89 | Writing by calendar key keeps the calendar keys distinct. |
| `RawValues.RawValue.constructor` | util.js:60-69 | A fresh raw value has no type, no value and no values. |
| `RawValues.RawValue.SetValue` | util.js:60-92 | A null calendar key stores a timeless value. Any other key sets the type to the key's scope and upserts by calendar key. Distinct calendar keys stay distinct. |
| `RawValues.RawValue.GetFiscalValue` | util.js:93-122 | No type gives the whole object and a timeless object gives its value. Otherwise the result is the `v` of the first entry with the fiscal key, or null exactly when no entry has it. An object without `_values` throws. |
| `RawValues.SetThenGetFiscal` | util.js:60-122 | After a write, reading by the written fiscal key gives the written value, when no other calendar key's entry shares that fiscal key. |
| `Records.Filter` | tfdata.js:112 | The filter keeps elements that pass, taken from the input, never more than the input. |
| `Records.FilterAppend` | tfdata.js:112 | Filtering distributes over concatenation. |
| `Records.FirstIndex` | tfdata.js:137-139 | The first passing index at or after `from`, or none when none passes. |
| `Records.LastIndex` | tfdata.js:121-123 | The last passing index below `upto`, or none when none passes. |
| `Records.FilterHead` | tfdata.js:150-156 | `filtered[0]` is the first passing element, and `filtered[1]` the next one. The filter is empty exactly when none passes. |
| `Records.FilterTail` | tfdata.js:121-123 | `_.last(filtered)` is the last passing element. The filter is empty exactly when none passes. |
| `Records.FilterComplete` | tfdata.js:112 | Every element that passes is kept. |
| `Records.FilterNarrow` | tfdata.js:659 | Filtering again by a narrower test is filtering the original by that test, which makes the shrinking working copy well defined. |
| `Rollups.DaysTrailingOf` | tfdata.js:815-824 | None for an empty series. Otherwise exactly the records seen no earlier than `days` days before the last record. |
| `Rollups.DaysTrailingKeepsLast` | tfdata.js:815-824 | A non-negative window always keeps the last record. |
| `Rollups.TtmOf` | tfdata.js:826-838 | null exactly for an empty dictionary. |
| `Rollups.TtmSumsLastFourQuarters` | tfdata.js:826-838 | On a quarterly dictionary with largest key k, ttm sums the values of the quarters from three before k up to k, as far back as the key window reaches. |
| `Rollups.ToYears` | tfdata.js:870-875 | Each kept record is re-keyed in order. |
| `Rollups.FiscalYearOf` | tfdata.js:863-878 | Only a quarterly series converts. The result has valid days. |
| `Rollups.FiscalYearRecords` | tfdata.js:863-878 | The converted records are, in order, one per record whose fiscal key is a fourth quarter, re-keyed by its fiscal year. |
| `Rollups.QuarterKeyToYear` | tfdata.js:869-871 | A quarter key is kept exactly when it is a fourth quarter, and it becomes its year's key. |
| `Series.FromEntries` | tfdata.js:22-27 | The constructor copies each raw entry into a record, in order. |
| `Series.Stamped` | tfdata.js:168-171 | Every record gets `ck` set to the padded key of its `seen`, in order. |
| `Series.TFdata.constructor` | tfdata.js:15-32 | A dated series holds the records given and the TTM flag. |
| `Series.TFdata.Scalar` | tfdata.js:15-20 | A timeless series holds its one value and no records. |
| `Series.TFdata.InitFromRaw` | tfdata.js:34-56 | No `_type`, or neither `_values` nor a value, is an error. A timeless object gives a timeless series of its value. Any other gives a series of its `_values`, flagged TTM exactly when the formula's tags contain `ttm`. |
| `Series.TFdata.GetValue` | tfdata.js:69-82 | A timeless value; otherwise the last record's `v`, or null without records. |
| `Series.TFdata.GetSeens` | tfdata.js:84-90 | The `seen` of every record in order; none for a timeless series. |
| `Series.TFdata.GetLastValueBeforeDate` | tfdata.js:107-114 | The last record in array order seen strictly before the date. |
| `Series.TFdata.GetValueForDate` | tfdata.js:116-124 | The last record in array order seen on or before the date, or null. |
| `Series.TFdata.GetLastValueBeforeKey` | tfdata.js:127-130 | The last record seen before the key's last day. An unrecognised key is a TypeError. A null key gives a null date, which `<` reads as time 0, so the answer is the last record seen before 1 January 1970. A daily key naming no day finds nothing. |
| `Series.TFdata.GetFirstValueForFiscalKey` | tfdata.js:132-140 | The first record with the fiscal key, or null. |
| `Series.TFdata.GetValueForFiscalKey` | tfdata.js:142-159 | Null without a match. By default the last match. With `first`, the first match, unless its `v` is null and a second match exists, which is taken instead. |
| `Series.TFdata.GetValuesForCalendarKey` | tfdata.js:161-173 | Stamps every stored record with its `ck` in the key's scope, then returns the records whose `ck` is the key. An unrecognised key throws at the first record. |
| `Series.TFdata.GetValueForCalendarKey` | tfdata.js:175-183 | The last of those records, or null, with the same stamping. |
| `Series.TFdata.GetFiscalKeys` | tfdata.js:185-187 | The non-null fiscal keys of the records, in record order with repeats kept; every key returned is a record's fiscal key. A timeless series is a TypeError. |
| `Series.NonNullKeysAppend` | tfdata.js:186 | Dropping the nulls works piece by piece. It keeps a single key, drops a single null, and keeps the order of two runs. |
| `Series.FiscalKeysAppend` | tfdata.js:186 | The fiscal keys of two runs of records are those of the first run followed by those of the second. |
| `Series.NullKeyReadsEpoch` | tfdata.js:127-130 | With a null key, a record seen on 31 December 1969 is found. |
| `Series.TFdata.GetLastFiscalKey` | tfdata.js:840-847 | With records, the last record's fiscal key, which is also the last of getFiscalKeys when not null. Null without records. A timeless series gives `undefined`, or a TypeError for a null value. |
| `Series.TFdata.GetCalendarKeys` | tfdata.js:189-206 | No records give none, and the timeless scope is an error. Otherwise the keys in range from the first record's period to the last's. |
| `Series.TFdata.ToKeyValue` | tfdata.js:220-318 | A timeless series gives its value under the current key. A dated one gives the filled dictionary of its records. |
| `Series.TFdata.GroupByScope` | tfdata.js:320-346 | Every record is tagged, in order, with its group: the padded key of its seen in calendar mode, and convertKey of its fk in fiscal mode. The call fails exactly when some record's group fails. An unsupported mode gives its "Unsupported mode" error, and the timeless branch is a ReferenceError. |
| `Series.TFdata.TrendingPeriods` | tfdata.js:520-633 | The trending counters of the series. |
| `Series.TFdata.LastQGrowth` | tfdata.js:635-693 | lastQGrowth of the series. |
| `Series.TFdata.TtmCagr` | tfdata.js:695-739 | ttmCagr of the series. |
| `Series.TFdata.QuarterlyCagr` | tfdata.js:748-789 | quarterlyCagr of the series. |
| `Series.TFdata.DaysTrailingValues` | tfdata.js:815-824 | The trailing records of the series; none when timeless. |
| `Series.TFdata.Ttm` | tfdata.js:826-838 | The trailing sum over the series' fiscal dictionary. A timeless series is a TypeError. |
| `Series.TFdata.ToFiscalYear` | tfdata.js:863-878 | Only a quarterly series converts, into a fresh annual series of the converted records. |
| `Series.NullNamesNoKey` | tfdata.js:826-834 | `null` is not a key, so subtracting from it is a TypeError. |
| `JsObject.Put` | tfdata.js:310-315 | Assigning stores the value. An existing key keeps its place and a new key is appended. Each key stays listed once. |
| `KeyValue.GroupOf` | tfdata.js:235-250 | Calendar mode groups by the padded key of `seen` and fiscal mode by the converted fiscal key. At the timeless scope there is no group. |
| `KeyValue.TagAll` | tfdata.js:235-250 | Every record is tagged with its group, in order, or the result is an error when some group fails. |
| `KeyValue.Grouped` | tfdata.js:234-250 | An unsupported mode is an error. Otherwise every record is tagged. |
| `KeyValue.GroupNames` | tfdata.js:274 | The non-null group keys are exactly the groups of the records, and empty exactly when no record has a group. |
| `KeyValue.MinKey` | tfdata.js:275-276 | The smallest group key. |
| `KeyValue.MaxKey` | tfdata.js:278-279 | The largest group key. |
| `KeyValue.EndKey` | tfdata.js:278-287 | The largest group key, or the loose key of `fillToDate` when given, and never below the smallest group key. |
| `KeyValue.CalendarKeys` | tfdata.js:189-206 | No records give none, and the timeless scope is an error. Otherwise the keys in range from the first record's period to the last's. |
| `KeyValue.PickIsFirstOrLast` | tfdata.js:297-304 | The pick is the first usable record of the group with `preferFirst`, else the last. |
| `KeyValue.FillStep` | tfdata.js:295-316 | One turn of the `forEach`. |
| `KeyValue.FillKeys` | tfdata.js:293-317 | The `forEach` loop builds exactly the dictionary the specification fold describes, and keeps it well formed. |
| `KeyValue.FillKeepsOthers` | tfdata.js:295-316 | Keys the loop does not visit keep what they held. |
| `KeyValue.FillKeyOrder` | tfdata.js:295-316 | The dictionary lists the visited keys once each, in range order, leaving out `undefined` and `null`. |
| `KeyValue.FillValues` | tfdata.js:295-316 | Each visited key holds its own pick. With forward filling, a key without one holds the pick of the latest earlier key that had one. Otherwise it holds null. |
| `KeyValue.FillDescribes` | tfdata.js:293-317 | Over distinct keys, the dictionary lists the range in order with those values. |
| `KeyValue.KeyValueOf` | tfdata.js:220-318 | Always a well-formed dictionary, and an unsupported mode is an error. |
| `KeyValue.ToKeyValue` | tfdata.js:220-318 | The method computes toKeyValue's dictionary. |
| `KeyValue.GroupToKeyValueOf` | tfdata.js:349-401 | No group key, or a `maxKey` that is null or the string `null`, gives `{}`. |
| `KeyValue.GroupToKeyValue` | tfdata.js:349-401 | The method computes groupToKeyValue's dictionary. |
| `KeyValue.GroupsUnlessTimeless` | tfdata.js:234-274 | Only the timeless scope leaves every record without a group. A dated calendar series always has the group of its first record. |
| `KeyValue.KeyValueEntries` | tfdata.js:274-318 | Over ascending windows, toKeyValue fails exactly when the key range does. Otherwise it lists exactly the kept range keys in order, each holding its own pick, a forward-filled pick or null. |
| `KeyValue.GroupToKeyValueEntries` | tfdata.js:356-401 | The same for groupToKeyValue, whose picks count only records seen by the cutoff. |
| `KeyValue.RangeSorted` | util.js:576-595 | keysInRange over ascending windows ascends. |
| `KeyValue.FiscalMonthlyMissesLooseMonths` | tfdata.js:242-297 | In fiscal mode at the monthly scope, a record for January to September groups under its unpadded key. The range lists the month padded, so the record is never picked for it. |
| `Trend.LastNull` | tfdata.js:417 | The index of the last null, or -1, with no null after it. |
| `Trend.Cleaned` | tfdata.js:418-421 | The numbers after the last null, in order. |
| `Trend.TrendCount` | tfdata.js:414-457 | The backward loop computes trendCount of the array. |
| `Trend.ScanBack` | tfdata.js:423-454 | No trend when every pair is flat. Otherwise the direction is that of the last change, and the count is the pairs after the last pair moving against it. |
| `Trend.ScanPair` | tfdata.js:425-453 | One turn of the loop either stops at the last pair moving against the trend or extends the trend over the pair. |
| `Trend.TrendCountStrict` | tfdata.js:469-510 | The backward loop computes trendCountStrict of the array. |
| `Trend.ScanBackStrict` | tfdata.js:478-507 | The loop has a trend exactly when there is a pair, and then it is the strict run at the end. |
| `Trend.OnlyAfterLastNull` | tfdata.js:417-421 | A null resets both counts: only what follows the last null matters. |
| `Trend.TrendZeroIffFlat` | tfdata.js:423-456 | The count over numbers is 0 exactly when every pair is flat. |
| `Trend.CountZeroIffFlat` | tfdata.js:414-457 | trendCount is 0 exactly when every pair after the last null is flat. |
| `Trend.StrictWithinCount` | tfdata.js:414-510 | The strict count agrees in sign with trendCount and never exceeds it. |
| `Trend.FlatTailCounts` | tfdata.js:429-431 | After a rise, flat values count for trendCount and end a strict run at once. |
| `Trending.RangeOf` | tfdata.js:593-594 | The fiscal keys from the first fiscal key up to the record's. For yoy, only keys containing the record's quarter. |
| `Trending.ValuesAt` | tfdata.js:596 | Each key's value in the dictionary, null when missing. |
| `Trending.CountOf` | tfdata.js:584-597 | Null without a fiscal key, an error exactly when the range is one, and otherwise a count. |
| `Trending.Items` | tfdata.js:584-586 | Each record's calendar quarter and fiscal key, in order. |
| `Trending.TrendingOf` | tfdata.js:520-633 | A timeless series gives null when its value is null and an error otherwise. The yearly counter errs on a series that is not annual. Otherwise the counts of the series. |
| `Trending.CountsOfSeries` | tfdata.js:534-565 | null when the fiscal dictionary builds and no record has a fiscal key. A count result comes from a successful fiscal dictionary and a first fiscal key. |
| `Trending.Count` | tfdata.js:542-553 | The `forEach` computes the fold of the records' entries. |
| `Trending.CountStep` | tfdata.js:543-551 | One record's entry. |
| `Trending.Spread` | tfdata.js:556-563 | The `reduce` computes the fold of the spread over the counts' keys. |
| `Trending.TrendingPeriods` | tfdata.js:520-633 | The counters as the source computes them. |
| `Trending.CountSeries` | tfdata.js:534-565 | The counters past their checks. |
| `Trending.LastRecordWins` | tfdata.js:584-598 | There is one entry per calendar quarter a record was seen in, and it is the entry of the last record seen in that quarter. |
| `Trending.CountsValid` | tfdata.js:584-598 | The counts form a well-formed dictionary. |
| `Trending.CountBounded` | tfdata.js:584-598 | A count is smaller in size than the number of values it was taken over. |
| `Trending.SpreadLastQuarter` | tfdata.js:556-563 | The last quarter's count is also written under the three quarters after it. |
| `Trending.SpreadKeeps` | tfdata.js:556-563 | Every key the spread visited stays in the result. |
| `Growth.QuartersBack` | tfdata.js:636-643 | Only `qoq` (one quarter) and `yoy` (four) are accepted. |
| `Growth.MaxKeyOf` | tfdata.js:660 | The last remaining record's fiscal key, converted to a year for quarterlyCagr. |
| `Growth.LastKey` | tfdata.js:666-668 | None exactly for no keys. lastQGrowth takes the largest key, the CAGRs the last inserted one. |
| `Growth.GrowthRate` | tfdata.js:674-689 | A rate exactly when both values exist and either share a sign or the beginning is positive. The rate r satisfies beginning * (1 + r) = ending. |
| `Growth.CagrOf` | tfdata.js:724-733 | An outcome exactly when both values exist and are positive. It records the two values and the year count. |
| `Growth.GrowthIn` | tfdata.js:666-689 | An empty dictionary yields null. |
| `Growth.GrowthLooksBack` | tfdata.js:666-689 | When the last key parses as a valid period, the growth compares the value at that key with the value at the loose key of the period `Back` periods earlier. |
| `Growth.EntryAt` | tfdata.js:656-664 | An unrecognised calendar key is an error. |
| `Growth.EntryFrom` | tfdata.js:659-660 | No record left is a TypeError. |
| `Growth.GrowthByQuarterOf` | tfdata.js:650-656 | A series without records yields `{}`. |
| `Growth.LastQGrowthOf` | tfdata.js:635-693 | An unsupported method is an error, and a series that is not quarterly gives null. |
| `Growth.TtmCagrOf` | tfdata.js:695-739 | A series that is not TTM is an error. |
| `Growth.QuarterlyCagrOf` | tfdata.js:748-789 | A series that is not annual is an error unless forced, and a timeless series is always one. |
| `Growth.Step` | tfdata.js:656-664 | One quarter narrows the working copy to exactly the records seen by that quarter's cutoff, and computes its entry. |
| `Growth.QuarterEntry` | tfdata.js:660-689 | The quarter's entry from the narrowed records. |
| `Growth.GrowthByQuarter` | tfdata.js:650-656 | The method computes the calculators' result. |
| `Growth.WalkQuarters` | tfdata.js:656-690 | The `forEach` over calendar keys, newest first, computes the fold of the quarters' entries. |
| `Growth.EntriesFail` | tfdata.js:656-690 | The walk fails exactly when some quarter's entry fails. |
| `Growth.EntriesListed` | tfdata.js:656-690 | A successful walk lists the calendar keys in the order walked. |
| `Growth.EntryListed` | tfdata.js:656-690 | Each calendar key holds its own quarter's entry. |
| `Growth.CalendarKeysDescend` | tfdata.js:650 | Reversed, the quarterly calendar keys have non-increasing cutoffs, so the working copy only shrinks. |
| `Growth.FilledWindowsArePadded` | util.js:557-573 | The windows of a valid memo filled before the year 10000 are ascending padded keys. |
| `Growth.SignGuardIsOneSided` | tfdata.js:679-686 | A fall from positive to negative has a rate. A rise from negative to positive has none. A fall between negatives has a positive rate. |
| `Growth.LastKeyOfSorted` | tfdata.js:666-668 | On ascending keys, the largest key and the last key coincide. |

## Findings

| source | as written | input that shows it | evidently intended | confidence | as-written member | corrected member |
|---|---|---|---|---|---|---|
| util.js:622-624 | `subtractScopeKey` prints the earliest allowed key loosely (`2015-9`). `compareKey` then compares its month field as a string with the padded next key (`2015-10`), so `"9" > "10"`. | An object whose greatest key is `2015-09`, `endDate` in November 2015, `maxLookbackPeriod` 2: the object comes back unfilled. | Fill whenever the next period is not before the earliest allowed period. Here that fills October and November. | medium; not executed | `Fill.MonthlyLookbackOutcome` | `Fill.PaddedLookbackIsChronological` |
| util.js:654-657 | When the earliest observation predates `minSeen`, the entry on `minSeen` is the earliest observation. This overwrites any observation seen later but by `minSeen`, including one on `minSeen` itself. | Observations a (2001-06-01, v = 1) and b (2002-01-01, v = 2) with the default `minSeen`: the first entry shows v = 1. | Start from the latest observation seen on or before `minSeen` (v = 2). | medium; not executed | `DailyFill.MinSeenDropsItsOwnObservation` | `DailyFill.MinSeenTakesLatest` |

The corrected definitions are `Fill.FilledObjectPadded` and `DailyFill.ForwardFilledLatest`.
Nothing else in the two core files calls `forwardFillObject` or `forwardFill`. The methods
`Fill.ForwardFillObject` and `DailyFill.ForwardFill` keep the behaviour as written.

## Left out

- Time zones, moment.js internals and parsing date strings: days are UTC calendar days
  `(year, month, day)`. The constructor's `new Date(seen)` is a total conversion, with a null
  `seen` becoming the epoch.
- `Math.pow` in ttmCagr and quarterlyCagr is a floating-point root. `Growth.CagrOf` records
  the operands (ending value, beginning value, years) instead of the root. Rates of
  lastQGrowth are exact `real` divisions.
- I/O and reflection helpers: `toString`/`inspect` (table rendering), `log`, `debug`,
  `scopeKey`, `safeJSONStringify`, `escapeMongoPath`, `wrapFunction`, `isMongoose`,
  `validateThrow` and `selectExistsValueFromScope`.
- `_getValue`'s lodash path resolution, and `getCalendarValue`: lookups are modelled on the
  resolved raw value object, and only the fiscal lookup is modelled.
- `getValues`, `getRawValue` and `toRaw` return the stored fields (wrapped for a timeless
  series). `getLastValueBefore` is another name for `getLastValueBeforeDate`. These are read
  directly from the class's fields.
- `isSameKeyType`, `subtractDuration`, `getQuarter`, `scopeToUnit`, `scopeToMomentTimeKey`,
  `stringFormatForScope` and `sortSeen` are folded into the operations that call them.
- `Fill.ForwardFillObject`: requires `endDate` and the greatest key in years 0..9998. At year
  10000 the source's loop never ends, because keys grow a fifth digit and sort below the end
  key. A null `endDate` is not modelled.
- `KeyValue.NumberAt`: reads only lean (`v`) entries as numbers. The whole-record and
  timeless entries do not occur with the default options the growth and trending code uses.
- `Trending.ValuesAt`: a missing dictionary key reads as null. In JavaScript it reads as
  `undefined`, which `lastIndexOf(null)` skips and which compares neither below nor above a
  number, so the two readings can give different counts. In practice the difference does not
  arise. toKeyValue writes every key of its range, a value or null, and each counter's range
  lies inside the dictionary's range over the same window. The model does not prove this
  containment.
- `Trending.RangeOf`: yoy's `new RegExp('Q' + c)` is modelled as a substring test. A
  character that is special in a regular expression is not interpreted.
- `Trending.TrendingPeriods` and `Series.TFdata.TrendingPeriods`: the three counters are one
  member with a `Periods` argument, because they share their body. The `this.data == null`
  guard is the timeless case with a null value.
- `Trending.Spread`: the `reduce` callback is a parameter. The counters pass the one that
  spreads with `addScopeKey`, and `Trending.SpreadLastQuarter` states its effect.
- `ScopeKeys.ScopeKeyToDate` and `KeyArith.AddNormalizedScopeKey`: the optional `scope`
  argument (`scope || util.scopeKeyType(key)`, and the separate `scope === 'daily'` branch of
  addNormalizedScopeKey) is dropped. Every caller in util.js and tfdata.js passes the key
  alone, so the scope always comes from the key.
- The pure members that read the key memo (`KeyRange.KeysInRangeIn` and, through it,
  `KeyValue.CalendarKeys`, `KeyValue.KeyValueOf`, `Trending.TrendingOf`,
  `Growth.GrowthByQuarterOf`, `Growth.LastQGrowthOf`, `Growth.TtmCagrOf`,
  `Growth.QuarterlyCagrOf`, `Rollups.TtmOf`, `Series.TFdata.GetCalendarKeys`,
  `Series.TFdata.ToKeyValue` and `Series.TFdata.Ttm`) read the memo as given.
  A window that is missing or empty reads as no keys, although `keysInRange` fills it first.
  The lemmas that state the results (`KeyRange.RangeIsPeriods`,
  `Rollups.TtmSumsLastFourQuarters`) require filled windows. The stateful
  `KeyRange.KeysByScope.KeysInRange` fills an empty window with the window at `now`, as the
  source does.
- JavaScript's ordering of integer-like property names (`Object.keys` lists `"2015"` before
  other keys) is not modelled: objects list keys in insertion order.
- Series members whose contracts only delegate (`Series.TFdata.TrendingPeriods`, `LastQGrowth`,
  `TtmCagr`, `QuarterlyCagr`): the growth and trending results are stated by the lemmas of
  `Growth` and `Trending` listed above.
- `Growth.GrowthIn`, `Growth.EntryAt`, `Growth.EntryFrom`, `Growth.GrowthByQuarterOf`,
  `Growth.LastQGrowthOf`, `Growth.TtmCagrOf`, `Growth.QuarterlyCagrOf`, `Rollups.TtmOf`,
  `KeyValue.KeyValueOf` and `KeyValue.GroupToKeyValueOf`: their own ensures state only the
  guard cases. What they compute is stated by `Growth.GrowthLooksBack`, `Growth.MaxKeyOf`,
  `Growth.QuarterEntry`, `Growth.Step`, `Growth.EntryListed`,
  `Rollups.TtmSumsLastFourQuarters`, `KeyValue.KeyValueEntries` and
  `KeyValue.GroupToKeyValueEntries`.
