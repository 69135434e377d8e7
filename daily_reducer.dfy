/**
 * The daily reducer shared by the three copies of the pipeline: the loop
 * that folds the `prices` samples into the `byDay` map (one entry per UTC
 * day, replaced only by a strictly later sample), followed by
 * `Array.from(byDay.values()).sort((a, b) => a._ts - b._ts).map(...)`.
 *
 * What the loop computes is specified independently of the loop: the entry
 * of a day belongs to that day's closing sample, the admitted sample with
 * the largest timestamp, the earliest one among equals (IsClose).
 */
module DailyReducer {
  import opened Calendar
  import opened UtcDates

  /** A JavaScript number after `Number(...)`: finite, NaN, or an infinity. */
  datatype Num<T> = Finite(value: T) | NaN | Infinity(negative: bool)

  /** One `[ms, price]` entry of `prices`, as numbers; prices are only carried. */
  datatype Sample = Sample(ms: Num<int>, price: Num<real>)

  /** A value of the `byDay` map: `{ date, price, _ts }`. */
  datatype DayEntry = DayEntry(date: string, price: Num<real>, ts: int)

  /** An emitted point: `{ date, price }`. */
  datatype Point = Point(date: string, price: Num<real>)

  /**
   * The Netlify function and the browser skip an entry whose timestamp or
   * price is not finite; the Express server keeps every entry.
   */
  datatype Variant = SkipNonFinite | KeepAll

  /**
   * The Express copy feeds every timestamp to `toUtcYmd` unchecked; the model
   * covers it only for numeric timestamps.
   */
  predicate TimestampsNumeric(v: Variant, samples: seq<Sample>) {
    v == KeepAll ==> forall i :: 0 <= i < |samples| ==> samples[i].ms.Finite?
  }

  /**
   * The sample takes part in the reduction. Netlify's and the browser's
   * `Number.isFinite(ms) && Number.isFinite(price)` guard skips a sample with
   * either value non-finite; Express has no guard and keeps every sample with
   * a numeric timestamp, whatever its price.
   */
  predicate Admitted(v: Variant, s: Sample): (b: bool)
    ensures v == SkipNonFinite ==> (b <==> s.ms.Finite? && s.price.Finite?)
    ensures v == KeepAll ==> (b <==> s.ms.Finite?)
  {
    s.ms.Finite? && (v == SkipNonFinite ==> s.price.Finite?)
  }

  function Ts(s: Sample): int
    requires s.ms.Finite?
  {
    s.ms.value
  }

  /**
   * The `byDay` key of a sample: `key` of its timestamp. The pipeline uses
   * `toUtcYmd` (UtcDates.ToUtcYmd); the reduction is proved for any key.
   */
  function DayOf(key: int -> string, s: Sample): string
    requires s.ms.Finite?
  {
    key(s.ms.value)
  }

  /** The `byDay` value a sample would be stored as. */
  function EntryOf(key: int -> string, s: Sample): DayEntry
    requires s.ms.Finite?
  {
    DayEntry(EndOfDayIso(DayOf(key, s)), s.price, s.ms.value)
  }

  /** The point a sample would be emitted as. */
  function PointOf(key: int -> string, s: Sample): Point
    requires s.ms.Finite?
  {
    Point(EndOfDayIso(DayOf(key, s)), s.price)
  }

  /**
   * Sample j would take the place of sample i as the entry of i's day: it is
   * admitted, of the same day, and later, or as late and earlier in the feed
   * (the loop replaces an entry only on a strictly later timestamp).
   */
  ghost predicate Displaces(v: Variant, key: int -> string, samples: seq<Sample>, j: int, i: int)
    requires 0 <= j < |samples| && 0 <= i < |samples| && samples[i].ms.Finite?
  {
    Admitted(v, samples[j]) && DayOf(key, samples[j]) == DayOf(key, samples[i])
    && (Ts(samples[j]) > Ts(samples[i]) || (j < i && Ts(samples[j]) == Ts(samples[i])))
  }

  /**
   * Among the first n samples, sample i is the close of its day: it is
   * admitted, no admitted sample of that day is later, and every admitted
   * sample of that day before it is strictly earlier.
   */
  ghost predicate KeptAmong(v: Variant, key: int -> string, samples: seq<Sample>, n: int, i: int)
    requires n <= |samples|
  {
    0 <= i < n && Admitted(v, samples[i])
    && forall j :: 0 <= j < n ==> !Displaces(v, key, samples, j, i)
  }

  /** Sample i is the close of its day among all samples. */
  ghost predicate IsClose(v: Variant, key: int -> string, samples: seq<Sample>, i: int) {
    KeptAmong(v, key, samples, |samples|, i)
  }

  /** The days of the admitted samples among the first n. */
  ghost function AdmittedDays(v: Variant, key: int -> string, samples: seq<Sample>, n: int): set<string>
    requires 0 <= n <= |samples|
  {
    if n == 0 then {}
    else
      AdmittedDays(v, key, samples, n - 1)
      + (if Admitted(v, samples[n - 1]) then {DayOf(key, samples[n - 1])} else {})
  }

  /** The day of every admitted sample among the first n is one of them. */
  lemma {:induction false} AdmittedDaysMember(v: Variant, key: int -> string, samples: seq<Sample>, n: int, j: int)
    requires 0 <= j < n <= |samples| && Admitted(v, samples[j])
    ensures DayOf(key, samples[j]) in AdmittedDays(v, key, samples, n)
  {
    if j < n - 1 {
      AdmittedDaysMember(v, key, samples, n - 1, j);
    }
  }

  /** A day has at most one close. */
  lemma CloseUnique(v: Variant, key: int -> string, samples: seq<Sample>, i: int, j: int)
    requires IsClose(v, key, samples, i) && IsClose(v, key, samples, j)
    requires DayOf(key, samples[i]) == DayOf(key, samples[j])
    ensures i == j
  {
    assert !Displaces(v, key, samples, j, i) && !Displaces(v, key, samples, i, j);
  }

  /**
   * One more sample: the close found so far stays unless the new sample is an
   * admitted sample of the same day with a strictly later timestamp, which
   * then takes its place.
   */
  lemma KeptStep(v: Variant, key: int -> string, samples: seq<Sample>, n: int, c: int)
    requires 0 <= n < |samples| && KeptAmong(v, key, samples, n, c)
    ensures var s := samples[n];
      if Admitted(v, s) && DayOf(key, s) == DayOf(key, samples[c]) && Ts(s) > Ts(samples[c])
      then KeptAmong(v, key, samples, n + 1, n)
      else KeptAmong(v, key, samples, n + 1, c)
  {
    var s := samples[n];
    if Admitted(v, s) && DayOf(key, s) == DayOf(key, samples[c]) && Ts(s) > Ts(samples[c]) {
      forall j | 0 <= j < n + 1
        ensures !Displaces(v, key, samples, j, n)
      {
        if j < n {
          assert !Displaces(v, key, samples, j, c);
        }
      }
    } else {
      forall j | 0 <= j < n + 1
        ensures !Displaces(v, key, samples, j, c)
      {
      }
    }
  }

  /** The first admitted sample of a day is that day's close so far. */
  lemma KeptFirst(v: Variant, key: int -> string, samples: seq<Sample>, n: int)
    requires 0 <= n < |samples| && Admitted(v, samples[n])
    requires DayOf(key, samples[n]) !in AdmittedDays(v, key, samples, n)
    ensures KeptAmong(v, key, samples, n + 1, n)
  {
    forall j | 0 <= j < n && Admitted(v, samples[j])
      ensures DayOf(key, samples[j]) != DayOf(key, samples[n])
    {
      AdmittedDaysMember(v, key, samples, n, j);
    }
  }

  /** Every day with an admitted sample among the first n has a close among them. */
  lemma {:induction false} CloseExists(v: Variant, key: int -> string, samples: seq<Sample>, n: int, k: string)
    requires 0 <= n <= |samples| && k in AdmittedDays(v, key, samples, n)
    ensures exists c :: KeptAmong(v, key, samples, n, c) && DayOf(key, samples[c]) == k
  {
    var s := samples[n - 1];
    if k in AdmittedDays(v, key, samples, n - 1) {
      CloseExists(v, key, samples, n - 1, k);
      var c :| KeptAmong(v, key, samples, n - 1, c) && DayOf(key, samples[c]) == k;
      KeptStep(v, key, samples, n - 1, c);
    } else {
      KeptFirst(v, key, samples, n - 1);
    }
  }

  /** No key occurs twice. */
  predicate Distinct(keys: seq<string>) {
    forall a, b :: 0 <= a < b < |keys| ==> keys[a] != keys[b]
  }

  /** `order` lists the keys of a Map once each, as its insertion order does. */
  ghost predicate ListsKeys(order: seq<string>, keys: set<string>) {
    Distinct(order) && forall k :: k in order <==> k in keys
  }

  /** Appending a new key lists the enlarged key set. */
  lemma ListsKeysAppend(order: seq<string>, keys: set<string>, k: string)
    requires ListsKeys(order, keys) && k !in keys
    ensures ListsKeys(order + [k], keys + {k})
  {
  }

  /**
   * The state of the loop after the first n samples: `byDay` has one entry
   * per day with an admitted sample so far, the entry of that day's close so
   * far, whose index `kept` records.
   */
  ghost predicate Reduced(v: Variant, key: int -> string, samples: seq<Sample>, n: int,
                          byDay: map<string, DayEntry>, kept: map<string, nat>)
    requires 0 <= n <= |samples|
  {
    byDay.Keys == kept.Keys && kept.Keys == AdmittedDays(v, key, samples, n)
    && forall k :: k in kept ==>
      KeptAmong(v, key, samples, n, kept[k]) && DayOf(key, samples[kept[k]]) == k
      && byDay[k] == EntryOf(key, samples[kept[k]])
  }

  /** A sample that is not admitted leaves the state as it is. */
  lemma SkipStep(v: Variant, key: int -> string, samples: seq<Sample>, n: int,
                 byDay: map<string, DayEntry>, kept: map<string, nat>)
    requires 0 <= n < |samples| && !Admitted(v, samples[n])
    requires Reduced(v, key, samples, n, byDay, kept)
    ensures Reduced(v, key, samples, n + 1, byDay, kept)
  {
    forall k | k in kept
      ensures KeptAmong(v, key, samples, n + 1, kept[k])
    {
      KeptStep(v, key, samples, n, kept[k]);
    }
  }

  /** The closes of the other days survive one more sample of day d. */
  lemma OthersKept(v: Variant, key: int -> string, samples: seq<Sample>, n: int,
                   kept: map<string, nat>, d: string)
    requires 0 <= n < |samples|
    requires Admitted(v, samples[n]) ==> DayOf(key, samples[n]) == d
    requires forall k :: k in kept ==>
      KeptAmong(v, key, samples, n, kept[k]) && DayOf(key, samples[kept[k]]) == k
    ensures forall k :: k in kept && k != d ==> KeptAmong(v, key, samples, n + 1, kept[k])
  {
    forall k | k in kept && k != d
      ensures KeptAmong(v, key, samples, n + 1, kept[k])
    {
      KeptStep(v, key, samples, n, kept[k]);
    }
  }

  /**
   * An admitted sample whose day has no entry yet, or whose timestamp is
   * strictly later than the entry's, becomes the entry of its day.
   */
  lemma TakeStep(v: Variant, key: int -> string, samples: seq<Sample>, n: int,
                 byDay: map<string, DayEntry>, kept: map<string, nat>, d: string, e: DayEntry)
    requires 0 <= n < |samples| && Admitted(v, samples[n])
    requires Reduced(v, key, samples, n, byDay, kept)
    requires d == DayOf(key, samples[n]) && e == EntryOf(key, samples[n])
    requires d !in byDay || Ts(samples[n]) > byDay[d].ts
    ensures Reduced(v, key, samples, n + 1, byDay[d := e], kept[d := n])
  {
    if d in kept {
      KeptStep(v, key, samples, n, kept[d]);
    } else {
      KeptFirst(v, key, samples, n);
    }
    OthersKept(v, key, samples, n, kept, d);
    var kept' := kept[d := n];
    assert kept'.Keys == kept.Keys + {d};
  }

  /** An admitted sample that is not later than its day's entry changes nothing. */
  lemma KeepStep(v: Variant, key: int -> string, samples: seq<Sample>, n: int,
                 byDay: map<string, DayEntry>, kept: map<string, nat>)
    requires 0 <= n < |samples| && Admitted(v, samples[n])
    requires Reduced(v, key, samples, n, byDay, kept)
    requires var d := DayOf(key, samples[n]); d in byDay && Ts(samples[n]) <= byDay[d].ts
    ensures Reduced(v, key, samples, n + 1, byDay, kept)
  {
    var d := DayOf(key, samples[n]);
    forall k | k in kept
      ensures KeptAmong(v, key, samples, n + 1, kept[k])
    {
      KeptStep(v, key, samples, n, kept[k]);
    }
  }

  /** Every kept index is the close of the day it is kept under. */
  ghost predicate ClosesKept(v: Variant, key: int -> string, samples: seq<Sample>, kept: map<string, nat>) {
    forall k :: k in kept ==>
      kept[k] < |samples| && IsClose(v, key, samples, kept[k]) && DayOf(key, samples[kept[k]]) == k
  }

  /**
   * The `for (const entry of prices)` loop: `byDay` ends up with one entry
   * per day that has an admitted sample, holding that day's close; `order`
   * is the insertion order the Map keeps. The ghost map `kept` names, per
   * day, the sample whose entry is stored.
   */
  method ReduceByDay(v: Variant, key: int -> string, samples: seq<Sample>)
    returns (byDay: map<string, DayEntry>, order: seq<string>, ghost kept: map<string, nat>)
    requires TimestampsNumeric(v, samples)
    ensures Reduced(v, key, samples, |samples|, byDay, kept)
    ensures ListsKeys(order, byDay.Keys)
  {
    byDay, order, kept := map[], [], map[];
    var n := 0;
    while n < |samples|
      invariant 0 <= n <= |samples|
      invariant Reduced(v, key, samples, n, byDay, kept)
      invariant ListsKeys(order, byDay.Keys)
    {
      byDay, order, kept := AbsorbSample(v, key, samples, n, byDay, order, kept);
      n := n + 1;
    }
  }

  /**
   * One pass of the loop body for sample n: skip it when it is not
   * admitted, otherwise store its entry when its day has none or a strictly
   * earlier one. The state then describes the first n + 1 samples.
   */
  method AbsorbSample(v: Variant, key: int -> string, samples: seq<Sample>, n: int,
                byDay: map<string, DayEntry>, order: seq<string>, ghost kept: map<string, nat>)
    returns (byDay': map<string, DayEntry>, order': seq<string>, ghost kept': map<string, nat>)
    requires TimestampsNumeric(v, samples) && 0 <= n < |samples|
    requires Reduced(v, key, samples, n, byDay, kept) && ListsKeys(order, byDay.Keys)
    ensures Reduced(v, key, samples, n + 1, byDay', kept') && ListsKeys(order', byDay'.Keys)
  {
    byDay', order', kept' := byDay, order, kept;
    var entry := samples[n];
    if v == SkipNonFinite && (!entry.ms.Finite? || !entry.price.Finite?) {
      SkipStep(v, key, samples, n, byDay, kept);
      return;
    }
    var ms := entry.ms.value;
    var ymd := key(ms);
    if ymd !in byDay || ms > byDay[ymd].ts {
      var e := DayEntry(EndOfDayIso(ymd), entry.price, ms);
      TakeStep(v, key, samples, n, byDay, kept, ymd, e);
      if ymd !in byDay {
        ListsKeysAppend(order, byDay.Keys, ymd);
        order' := order + [ymd];
      }
      assert byDay[ymd := e].Keys == byDay.Keys + {ymd};
      byDay' := byDay[ymd := e];
      kept' := kept[ymd := n];
    } else {
      KeepStep(v, key, samples, n, byDay, kept);
    }
  }

  /** Entries whose timestamps are pairwise different. */
  predicate DistinctTs(es: seq<DayEntry>) {
    forall a, b :: 0 <= a < b < |es| ==> es[a].ts != es[b].ts
  }

  /** Entries in strictly ascending timestamp order. */
  predicate AscendingTs(es: seq<DayEntry>) {
    forall a, b :: 0 <= a < b < |es| ==> es[a].ts < es[b].ts
  }

  /** Places e before the first entry of es whose timestamp is not smaller. */
  function InsertByTs(e: DayEntry, es: seq<DayEntry>): (r: seq<DayEntry>)
    ensures multiset(r) == multiset(es) + multiset{e}
  {
    if es == [] || e.ts < es[0].ts then [e] + es
    else
      assert es == [es[0]] + es[1..];
      [es[0]] + InsertByTs(e, es[1..])
  }

  /** Every entry of rest is an entry of es or e itself. */
  lemma MemberOfSum(x: DayEntry, rest: seq<DayEntry>, es: seq<DayEntry>, e: DayEntry)
    requires multiset(rest) == multiset(es) + multiset{e} && x in rest
    ensures x == e || x in es
  {
    assert x in multiset(rest);
  }

  /** Inserting an entry with a new timestamp keeps an ascending sequence ascending. */
  lemma {:induction false} InsertAscending(e: DayEntry, es: seq<DayEntry>)
    requires AscendingTs(es)
    requires forall a :: 0 <= a < |es| ==> es[a].ts != e.ts
    ensures AscendingTs(InsertByTs(e, es))
    decreases |es|
  {
    if es != [] && e.ts >= es[0].ts {
      var tail := es[1..];
      var rest := InsertByTs(e, tail);
      InsertAscending(e, tail);
      forall b | 0 <= b < |rest|
        ensures es[0].ts < rest[b].ts
      {
        MemberOfSum(rest[b], rest, tail, e);
      }
      assert InsertByTs(e, es) == [es[0]] + rest;
    }
  }

  /**
   * `.sort((a, b) => a._ts - b._ts)`: the same entries, reordered by an
   * insertion sort. It is not stable (an entry goes in front of equal
   * timestamps), which matters nowhere: the entries it sorts have pairwise
   * different timestamps.
   */
  function SortByTs(es: seq<DayEntry>): (r: seq<DayEntry>)
    ensures multiset(r) == multiset(es)
  {
    if es == [] then []
    else
      assert es == [es[0]] + es[1..];
      InsertByTs(es[0], SortByTs(es[1..]))
  }

  /** Entries with pairwise different timestamps come out in strictly ascending order. */
  lemma {:induction false} SortAscending(es: seq<DayEntry>)
    requires DistinctTs(es)
    ensures AscendingTs(SortByTs(es))
    decreases |es|
  {
    if es != [] {
      var tail := es[1..];
      var rest := SortByTs(tail);
      SortAscending(tail);
      forall a | 0 <= a < |rest|
        ensures rest[a].ts != es[0].ts
      {
        assert rest[a] in multiset(tail);
      }
      InsertAscending(es[0], rest);
    }
  }

  /** `.map(x => ({ date: x.date, price: x.price }))`: drops `_ts`. */
  function StripTs(es: seq<DayEntry>): (r: seq<Point>)
    ensures |r| == |es|
    ensures forall a :: 0 <= a < |es| ==> r[a] == Point(es[a].date, es[a].price)
  {
    seq(|es|, a requires 0 <= a < |es| => Point(es[a].date, es[a].price))
  }

  /**
   * The series the pipeline answers with: point a is the point of sample
   * closes[a], a close; the closes are in strictly ascending timestamp order;
   * and every day with an admitted sample has a point.
   */
  ghost predicate IsDailySeries(v: Variant, key: int -> string, samples: seq<Sample>,
                                points: seq<Point>, closes: seq<nat>)
  {
    |points| == |closes|
    && (forall a :: 0 <= a < |closes| ==>
      IsClose(v, key, samples, closes[a]) && points[a] == PointOf(key, samples[closes[a]]))
    && (forall a, b :: 0 <= a < b < |closes| ==> Ts(samples[closes[a]]) < Ts(samples[closes[b]]))
    && (forall d :: d in AdmittedDays(v, key, samples, |samples|) ==>
      exists a :: 0 <= a < |closes| && DayOf(key, samples[closes[a]]) == d)
  }

  /** Every entry of es is the entry of the close kept under the day of its timestamp. */
  ghost predicate EntriesOfKept(key: int -> string, samples: seq<Sample>, kept: map<string, nat>,
                                es: seq<DayEntry>)
  {
    forall x :: x in es ==>
      key(x.ts) in kept && kept[key(x.ts)] < |samples| && samples[kept[key(x.ts)]].ms.Finite?
      && x == EntryOf(key, samples[kept[key(x.ts)]])
  }

  /** Every kept day has an entry in es. */
  ghost predicate CoversKept(key: int -> string, kept: map<string, nat>, es: seq<DayEntry>) {
    forall k :: k in kept ==> exists x :: x in es && key(x.ts) == k
  }

  /**
   * The values of `byDay` in insertion order are the entries of the closes,
   * one per kept day, each telling its day by its own timestamp; so no two
   * share a timestamp.
   */
  lemma EntriesOfCloses(v: Variant, key: int -> string, samples: seq<Sample>,
                        byDay: map<string, DayEntry>, order: seq<string>, kept: map<string, nat>,
                        values: seq<DayEntry>)
    requires Reduced(v, key, samples, |samples|, byDay, kept)
    requires ListsKeys(order, byDay.Keys)
    requires |values| == |order| && forall i :: 0 <= i < |order| ==> values[i] == byDay[order[i]]
    ensures ClosesKept(v, key, samples, kept) && kept.Keys == AdmittedDays(v, key, samples, |samples|)
    ensures EntriesOfKept(key, samples, kept, values) && CoversKept(key, kept, values)
    ensures DistinctTs(values)
  {
    forall i | 0 <= i < |values|
      ensures order[i] in kept && values[i] == EntryOf(key, samples[kept[order[i]]])
      ensures key(values[i].ts) == order[i]
    {
      assert order[i] in byDay;
    }
    forall x | x in values
      ensures key(x.ts) in kept && kept[key(x.ts)] < |samples| && samples[kept[key(x.ts)]].ms.Finite?
        && x == EntryOf(key, samples[kept[key(x.ts)]])
    {
      var i :| 0 <= i < |values| && values[i] == x;
    }
    forall k | k in kept
      ensures exists x :: x in values && key(x.ts) == k
    {
      var i :| 0 <= i < |order| && order[i] == k;
      assert values[i] in values;
    }
  }

  /** Reordering keeps both properties. */
  lemma EntriesReordered(key: int -> string, samples: seq<Sample>, kept: map<string, nat>,
                         values: seq<DayEntry>, sorted: seq<DayEntry>)
    requires multiset(sorted) == multiset(values)
    requires EntriesOfKept(key, samples, kept, values) && CoversKept(key, kept, values)
    ensures EntriesOfKept(key, samples, kept, sorted) && CoversKept(key, kept, sorted)
  {
    forall x | x in sorted
      ensures x in values
    {
      assert x in multiset(values);
    }
    forall x | x in values
      ensures x in sorted
    {
      assert x in multiset(sorted);
    }
  }

  /** The close behind each entry of es. */
  ghost function ClosesOf(key: int -> string, samples: seq<Sample>, kept: map<string, nat>,
                          es: seq<DayEntry>): (closes: seq<nat>)
    requires EntriesOfKept(key, samples, kept, es)
    ensures |closes| == |es|
    ensures forall a :: 0 <= a < |es| ==>
      closes[a] < |samples| && samples[closes[a]].ms.Finite? && es[a] == EntryOf(key, samples[closes[a]])
  {
    seq(|es|, a requires 0 <= a < |es| => assert es[a] in es; kept[key(es[a].ts)])
  }

  /**
   * Entries of the closes, in strictly ascending timestamp order, one for
   * every kept day, with `_ts` dropped, form the daily series.
   */
  lemma SeriesOfSorted(v: Variant, key: int -> string, samples: seq<Sample>, kept: map<string, nat>,
                       sorted: seq<DayEntry>)
    requires ClosesKept(v, key, samples, kept) && kept.Keys == AdmittedDays(v, key, samples, |samples|)
    requires EntriesOfKept(key, samples, kept, sorted) && CoversKept(key, kept, sorted)
    requires AscendingTs(sorted)
    ensures IsDailySeries(v, key, samples, StripTs(sorted), ClosesOf(key, samples, kept, sorted))
  {
    var closes := ClosesOf(key, samples, kept, sorted);
    forall a | 0 <= a < |sorted|
      ensures IsClose(v, key, samples, closes[a])
    {
      assert sorted[a] in sorted;
    }
    forall d | d in AdmittedDays(v, key, samples, |samples|)
      ensures exists a :: 0 <= a < |closes| && DayOf(key, samples[closes[a]]) == d
    {
      var x :| x in sorted && key(x.ts) == d;
      var b :| 0 <= b < |sorted| && sorted[b] == x;
      assert DayOf(key, samples[closes[b]]) == d;
    }
  }

  /**
   * The whole reduction: the values of `byDay` sorted by timestamp with
   * `_ts` dropped form the daily series of the samples.
   */
  method DailyClose(v: Variant, key: int -> string, samples: seq<Sample>)
    returns (points: seq<Point>, ghost closes: seq<nat>)
    requires TimestampsNumeric(v, samples)
    ensures IsDailySeries(v, key, samples, points, closes)
  {
    var byDay, order, kept := ReduceByDay(v, key, samples);
    var values := seq(|order|, i requires 0 <= i < |order| => byDay[order[i]]);
    EntriesOfCloses(v, key, samples, byDay, order, kept, values);
    var sorted := SortByTs(values);
    SortAscending(values);
    EntriesReordered(key, samples, kept, values, sorted);
    points := StripTs(sorted);
    closes := ClosesOf(key, samples, kept, sorted);
    SeriesOfSorted(v, key, samples, kept, sorted);
  }

  /** A sequence of distinct keys that holds exactly the keys of a set has its size. */
  lemma {:induction false} OrderCoversKeys(order: seq<string>, keys: set<string>)
    requires Distinct(order) && forall k :: k in order <==> k in keys
    ensures |order| == |keys|
    decreases |order|
  {
    if order != [] {
      var last := order[|order| - 1];
      var front := order[..|order| - 1];
      assert forall k :: k in front <==> k in keys - {last};
      OrderCoversKeys(front, keys - {last});
    }
  }

  /** The days of the closes behind a series, in series order. */
  ghost function SeriesDays(key: int -> string, samples: seq<Sample>, closes: seq<nat>): (days: seq<string>)
    requires forall a :: 0 <= a < |closes| ==> closes[a] < |samples| && samples[closes[a]].ms.Finite?
    ensures |days| == |closes|
  {
    seq(|closes|, a requires 0 <= a < |closes| => DayOf(key, samples[closes[a]]))
  }

  /** Two different points never come from the same day. */
  lemma SeriesDaysDistinct(v: Variant, key: int -> string, samples: seq<Sample>,
                           points: seq<Point>, closes: seq<nat>)
    requires IsDailySeries(v, key, samples, points, closes)
    ensures Distinct(SeriesDays(key, samples, closes))
  {
    var days := SeriesDays(key, samples, closes);
    forall a, b | 0 <= a < b < |days|
      ensures days[a] != days[b]
    {
      if days[a] == days[b] {
        CloseUnique(v, key, samples, closes[a], closes[b]);
      }
    }
  }

  /** The days of the points are exactly the days with an admitted sample. */
  lemma SeriesDaysAreAdmittedDays(v: Variant, key: int -> string, samples: seq<Sample>,
                                  points: seq<Point>, closes: seq<nat>)
    requires IsDailySeries(v, key, samples, points, closes)
    ensures forall k :: k in SeriesDays(key, samples, closes) <==> k in AdmittedDays(v, key, samples, |samples|)
  {
    var days := SeriesDays(key, samples, closes);
    var all := AdmittedDays(v, key, samples, |samples|);
    forall k | k in days
      ensures k in all
    {
      var a :| 0 <= a < |days| && days[a] == k;
      AdmittedDaysMember(v, key, samples, |samples|, closes[a]);
    }
    forall k | k in all
      ensures k in days
    {
      var a :| 0 <= a < |closes| && DayOf(key, samples[closes[a]]) == k;
      assert days[a] == k;
    }
  }

  /** Every day with an admitted sample has exactly one point. */
  lemma SeriesHasOnePointPerDay(v: Variant, key: int -> string, samples: seq<Sample>,
                                points: seq<Point>, closes: seq<nat>)
    requires IsDailySeries(v, key, samples, points, closes)
    ensures |points| == |AdmittedDays(v, key, samples, |samples|)|
  {
    SeriesDaysDistinct(v, key, samples, points, closes);
    SeriesDaysAreAdmittedDays(v, key, samples, points, closes);
    OrderCoversKeys(SeriesDays(key, samples, closes), AdmittedDays(v, key, samples, |samples|));
  }

  /**
   * With `toUtcYmd` as the day key, the points come in strictly ascending
   * order of their UTC days, provided every close is a valid Date.
   */
  lemma SeriesDaysAscending(v: Variant, samples: seq<Sample>, points: seq<Point>, closes: seq<nat>)
    requires IsDailySeries(v, ToUtcYmd, samples, points, closes)
    requires forall a :: 0 <= a < |closes| ==> InTimeRange(Ts(samples[closes[a]]))
    ensures forall a, b :: 0 <= a < b < |closes| ==>
      DayFromTime(Ts(samples[closes[a]])) < DayFromTime(Ts(samples[closes[b]]))
  {
    SeriesDaysDistinct(v, ToUtcYmd, samples, points, closes);
    var days := SeriesDays(ToUtcYmd, samples, closes);
    forall a, b | 0 <= a < b < |closes|
      ensures DayFromTime(Ts(samples[closes[a]])) < DayFromTime(Ts(samples[closes[b]]))
    {
      var ta, tb := Ts(samples[closes[a]]), Ts(samples[closes[b]]);
      DayFromTimeMonotone(ta, tb);
      SameYmdIffSameDay(ta, tb);
      assert days[a] != days[b];
    }
  }

  /** A strictly ascending integer sequence is determined by its elements. */
  lemma {:induction false} AscendingUnique(x: seq<int>, y: seq<int>)
    requires forall a, b :: 0 <= a < b < |x| ==> x[a] < x[b]
    requires forall a, b :: 0 <= a < b < |y| ==> y[a] < y[b]
    requires forall e :: e in x <==> e in y
    ensures x == y
    decreases |x|
  {
    assert x != [] ==> x[0] in x;
    assert y != [] ==> y[0] in y;
    if x == [] || y == [] {
      assert forall e :: e !in x && e !in y;
    } else {
      assert x[0] in y && y[0] in x;
      assert x[0] == y[0];
      forall e | e in x[1..]
        ensures e in y[1..]
      {
        var a :| 0 <= a < |x[1..]| && x[1..][a] == e;
        assert x[a + 1] == e && e in x && e in y;
        var b :| 0 <= b < |y| && y[b] == e;
        assert b != 0;
        assert y[1..][b - 1] == e;
      }
      forall e | e in y[1..]
        ensures e in x[1..]
      {
        var b :| 0 <= b < |y[1..]| && y[1..][b] == e;
        assert y[b + 1] == e && e in y && e in x;
        var a :| 0 <= a < |x| && x[a] == e;
        assert a != 0;
        assert x[1..][a - 1] == e;
      }
      AscendingUnique(x[1..], y[1..]);
      assert x == [x[0]] + x[1..] && y == [y[0]] + y[1..];
    }
  }

  /** The timestamps of the closes behind a series, in series order. */
  ghost function SeriesTimes(samples: seq<Sample>, closes: seq<nat>): (times: seq<int>)
    requires forall a :: 0 <= a < |closes| ==> closes[a] < |samples| && samples[closes[a]].ms.Finite?
    ensures |times| == |closes|
  {
    seq(|closes|, a requires 0 <= a < |closes| => Ts(samples[closes[a]]))
  }

  /** Two series hold the same close timestamps. */
  lemma SeriesSameTimes(v: Variant, key: int -> string, samples: seq<Sample>,
                        points1: seq<Point>, closes1: seq<nat>, points2: seq<Point>, closes2: seq<nat>)
    requires IsDailySeries(v, key, samples, points1, closes1)
    requires IsDailySeries(v, key, samples, points2, closes2)
    ensures forall e :: e in SeriesTimes(samples, closes1) ==> e in SeriesTimes(samples, closes2)
  {
    var t1 := SeriesTimes(samples, closes1);
    var t2 := SeriesTimes(samples, closes2);
    forall e | e in t1
      ensures e in t2
    {
      var a :| 0 <= a < |t1| && t1[a] == e;
      AdmittedDaysMember(v, key, samples, |samples|, closes1[a]);
      var b :| 0 <= b < |closes2| && DayOf(key, samples[closes2[b]]) == DayOf(key, samples[closes1[a]]);
      CloseUnique(v, key, samples, closes1[a], closes2[b]);
      assert t2[b] == e;
    }
  }

  /**
   * The daily series is unique: the sample sequence alone determines the
   * points.
   */
  lemma SeriesUnique(v: Variant, key: int -> string, samples: seq<Sample>,
                     points1: seq<Point>, closes1: seq<nat>, points2: seq<Point>, closes2: seq<nat>)
    requires IsDailySeries(v, key, samples, points1, closes1)
    requires IsDailySeries(v, key, samples, points2, closes2)
    ensures points1 == points2
  {
    var t1 := SeriesTimes(samples, closes1);
    var t2 := SeriesTimes(samples, closes2);
    SeriesSameTimes(v, key, samples, points1, closes1, points2, closes2);
    SeriesSameTimes(v, key, samples, points2, closes2, points1, closes1);
    AscendingUnique(t1, t2);
    forall a | 0 <= a < |points1|
      ensures points1[a] == points2[a]
    {
      assert t1[a] == t2[a];
      assert DayOf(key, samples[closes1[a]]) == DayOf(key, samples[closes2[a]]);
      CloseUnique(v, key, samples, closes1[a], closes2[a]);
    }
  }
}
