/**
 Energy statistics of `apps/src/utils/energyStatistics.ts`: bucket intervals of a history query, and totals of
 counter metrics from the returned series. Numbers are exact reals; `Date.parse` is a parameter.
 */
module EnergyStatistics {
  import opened Basics
  import Decimal

  /** Milliseconds, or `None` for a text that is not a date. */
  type Parser = string -> Option<int>

  // ---------------------------------------------------------------- query intervals

  const MAX_HISTORY_SEGMENTS := 5000

  function Max(a: int, b: int): int {
    if a >= b then a else b
  }

  function Min(a: int, b: int): int {
    if a <= b then a else b
  }

  function FloorDiv(a: nat, b: nat): nat
    requires b > 0
  {
    a / b
  }

  function ExpectedCount(parse: Parser, start: string, end: string, interval: int): nat {
    if parse(start).None? || parse(end).None? then 0
    else
      var span := parse(end).value - parse(start).value;
      if span <= 0 || interval <= 0 then 0 else FloorDiv(span, interval * 1000)
  }

  function CeilDiv(a: nat, b: nat): nat
    requires b > 0
  {
    (a + b - 1) / b
  }

  function SpanSeconds(parse: Parser, start: string, end: string): nat
    requires parse(start).Some? && parse(end).Some?
  {
    Max(1, (parse(end).value - parse(start).value) / 1000)
  }

  function Cap(maxPoints: int): nat {
    Max(1, Min(maxPoints, MAX_HISTORY_SEGMENTS))
  }

  /** `None` when a date does not parse, where the source computes with NaN. */
  function ResolveInterval(parse: Parser, start: string, end: string, maxPoints: int): Option<nat> {
    if parse(start).None? || parse(end).None? then None
    else Some(Max(1, CeilDiv(SpanSeconds(parse, start, end), Cap(maxPoints))))
  }

  lemma CeilDivIsLeast(a: nat, b: nat)
    requires b > 0
    ensures CeilDiv(a, b) * b >= a
    ensures CeilDiv(a, b) > 0 ==> (CeilDiv(a, b) - 1) * b < a
  {
    var q := CeilDiv(a, b);
    assert a + b - 1 == q * b + (a + b - 1) % b;
    assert (q - 1) * b == q * b - b;
  }

  lemma TimesMonotone(m: int, n: int, b: nat)
    requires m <= n
    ensures m * b <= n * b
  {
  }

  /** The interval is the least number of seconds, at least one, with which the points cover the span. */
  lemma IntervalIsLeast(parse: Parser, start: string, end: string, maxPoints: int, n: nat)
    requires ResolveInterval(parse, start, end, maxPoints).Some?
    ensures var interval := ResolveInterval(parse, start, end, maxPoints).value;
            n >= interval <==> n >= 1 && n * Cap(maxPoints) >= SpanSeconds(parse, start, end)
  {
    var cap, span := Cap(maxPoints), SpanSeconds(parse, start, end);
    var q := CeilDiv(span, cap);
    CeilDivIsLeast(span, cap);
    if n >= q {
      TimesMonotone(q, n, cap);
    } else {
      TimesMonotone(n, q - 1, cap);
    }
  }

  /** The same from the inputs: points beyond 1 to 5000 are cut off, and a started second of the span does not count. */
  lemma IntervalFromInputs(parse: Parser, start: string, end: string, maxPoints: int, n: nat)
    requires parse(start).Some? && parse(end).Some?
    ensures ResolveInterval(parse, start, end, maxPoints).Some?
    ensures var points := if maxPoints < 1 then 1 else if maxPoints > 5000 then 5000 else maxPoints;
            n >= ResolveInterval(parse, start, end, maxPoints).value <==>
            n >= 1 && parse(end).value - parse(start).value < (n * points + 1) * 1000
  {
    IntervalIsLeast(parse, start, end, maxPoints, n);
    var points := Cap(maxPoints);
    var span := parse(end).value - parse(start).value;
    if n >= 1 {
      TimesMonotone(1, n, points);
      WholeSeconds(span, n * points);
    }
  }

  lemma WholeSeconds(span: int, seconds: nat)
    ensures span / 1000 <= seconds <==> span < (seconds + 1) * 1000
  {
  }

  /** The expected number of buckets is the largest whose intervals fit into the span. */
  lemma BucketsFit(parse: Parser, start: string, end: string, interval: int, n: nat)
    requires parse(start).Some? && parse(end).Some? && interval > 0
    ensures n <= ExpectedCount(parse, start, end, interval) <==>
            n == 0 || n * interval * 1000 <= parse(end).value - parse(start).value
  {
    var span := parse(end).value - parse(start).value;
    var d := interval * 1000;
    assert n * interval * 1000 == n * d;
    if span > 0 {
      var q := FloorDiv(span, d);
      assert q * d <= span < (q + 1) * d;
      if n <= q {
        TimesMonotone(n, q, d);
      } else {
        TimesMonotone(q + 1, n, d);
      }
    } else if n > 0 {
      TimesMonotone(1, n, d);
    }
  }

  /** A query with the resolved interval never asks for more buckets than the cap. */
  lemma BucketsWithinCap(parse: Parser, start: string, end: string, maxPoints: int)
    requires ResolveInterval(parse, start, end, maxPoints).Some?
    ensures var interval := ResolveInterval(parse, start, end, maxPoints).value;
            ExpectedCount(parse, start, end, interval) <= Cap(maxPoints) <= MAX_HISTORY_SEGMENTS
  {
    var cap, interval := Cap(maxPoints), ResolveInterval(parse, start, end, maxPoints).value;
    var span := parse(end).value - parse(start).value;
    IntervalIsLeast(parse, start, end, maxPoints, interval);
    if span > 0 {
      assert span < (SpanSeconds(parse, start, end) + 1) * 1000;
      DivBound(span, interval, cap);
    }
  }

  lemma DivBound(span: nat, interval: nat, cap: nat)
    requires interval >= 1 && span < (interval * cap + 1) * 1000
    ensures FloorDiv(span, interval * 1000) <= cap
  {
    var d := interval * 1000;
    var q := FloorDiv(span, d);
    assert q * d <= span;
    OneMoreTimes(q, cap, d);
    assert cap * d == (interval * cap) * 1000;
  }

  lemma OneMoreTimes(q: nat, cap: nat, d: nat)
    ensures q > cap ==> q * d >= cap * d + d
  {
    if q > cap {
      TimesMonotone(cap + 1, q, d);
    }
  }

  // ---------------------------------------------------------------- series and timestamps

  datatype Term = Term(pointId: string, factor: real)

  datatype Metric = Metric(instanceId: nat, terms: seq<Term>, counter: bool)

  /** A value that is null or not a finite number is `None`. */
  datatype Point = Point(timestamp: string, value: Option<real>)

  datatype Series = Series(redisKey: string, pointId: string, data: seq<Point>, count: int)

  datatype Query = Query(start: string, end: string, interval: int)

  datatype Coverage = Coverage(start: string, end: string)

  datatype History = History(timestamps: seq<string>, values: seq<Option<real>>, total: Option<real>,
                             coverage: Option<Coverage>)

  function RedisKey(instanceId: nat): string {
    "inst:" + Decimal.Text(instanceId) + ":M"
  }

  /** The first response for the point. */
  function FindSeries(responses: seq<Series>, key: string, pointId: string): Option<Series> {
    if responses == [] then None
    else if responses[0].redisKey == key && responses[0].pointId == pointId then Some(responses[0])
    else FindSeries(responses[1..], key, pointId)
  }

  /** The first response with both the key of the instance and the point is taken. */
  lemma {:induction false} FirstResponseIsTaken(responses: seq<Series>, key: string, pointId: string, i: nat)
    requires i <= |responses|
    requires i < |responses| ==> responses[i].redisKey == key && responses[i].pointId == pointId
    requires forall j | 0 <= j < i :: responses[j].redisKey != key || responses[j].pointId != pointId
    ensures FindSeries(responses, key, pointId) == if i < |responses| then Some(responses[i]) else None
    decreases |responses|
  {
    if i > 0 {
      FirstResponseIsTaken(responses[1..], key, pointId, i - 1);
    }
  }

  function Found(metric: Metric, responses: seq<Series>): seq<Option<Series>> {
    seq(|metric.terms|, i requires 0 <= i < |metric.terms| =>
      FindSeries(responses, RedisKey(metric.instanceId), metric.terms[i].pointId))
  }

  /** The series of a term is the first response for its point under the measurement key of the instance. */
  lemma SeriesOfTerm(m: Metric, responses: seq<Series>, j: nat, i: nat)
    requires j < |m.terms| && i <= |responses|
    requires var key := "inst:" + Decimal.Text(m.instanceId) + ":M";
             && (i < |responses| ==> responses[i].redisKey == key && responses[i].pointId == m.terms[j].pointId)
             && forall k | 0 <= k < i :: responses[k].redisKey != key || responses[k].pointId != m.terms[j].pointId
    ensures |Found(m, responses)| == |m.terms|
    ensures Found(m, responses)[j] == if i < |responses| then Some(responses[i]) else None
  {
    FirstResponseIsTaken(responses, RedisKey(m.instanceId), m.terms[j].pointId, i);
  }

  function StampsOf(data: seq<Point>): seq<string> {
    seq(|data|, i requires 0 <= i < |data| => data[i].timestamp)
  }

  function AllStamps(found: seq<Option<Series>>): seq<string> {
    if found == [] then []
    else (if found[0].Some? then StampsOf(found[0].value.data) else []) + AllStamps(found[1..])
  }

  /** The comparator says that `a` comes after `b`; it says nothing about texts that are not dates. */
  predicate Later(parse: Parser, a: string, b: string) {
    parse(a).Some? && parse(b).Some? && parse(a).value > parse(b).value
  }

  function Insert(parse: Parser, xs: seq<string>, x: string): seq<string> {
    if xs == [] then [x]
    else
      var last := |xs| - 1;
      if Later(parse, xs[last], x) then Insert(parse, xs[..last], x) + [xs[last]] else xs + [x]
  }

  /** Stable sort by time. */
  function Sort(parse: Parser, xs: seq<string>): seq<string> {
    if xs == [] then [] else Insert(parse, Sort(parse, xs[..|xs| - 1]), xs[|xs| - 1])
  }

  function Timestamps(parse: Parser, found: seq<Option<Series>>): seq<string> {
    Sort(parse, Distinct(AllStamps(found)))
  }

  lemma {:induction false} InsertKeeps(parse: Parser, xs: seq<string>, x: string)
    ensures multiset(Insert(parse, xs, x)) == multiset(xs) + multiset{x}
  {
    if xs != [] {
      var last := |xs| - 1;
      assert xs == xs[..last] + [xs[last]];
      InsertKeeps(parse, xs[..last], x);
    }
  }

  lemma {:induction false} SortKeeps(parse: Parser, xs: seq<string>)
    ensures multiset(Sort(parse, xs)) == multiset(xs)
  {
    if xs != [] {
      SortKeeps(parse, xs[..|xs| - 1]);
      InsertKeeps(parse, Sort(parse, xs[..|xs| - 1]), xs[|xs| - 1]);
      assert xs == xs[..|xs| - 1] + [xs[|xs| - 1]];
    }
  }

  lemma SortMembers(parse: Parser, xs: seq<string>, x: string)
    ensures x in Sort(parse, xs) <==> x in xs
  {
    SortKeeps(parse, xs);
    assert x in Sort(parse, xs) <==> x in multiset(Sort(parse, xs));
  }

  lemma SortNoRepeats(parse: Parser, xs: seq<string>)
    requires NoRepeats(xs)
    ensures NoRepeats(Sort(parse, xs))
  {
    var sorted := Sort(parse, xs);
    forall x
      ensures x in sorted <==> x in xs
    {
      SortMembers(parse, xs, x);
    }
    assert Elements(sorted) == Elements(xs);
    SortKeeps(parse, xs);
    assert |sorted| == |multiset(sorted)| == |multiset(xs)| == |xs|;
    NoRepeatsBySize(xs);
    NoRepeatsBySize(sorted);
  }

  predicate AllDates(parse: Parser, xs: seq<string>) {
    forall x | x in xs :: parse(x).Some?
  }

  predicate InOrder(parse: Parser, xs: seq<string>) {
    forall i, j | 0 <= i < j < |xs| :: !Later(parse, xs[i], xs[j])
  }

  lemma {:induction false} InsertInOrder(parse: Parser, xs: seq<string>, x: string)
    requires AllDates(parse, xs) && parse(x).Some? && InOrder(parse, xs)
    ensures InOrder(parse, Insert(parse, xs, x))
  {
    if xs != [] && Later(parse, xs[|xs| - 1], x) {
      var last := |xs| - 1;
      InsertInOrder(parse, xs[..last], x);
      InsertKeeps(parse, xs[..last], x);
      var inner := Insert(parse, xs[..last], x);
      forall i | 0 <= i < |inner|
        ensures !Later(parse, inner[i], xs[last])
      {
        assert inner[i] in multiset(inner);
      }
      InOrderAppend(parse, inner, xs[last]);
    } else {
      InsertAtEnd(parse, xs, x);
    }
  }

  lemma InOrderAppend(parse: Parser, xs: seq<string>, x: string)
    requires InOrder(parse, xs) && forall i | 0 <= i < |xs| :: !Later(parse, xs[i], x)
    ensures InOrder(parse, xs + [x])
  {
  }

  lemma InsertAtEnd(parse: Parser, xs: seq<string>, x: string)
    requires AllDates(parse, xs) && parse(x).Some? && InOrder(parse, xs)
    requires xs == [] || !Later(parse, xs[|xs| - 1], x)
    ensures InOrder(parse, xs + [x])
  {
    if xs != [] {
      assert forall i | 0 <= i < |xs| - 1 :: !Later(parse, xs[i], xs[|xs| - 1]);
    }
    InOrderAppend(parse, xs, x);
  }

  lemma {:induction false} SortInOrder(parse: Parser, xs: seq<string>)
    requires AllDates(parse, xs)
    ensures InOrder(parse, Sort(parse, xs))
  {
    if xs != [] {
      var before, x := xs[..|xs| - 1], xs[|xs| - 1];
      SortInOrder(parse, before);
      forall y | y in Sort(parse, before)
        ensures parse(y).Some?
      {
        SortMembers(parse, before, y);
      }
      InsertInOrder(parse, Sort(parse, before), x);
    }
  }

  /** The elements of one instant, in order. */
  function At(parse: Parser, xs: seq<string>, time: int): seq<string> {
    if xs == [] then []
    else
      var last := xs[|xs| - 1];
      At(parse, xs[..|xs| - 1], time) + if parse(last) == Some(time) then [last] else []
  }

  lemma {:induction false} InsertStable(parse: Parser, xs: seq<string>, x: string, time: int)
    ensures At(parse, Insert(parse, xs, x), time) ==
            At(parse, xs, time) + if parse(x) == Some(time) then [x] else []
  {
    var last := |xs| - 1;
    if xs != [] && Later(parse, xs[last], x) {
      InsertStable(parse, xs[..last], x, time);
      var inner := Insert(parse, xs[..last], x);
      assert (inner + [xs[last]])[..|inner|] == inner;
    } else {
      assert (xs + [x])[..|xs|] == xs;
    }
  }

  lemma {:induction false} SortStable(parse: Parser, xs: seq<string>, time: int)
    ensures At(parse, Sort(parse, xs), time) == At(parse, xs, time)
  {
    if xs != [] {
      SortStable(parse, xs[..|xs| - 1], time);
      InsertStable(parse, Sort(parse, xs[..|xs| - 1]), xs[|xs| - 1], time);
    }
  }

  /** The time axis has every timestamp of the series once, in order of time, ties as first seen. */
  lemma {:induction false} TimestampsAreOrdered(parse: Parser, found: seq<Option<Series>>)
    ensures var ts := Timestamps(parse, found);
            && (forall t :: t in ts <==> t in AllStamps(found))
            && NoRepeats(ts)
            && (AllDates(parse, AllStamps(found)) ==> InOrder(parse, ts))
            && (forall time :: At(parse, ts, time) == At(parse, Distinct(AllStamps(found)), time))
  {
    var all, ts := Distinct(AllStamps(found)), Timestamps(parse, found);
    DistinctKeepsMembers(AllStamps(found));
    SortNoRepeats(parse, all);
    forall t
      ensures t in ts <==> t in AllStamps(found)
    {
      SortMembers(parse, all, t);
    }
    if AllDates(parse, AllStamps(found)) {
      SortInOrder(parse, all);
    }
    forall time
      ensures At(parse, ts, time) == At(parse, all, time)
    {
      SortStable(parse, all, time);
    }
  }

  // ---------------------------------------------------------------- samples

  /** The value a map built from the points holds for a timestamp: the last one wins. */
  function ValueAt(data: seq<Point>, t: string): Option<real> {
    if data == [] then None
    else
      var last := data[|data| - 1];
      if last.timestamp == t then last.value else ValueAt(data[..|data| - 1], t)
  }

  /** The last point with the timestamp decides. */
  lemma {:induction false} LastPointDecides(data: seq<Point>, t: string, i: nat)
    requires i <= |data| && (i < |data| ==> data[i].timestamp == t)
    requires forall j | (if i < |data| then i + 1 else 0) <= j < |data| :: data[j].timestamp != t
    ensures ValueAt(data, t) == if i < |data| then data[i].value else None
    decreases |data|
  {
    if data != [] && i != |data| - 1 {
      LastPointDecides(data[..|data| - 1], t, if i < |data| then i else |data| - 1);
    }
  }

  function TermValue(series: Option<Series>, t: string): Option<real> {
    if series.None? then None else ValueAt(series.value.data, t)
  }

  /** The weighted sum of the first `n` terms. */
  function Weighted(terms: seq<Term>, found: seq<Option<Series>>, t: string, n: nat): real
    requires n <= |terms| == |found| && forall i | 0 <= i < n :: TermValue(found[i], t).Some?
  {
    if n == 0 then 0.0
    else Weighted(terms, found, t, n - 1) + TermValue(found[n - 1], t).value * terms[n - 1].factor
  }

  function Sample(terms: seq<Term>, found: seq<Option<Series>>, t: string): Option<real>
    requires |terms| == |found|
  {
    if forall i | 0 <= i < |terms| :: TermValue(found[i], t).Some?
    then Some(Weighted(terms, found, t, |terms|)) else None
  }

  lemma {:induction false} WeightedIsLinear(terms: seq<Term>, found: seq<Option<Series>>, t: string, n: nat, j: nat,
                                            other: Option<Series>)
    requires n <= |terms| == |found| && j < |terms| && TermValue(other, t).Some?
    requires forall i | 0 <= i < |terms| :: TermValue(found[i], t).Some?
    ensures (forall i | 0 <= i < n :: TermValue(found[i], t) == Some(0.0)) ==> Weighted(terms, found, t, n) == 0.0
    ensures Weighted(terms, found[j := other], t, n) ==
            Weighted(terms, found, t, n) +
            if j < n then (TermValue(other, t).value - TermValue(found[j], t).value) * terms[j].factor else 0.0
    decreases n
  {
    if n > 0 {
      WeightedIsLinear(terms, found, t, n - 1, j, other);
      if j == n - 1 {
        var a, b, f := TermValue(found[j], t).value, TermValue(other, t).value, terms[j].factor;
        assert (b - a) * f == b * f - a * f;
      }
    }
  }

  /**
   Where every term has a value, the sample is linear in each with the factor of its term, and all zeros give zero.
   Where one has none, there is no sample.
   */
  lemma SampleIsLinear(terms: seq<Term>, found: seq<Option<Series>>, t: string, j: nat, other: Option<Series>)
    requires |terms| == |found| && j < |terms|
    ensures Sample(terms, found, t).None? <==> exists i | 0 <= i < |found| :: TermValue(found[i], t).None?
    ensures (forall i | 0 <= i < |found| :: TermValue(found[i], t) == Some(0.0)) ==> Sample(terms, found, t) == Some(0.0)
    ensures Sample(terms, found, t).Some? && TermValue(other, t).Some? ==>
              Sample(terms, found[j := other], t) ==
              Some(Sample(terms, found, t).value +
                   (TermValue(other, t).value - TermValue(found[j], t).value) * terms[j].factor)
  {
    if Sample(terms, found, t).Some? {
      WeightedIsLinear(terms, found, t, |terms|, j, found[j]);
      if TermValue(other, t).Some? {
        var changed := found[j := other];
        assert forall i | 0 <= i < |terms| :: TermValue(changed[i], t).Some?;
        WeightedIsLinear(terms, found, t, |terms|, j, other);
      }
    }
  }

  /** The source's loop, which gives up at the first missing term. */
  method CombineTerms(terms: seq<Term>, found: seq<Option<Series>>, t: string) returns (r: Option<real>)
    requires |terms| == |found|
    ensures r == Sample(terms, found, t)
  {
    var total := 0.0;
    for n := 0 to |terms|
      invariant forall i | 0 <= i < n :: TermValue(found[i], t).Some?
      invariant total == Weighted(terms, found, t, n)
    {
      var value := TermValue(found[n], t);
      if value.None? {
        return None;
      }
      total := total + value.value * terms[n].factor;
    }
    return Some(total);
  }

  function Samples(terms: seq<Term>, found: seq<Option<Series>>, ts: seq<string>): seq<Option<real>>
    requires |terms| == |found|
  {
    seq(|ts|, i requires 0 <= i < |ts| => Sample(terms, found, ts[i]))
  }

  // ---------------------------------------------------------------- counters

  /** The increase since the previous reading, unknown at a gap or a reset. */
  function Interval(values: seq<Option<real>>, i: nat): Option<real>
    requires i < |values|
  {
    if values[i].None? || i == 0 || values[i - 1].None? || values[i].value < values[i - 1].value then None
    else Some(values[i].value - values[i - 1].value)
  }

  function CounterIntervals(values: seq<Option<real>>): seq<Option<real>> {
    seq(|values|, i requires 0 <= i < |values| => Interval(values, i))
  }

  /** A sum of numbers, reading `None` as nothing. */
  function Sum(xs: seq<Option<real>>): real {
    if xs == [] then 0.0
    else
      var last := xs[|xs| - 1];
      Sum(xs[..|xs| - 1]) + if last.Some? then last.value else 0.0
  }

  predicate AllKnown(xs: seq<Option<real>>) {
    forall i | 0 <= i < |xs| :: xs[i].Some?
  }

  predicate NonDecreasing(xs: seq<Option<real>>)
    requires AllKnown(xs)
  {
    forall i, j | 0 <= i < j < |xs| :: xs[i].value <= xs[j].value
  }

  /** No interval is unknown exactly when every reading is known and the counter never goes back. */
  lemma {:induction false} IntervalsKnown(values: seq<Option<real>>)
    requires |values| >= 2
    ensures AllKnown(CounterIntervals(values)[1..]) <==> AllKnown(values) && NonDecreasing(values)
    decreases |values|
  {
    var n := |values| - 1;
    var before, intervals := values[..n], CounterIntervals(values);
    assert forall i | 0 <= i < n :: CounterIntervals(before)[i] == intervals[i];
    assert intervals[1..][n - 1] == Interval(values, n);
    if n >= 2 {
      IntervalsKnown(before);
      assert intervals[1..] == CounterIntervals(before)[1..] + [intervals[n]];
      KnownOneMore(CounterIntervals(before)[1..], intervals[n]);
      assert values == before + [values[n]];
      KnownOneMore(before, values[n]);
      if AllKnown(values) {
        assert NonDecreasing(values) <==> NonDecreasing(before) && values[n - 1].value <= values[n].value by {
          if NonDecreasing(before) && values[n - 1].value <= values[n].value {
            assert forall i | 0 <= i < n :: before[i].value <= before[n - 1].value;
          }
          if NonDecreasing(values) {
            assert forall i, j | 0 <= i < j < n :: before[i] == values[i] && before[j] == values[j];
          }
        }
      }
    }
  }

  lemma KnownOneMore(xs: seq<Option<real>>, x: Option<real>)
    ensures AllKnown(xs + [x]) <==> AllKnown(xs) && x.Some?
  {
    if AllKnown(xs + [x]) {
      assert forall i | 0 <= i < |xs| :: xs[i] == (xs + [x])[i];
      assert (xs + [x])[|xs|] == x;
    }
  }

  /** The known intervals of a run of readings add up to its last reading minus its first. */
  lemma {:induction false} IntervalsTelescope(values: seq<Option<real>>)
    requires |values| >= 1 && AllKnown(values) && NonDecreasing(values)
    ensures Sum(CounterIntervals(values)[1..]) == values[|values| - 1].value - values[0].value
    decreases |values|
  {
    var n := |values| - 1;
    if n > 0 {
      IntervalsOneMore(values);
      IntervalsTelescope(values[..n]);
      SumAppend(CounterIntervals(values[..n])[1..], Interval(values, n));
    }
  }

  lemma IntervalsOneMore(values: seq<Option<real>>)
    requires |values| >= 2 && AllKnown(values) && NonDecreasing(values)
    ensures var n, before := |values| - 1, values[..|values| - 1];
            && AllKnown(before) && NonDecreasing(before)
            && CounterIntervals(values)[1..] == CounterIntervals(before)[1..] + [Interval(values, n)]
            && Interval(values, n) == Some(values[n].value - before[n - 1].value)
  {
    var before := values[..|values| - 1];
    assert forall i | 0 <= i < |before| :: before[i] == values[i];
    assert forall i | 0 <= i < |before| :: Interval(before, i) == Interval(values, i);
  }

  lemma SumAppend(xs: seq<Option<real>>, x: Option<real>)
    ensures Sum(xs + [x]) == Sum(xs) + if x.Some? then x.value else 0.0
  {
    assert (xs + [x])[..|xs|] == xs;
  }

  // ---------------------------------------------------------------- histories

  /** Every series is there and has the number of buckets the query asks for. */
  predicate Complete(parse: Parser, found: seq<Option<Series>>, query: Option<Query>) {
    && query.Some?
    && var expected := ExpectedCount(parse, query.value.start, query.value.end, query.value.interval);
       expected > 0 && forall i | 0 <= i < |found| :: found[i].Some? && found[i].value.count == expected
  }

  function StatisticHistory(parse: Parser, metric: Option<Metric>, responses: seq<Series>, query: Option<Query>)
    : History
  {
    if metric.None? then History([], [], None, None)
    else
      var m := metric.value;
      var found := Found(m, responses);
      var ts := Timestamps(parse, found);
      var samples := Samples(m.terms, found, ts);
      var values := if m.counter then CounterIntervals(samples) else samples;
      var intervals := if values == [] then [] else values[1..];
      var total := if m.counter && Complete(parse, found, query) && intervals != [] && AllKnown(intervals)
                   then Some(Sum(intervals)) else None;
      History(ts, values, total, if total.None? then None else Some(Coverage(ts[0], ts[|ts| - 1])))
  }

  /** The readings of a metric over the time axis. */
  function Readings(parse: Parser, m: Metric, responses: seq<Series>): seq<Option<real>> {
    var found := Found(m, responses);
    Samples(m.terms, found, Timestamps(parse, found))
  }

  /**
   A total is given exactly for a counter whose series are complete and whose readings are all known and never
   go back; it is then the last reading minus the first, over the whole time axis.
   */
  lemma {:induction false} TotalIsLastMinusFirst(parse: Parser, m: Metric, responses: seq<Series>, query: Option<Query>)
    ensures var h, readings := StatisticHistory(parse, Some(m), responses, query), Readings(parse, m, responses);
            && |h.timestamps| == |h.values| == |readings|
            && (h.total.Some? <==>
                && m.counter && Complete(parse, Found(m, responses), query)
                && |readings| >= 2 && AllKnown(readings) && NonDecreasing(readings))
            && (h.total.Some? ==>
                && h.total.value == readings[|readings| - 1].value - readings[0].value >= 0.0
                && h.coverage == Some(Coverage(h.timestamps[0], h.timestamps[|h.timestamps| - 1])))
            && (h.total.None? ==> h.coverage.None?)
  {
    var readings := Readings(parse, m, responses);
    if m.counter && |readings| >= 2 {
      IntervalsKnown(readings);
      if AllKnown(readings) && NonDecreasing(readings) {
        IntervalsTelescope(readings);
      }
    }
  }

  /** The value at a time: the sample there, or for a counter the increase since the time before, if it is one. */
  lemma ValueAtTime(parse: Parser, m: Metric, responses: seq<Series>, query: Option<Query>, i: nat)
    requires i < |Readings(parse, m, responses)|
    ensures var h, readings := StatisticHistory(parse, Some(m), responses, query), Readings(parse, m, responses);
            && |h.timestamps| == |h.values| == |readings|
            && readings[i] == Sample(m.terms, Found(m, responses), h.timestamps[i])
            && h.values[i] ==
               if !m.counter then readings[i]
               else if i > 0 && readings[i].Some? && readings[i - 1].Some? && readings[i].value >= readings[i - 1].value
               then Some(readings[i].value - readings[i - 1].value) else None
  {
  }

  /** Without terms there is no time axis and no total. */
  lemma NoTermsNoTotal(parse: Parser, m: Metric, responses: seq<Series>, query: Option<Query>)
    requires m.terms == []
    ensures StatisticHistory(parse, Some(m), responses, query) == History([], [], None, None)
  {
    assert Found(m, responses) == [];
  }

  /** A total also bounds what happened in between: no interval is negative and none exceeds the total. */
  lemma {:induction false} IntervalsWithinTotal(values: seq<Option<real>>, i: nat)
    requires 1 <= i < |values| && AllKnown(values) && NonDecreasing(values)
    ensures CounterIntervals(values)[i].Some?
    ensures 0.0 <= CounterIntervals(values)[i].value <= Sum(CounterIntervals(values)[1..])
  {
    IntervalsTelescope(values);
    var n := |values| - 1;
    assert values[0].value <= values[i - 1].value <= values[i].value <= values[n].value;
  }
}
