/**
 The stateful functions of `libs/voltage-calc/src/builtin_functions.rs`: time integral, moving average,
 rate of change and period delta. Clock readings and period starts are inputs of each call; the result
 `None` is the NaN the source returns while there is no baseline.
 */
module CalcFunctions {
  import opened Basics
  import opened CalcState

  datatype Blob =
    | IntegrateBlob(lastTs: real, accumulated: real)
    | MovingAvgBlob(window: Window)
    | RateBlob(lastTs: real, lastValue: real)
    | PeriodBlob(snapshot: real, periodStart: int)
    | OtherBlob(text: string)

  datatype CalcError = BadState | BadWindow | VariableNotFound(name: string)

  type Outcome = Result<Option<real>, CalcError>

  datatype Call =
    | Integrate(context: string, variable: string, value: real, factor: real, now: real)
    | MovingAvg(context: string, variable: string, value: real, size: nat)
    | Rate(context: string, variable: string, value: real, now: real)
    | PeriodDelta(context: string, variable: string, value: real, period: string, start: int)

  function Key(c: Call): string {
    match c
    case Integrate(context, variable, _, _, _) => StateKey(context, "integrate", variable)
    case MovingAvg(context, variable, _, _) => StateKey(context, "moving_avg", variable)
    case Rate(context, variable, _, _) => StateKey(context, "rate", variable)
    case PeriodDelta(context, variable, _, period, _) =>
      StateKey(context, "period_delta", variable + "_" + period)
  }

  // ---------------------------------------------------------------- one call on its own state

  function Slice(value: real, dt: real, factor: real): real {
    value * dt * factor
  }

  function IntegrateStep(state: Option<Blob>, value: real, factor: real, now: real): (Option<Blob>, Outcome) {
    match state
    case None => (Some(IntegrateBlob(now, 0.0)), Ok(Some(0.0)))
    case Some(IntegrateBlob(last, accumulated)) =>
      var dt := now - last;
      if dt <= 0.0 then (state, Ok(Some(accumulated)))
      else (Some(IntegrateBlob(now, accumulated + Slice(value, dt, factor))),
            Ok(Some(accumulated + Slice(value, dt, factor))))
    case Some(_) => (state, Err(BadState))
  }

  function MovingAvgStep(state: Option<Blob>, value: real, size: nat): (Option<Blob>, Outcome) {
    if size == 0 then (state, Err(BadWindow))
    else if state.Some? && !state.value.MovingAvgBlob? then (state, Err(BadState))
    else
      var kept := state.Some? && |state.value.window.values| == size;
      var w := Added(if kept then state.value.window else Fresh(size), value);
      (Some(MovingAvgBlob(w)), Ok(Some(Average(w))))
  }

  function RateStep(state: Option<Blob>, value: real, now: real): (Option<Blob>, Outcome) {
    match state
    case None => (Some(RateBlob(now, value)), Ok(None))
    case Some(RateBlob(last, before)) =>
      var dt := now - last;
      (Some(RateBlob(now, value)), Ok(if dt > 0.0 then Some((value - before) / dt) else None))
    case Some(_) => (state, Err(BadState))
  }

  function PeriodDeltaStep(state: Option<Blob>, value: real, start: int): (Option<Blob>, Outcome) {
    match state
    case None => (Some(PeriodBlob(value, start)), Ok(None))
    case Some(PeriodBlob(snapshot, periodStart)) =>
      var rotated := start > periodStart;
      var base := if rotated then value else snapshot;
      var kept := if value < base then value else base;
      (Some(PeriodBlob(kept, if rotated then start else periodStart)), Ok(Some(value - kept)))
    case Some(_) => (state, Err(BadState))
  }

  function Step(state: Option<Blob>, c: Call): (Option<Blob>, Outcome) {
    match c
    case Integrate(_, _, value, factor, now) => IntegrateStep(state, value, factor, now)
    case MovingAvg(_, _, value, size) => MovingAvgStep(state, value, size)
    case Rate(_, _, value, now) => RateStep(state, value, now)
    case PeriodDelta(_, _, value, _, start) => PeriodDeltaStep(state, value, start)
  }

  // ---------------------------------------------------------------- the store and the source's methods

  type Store = map<string, Blob>

  function Lookup(store: Store, key: string): Option<Blob> {
    if key in store then Some(store[key]) else None
  }

  function Put(store: Store, key: string, state: Option<Blob>): Store {
    if state.Some? then store[key := state.value] else store
  }

  function Apply(store: Store, c: Call): Store {
    Put(store, Key(c), Step(Lookup(store, Key(c)), c).0)
  }

  function Answer(store: Store, c: Call): Outcome {
    Step(Lookup(store, Key(c)), c).1
  }

  class MemoryStateStore {
    var data: Store

    constructor ()
      ensures data == map[]
    {
      data := map[];
    }

    method Get(key: string) returns (r: Option<Blob>)
      ensures r == Lookup(data, key)
    {
      return if key in data then Some(data[key]) else None;
    }

    method Set(key: string, state: Blob)
      modifies this
      ensures data == old(data)[key := state]
    {
      data := data[key := state];
    }
  }

  class BuiltinFunctions {
    const store: MemoryStateStore
    const context: string

    constructor (store: MemoryStateStore, context: string)
      ensures this.store == store && this.context == context
    {
      this.store, this.context := store, context;
    }

    method Integrate(variable: string, value: real, factor: real, now: real) returns (r: Outcome)
      modifies store
      ensures var c := Call.Integrate(context, variable, value, factor, now);
              store.data == Apply(old(store.data), c) && r == Answer(old(store.data), c)
    {
      var key := StateKey(context, "integrate", variable);
      var loaded := store.Get(key);
      if loaded.None? {
        store.Set(key, IntegrateBlob(now, 0.0));
        return Ok(Some(0.0));
      }
      if !loaded.value.IntegrateBlob? {
        return Err(BadState);
      }
      var dt := now - loaded.value.lastTs;
      if dt <= 0.0 {
        return Ok(Some(loaded.value.accumulated));
      }
      var accumulated := loaded.value.accumulated + Slice(value, dt, factor);
      store.Set(key, IntegrateBlob(now, accumulated));
      return Ok(Some(accumulated));
    }

    method MovingAvg(variable: string, value: real, size: nat) returns (r: Outcome)
      modifies store
      ensures var c := Call.MovingAvg(context, variable, value, size);
              store.data == Apply(old(store.data), c) && r == Answer(old(store.data), c)
    {
      if size == 0 {
        return Err(BadWindow);
      }
      var key := StateKey(context, "moving_avg", variable);
      var loaded := store.Get(key);
      var state;
      if loaded.Some? {
        if !loaded.value.MovingAvgBlob? {
          return Err(BadState);
        }
        if |loaded.value.window.values| != size {
          state := new MovingAvgState.New(size);
        } else {
          state := new MovingAvgState.Load(loaded.value.window);
        }
      } else {
        state := new MovingAvgState.New(size);
      }
      var average := state.Add(value);
      store.Set(key, MovingAvgBlob(Window(state.values, state.position, state.count)));
      return Ok(Some(average));
    }

    method RateOfChange(variable: string, value: real, now: real) returns (r: Outcome)
      modifies store
      ensures var c := Call.Rate(context, variable, value, now);
              store.data == Apply(old(store.data), c) && r == Answer(old(store.data), c)
    {
      var key := StateKey(context, "rate", variable);
      var loaded := store.Get(key);
      if loaded.Some? && !loaded.value.RateBlob? {
        return Err(BadState);
      }
      store.Set(key, RateBlob(now, value));
      if loaded.None? {
        return Ok(None);
      }
      var dt := now - loaded.value.lastTs;
      return Ok(if dt > 0.0 then Some((value - loaded.value.lastValue) / dt) else None);
    }

    method PeriodDelta(variable: string, value: real, period: string, start: int) returns (r: Outcome)
      modifies store
      ensures var c := Call.PeriodDelta(context, variable, value, period, start);
              store.data == Apply(old(store.data), c) && r == Answer(old(store.data), c)
    {
      var key := StateKey(context, "period_delta", variable + "_" + period);
      var loaded := store.Get(key);
      if loaded.None? {
        store.Set(key, PeriodBlob(value, start));
        return Ok(None);
      }
      if !loaded.value.PeriodBlob? {
        return Err(BadState);
      }
      var snapshot, periodStart := loaded.value.snapshot, loaded.value.periodStart;
      if start > periodStart {
        snapshot, periodStart := value, start;
      }
      if value < snapshot {
        snapshot := value;
      }
      store.Set(key, PeriodBlob(snapshot, periodStart));
      return Ok(Some(value - snapshot));
    }
  }

  // ---------------------------------------------------------------- histories

  function AppliedAll(store: Store, calls: seq<Call>): Store {
    if calls == [] then store else Apply(AppliedAll(store, calls[..|calls| - 1]), calls[|calls| - 1])
  }

  /** The state of one key after calls on that key. */
  function Stepped(state: Option<Blob>, calls: seq<Call>): Option<Blob> {
    if calls == [] then state else Step(Stepped(state, calls[..|calls| - 1]), calls[|calls| - 1]).0
  }

  function OnKey(calls: seq<Call>, key: string): seq<Call> {
    if calls == [] then []
    else
      var before, c := OnKey(calls[..|calls| - 1], key), calls[|calls| - 1];
      if Key(c) == key then before + [c] else before
  }

  /** In any interleaving of calls, a key's state depends only on the calls on that key. */
  lemma {:induction false} KeysAreIndependent(store: Store, calls: seq<Call>, key: string)
    ensures Lookup(AppliedAll(store, calls), key) == Stepped(Lookup(store, key), OnKey(calls, key))
    decreases |calls|
  {
    if calls != [] {
      var before, c := calls[..|calls| - 1], calls[|calls| - 1];
      KeysAreIndependent(store, before, key);
      if Key(c) == key {
        assert (OnKey(before, key) + [c])[..|OnKey(before, key)|] == OnKey(before, key);
        StateStays(Lookup(AppliedAll(store, before), key), c);
      }
    }
  }

  /** A call never deletes a state. */
  lemma StateStays(state: Option<Blob>, c: Call)
    ensures state.Some? ==> Step(state, c).0.Some?
  {
  }

  /** Calls of different functions, contexts or variables never share a key when the variables have no colon. */
  lemma KeyIdentifies(a: Call, b: Call)
    requires ':' !in a.variable && ':' !in b.variable
    requires a.PeriodDelta? ==> ':' !in a.period && '_' !in a.period
    requires b.PeriodDelta? ==> ':' !in b.period && '_' !in b.period
    requires Key(a) == Key(b)
    ensures a.context == b.context && a.variable == b.variable
    ensures (a.Integrate? <==> b.Integrate?) && (a.MovingAvg? <==> b.MovingAvg?)
    ensures (a.Rate? <==> b.Rate?) && (a.PeriodDelta? <==> b.PeriodDelta?)
    ensures a.PeriodDelta? ==> a.period == b.period
  {
    StateKeyInjective(a.context, Name(a), Part(a), b.context, Name(b), Part(b));
    if a.PeriodDelta? {
      LastUnderscore(a.variable, a.period, b.variable, b.period);
    }
  }

  function Name(c: Call): string {
    match c
    case Integrate(_, _, _, _, _) => "integrate"
    case MovingAvg(_, _, _, _) => "moving_avg"
    case Rate(_, _, _, _) => "rate"
    case PeriodDelta(_, _, _, _, _) => "period_delta"
  }

  function Part(c: Call): string {
    if c.PeriodDelta? then c.variable + "_" + c.period else c.variable
  }

  lemma LastUnderscore(a: string, p: string, b: string, q: string)
    requires '_' !in p && '_' !in q && a + "_" + p == b + "_" + q
    ensures a == b && p == q
  {
    var whole := a + "_" + p;
    assert whole[|a|] == '_' && whole[|b|] == '_';
    UnderscoreAfter(a, p, |b|);
    UnderscoreAfter(b, q, |a|);
    assert whole[..|a|] == a && whole[..|b|] == b;
    assert whole[|a| + 1..] == p && whole[|b| + 1..] == q;
  }

  lemma UnderscoreAfter(a: string, p: string, i: nat)
    ensures |a| < i < |a + "_" + p| && (a + "_" + p)[i] == '_' ==> '_' in p
  {
    if |a| < i < |a + "_" + p| {
      assert (a + "_" + p)[i] == p[i - |a| - 1];
    }
  }

  // ---------------------------------------------------------------- the integral

  predicate AllIntegrate(calls: seq<Call>) {
    forall i | 0 <= i < |calls| :: calls[i].Integrate?
  }

  /** The largest clock reading. */
  function Latest(calls: seq<Call>): real
    requires calls != [] && AllIntegrate(calls)
  {
    var last := calls[|calls| - 1].now;
    if |calls| == 1 then last
    else
      var before := Latest(calls[..|calls| - 1]);
      if last > before then last else before
  }

  /** Calls of different functions that share a key: the rate is refused once the integral has a state. */
  lemma SharedKey(context: string, variable: string, v: real, factor: real, t: real, w: real, u: real)
    ensures var integral := Integrate(context, "rate:" + variable, v, factor, t);
            var rate := Rate(context + ":integrate", variable, w, u);
            && Key(integral) == Key(rate)
            && Answer(map[], rate) == Ok(None)
            && Answer(Apply(map[], integral), rate) == Err(BadState)
  {
    KeyParts(context, "integrate", "rate:" + variable);
    KeyParts(context + ":integrate", "rate", variable);
    assert context + Tail("integrate", "rate:" + variable) == (context + ":integrate") + Tail("rate", variable);
  }

  lemma {:induction false} LatestIsMaximum(calls: seq<Call>)
    requires calls != [] && AllIntegrate(calls)
    ensures forall i | 0 <= i < |calls| :: calls[i].now <= Latest(calls)
    ensures exists i | 0 <= i < |calls| :: calls[i].now == Latest(calls)
    decreases |calls|
  {
    if |calls| == 1 {
      assert calls[0].now == Latest(calls);
    } else {
      var before := calls[..|calls| - 1];
      LatestIsMaximum(before);
      var i :| 0 <= i < |before| && before[i].now == Latest(before);
      assert calls[if calls[|calls| - 1].now > Latest(before) then |calls| - 1 else i].now == Latest(calls);
    }
  }

  /** The time the i-th call newly covers: how far it moves the largest reading. */
  function Gain(calls: seq<Call>, i: nat): (dt: real)
    requires AllIntegrate(calls) && 1 <= i < |calls|
    ensures dt >= 0.0
  {
    assert calls[..i + 1][..i] == calls[..i];
    Latest(calls[..i + 1]) - Latest(calls[..i])
  }

  /** Each value times its factor and newly covered time, over the first `n` calls. */
  function Area(calls: seq<Call>, n: nat): real
    requires AllIntegrate(calls) && 1 <= n <= |calls|
  {
    if n == 1 then 0.0
    else Area(calls, n - 1) + Slice(calls[n - 1].value, Gain(calls, n - 1), calls[n - 1].factor)
  }

  lemma {:induction false} IntegrateClosedForm(calls: seq<Call>, n: nat)
    requires AllIntegrate(calls) && 1 <= n <= |calls|
    ensures Stepped(None, calls[..n]) == Some(IntegrateBlob(Latest(calls[..n]), Area(calls, n)))
    ensures Step(Stepped(None, calls[..n - 1]), calls[n - 1]).1 == Ok(Some(Area(calls, n)))
  {
    assert calls[..n][..n - 1] == calls[..n - 1];
    if n == 1 {
      assert calls[..0] == [];
    } else {
      IntegrateClosedForm(calls, n - 1);
      ZeroSlice(calls[n - 1].value, calls[n - 1].factor);
    }
  }

  lemma ZeroSlice(value: real, factor: real)
    ensures Slice(value, 0.0, factor) == 0.0
  {
  }

  /** The time covered by the first `n` calls. */
  function Covered(calls: seq<Call>, n: nat): real
    requires AllIntegrate(calls) && 1 <= n <= |calls|
  {
    Latest(calls[..n]) - calls[0].now
  }

  predicate RateWithin(c: Call, lo: real, hi: real)
    requires c.Integrate?
  {
    lo <= c.value * c.factor <= hi
  }

  lemma CoveredAtFirst(calls: seq<Call>)
    requires AllIntegrate(calls) && calls != []
    ensures Covered(calls, 1) == 0.0
  {
    assert calls[..1] == [calls[0]];
  }

  lemma CoveredOneMore(calls: seq<Call>, n: nat)
    requires AllIntegrate(calls) && 2 <= n <= |calls|
    ensures Covered(calls, n) == Covered(calls, n - 1) + Gain(calls, n - 1)
  {
    assert calls[..n][..n - 1] == calls[..n - 1];
  }

  /** Rates between `lo` and `hi` give an integral between their products with the covered time. */
  lemma {:induction false} AreaBounds(calls: seq<Call>, n: nat, lo: real, hi: real)
    requires AllIntegrate(calls) && 1 <= n <= |calls|
    requires forall i | 0 <= i < n :: RateWithin(calls[i], lo, hi)
    ensures Between(lo, hi, Covered(calls, n), Area(calls, n))
  {
    if n == 1 {
      CoveredAtFirst(calls);
    } else {
      AreaBounds(calls, n - 1, lo, hi);
      AreaStep(calls, n, lo, hi);
    }
  }

  lemma {:induction false} AreaStep(calls: seq<Call>, n: nat, lo: real, hi: real)
    requires AllIntegrate(calls) && 2 <= n <= |calls| && RateWithin(calls[n - 1], lo, hi)
    requires Between(lo, hi, Covered(calls, n - 1), Area(calls, n - 1))
    ensures Between(lo, hi, Covered(calls, n), Area(calls, n))
  {
    var c, gain := calls[n - 1], Gain(calls, n - 1);
    SliceBounds(c, gain, lo, hi);
    CoveredOneMore(calls, n);
    AddBounds(lo, hi, Covered(calls, n - 1), gain, Area(calls, n - 1), Slice(c.value, gain, c.factor));
  }

  /** The area lies between the lowest and the highest rate held for the given time. */
  predicate Between(lo: real, hi: real, time: real, area: real) {
    lo * time <= area <= hi * time
  }

  lemma SliceBounds(c: Call, dt: real, lo: real, hi: real)
    requires c.Integrate? && dt >= 0.0 && RateWithin(c, lo, hi)
    ensures Between(lo, hi, dt, Slice(c.value, dt, c.factor))
  {
    var rate := c.value * c.factor;
    assert Slice(c.value, dt, c.factor) == rate * dt;
    assert (rate - lo) * dt >= 0.0 && (hi - rate) * dt >= 0.0;
  }

  lemma AddBounds(lo: real, hi: real, x: real, y: real, a: real, b: real)
    requires Between(lo, hi, x, a) && Between(lo, hi, y, b)
    ensures Between(lo, hi, x + y, a + b)
  {
    assert lo * (x + y) == lo * x + lo * y && hi * (x + y) == hi * x + hi * y;
  }

  /** A constant rate integrates to the rate times the covered time, whatever the clock did. */
  lemma {:induction false} ConstantIntegral(calls: seq<Call>, rate: real)
    requires AllIntegrate(calls) && calls != []
    requires forall i | 0 <= i < |calls| :: RateWithin(calls[i], rate, rate)
    ensures Stepped(None, calls) == Some(IntegrateBlob(Latest(calls), rate * Covered(calls, |calls|)))
  {
    assert calls[..|calls|] == calls;
    AreaBounds(calls, |calls|, rate, rate);
    assert Area(calls, |calls|) == rate * Covered(calls, |calls|);
    IntegrateClosedForm(calls, |calls|);
  }

  // ---------------------------------------------------------------- the period delta

  predicate AllPeriod(calls: seq<Call>) {
    forall i | 0 <= i < |calls| :: calls[i].PeriodDelta?
  }

  /** The index of the last rotation: the first call with the largest period start. */
  function Rotation(calls: seq<Call>): (r: nat)
    requires AllPeriod(calls) && calls != []
    ensures r < |calls|
    ensures forall i | 0 <= i < |calls| :: calls[i].start <= calls[r].start
    ensures forall i | 0 <= i < r :: calls[i].start < calls[r].start
  {
    if |calls| == 1 then 0
    else
      var before := Rotation(calls[..|calls| - 1]);
      if calls[|calls| - 1].start > calls[before].start then |calls| - 1 else before
  }

  /** The smallest value of a non-empty list of calls. */
  function Lowest(calls: seq<Call>): real
    requires calls != []
  {
    var last := calls[|calls| - 1].value;
    if |calls| == 1 then last
    else
      var before := Lowest(calls[..|calls| - 1]);
      if last < before then last else before
  }

  lemma {:induction false} LowestIsMinimum(calls: seq<Call>)
    requires calls != []
    ensures forall i | 0 <= i < |calls| :: Lowest(calls) <= calls[i].value
    ensures exists i | 0 <= i < |calls| :: calls[i].value == Lowest(calls)
    decreases |calls|
  {
    if |calls| == 1 {
      assert calls[0].value == Lowest(calls);
    } else {
      var before := calls[..|calls| - 1];
      LowestIsMinimum(before);
      var i :| 0 <= i < |before| && before[i].value == Lowest(before);
      assert calls[if calls[|calls| - 1].value < Lowest(before) then |calls| - 1 else i].value == Lowest(calls);
    }
  }

  /**
   The stored start is the largest so far and the snapshot the smallest value since it first appeared;
   every answer after the first is the value above that snapshot.
   */
  lemma {:induction false} PeriodDeltaClosedForm(calls: seq<Call>)
    requires AllPeriod(calls) && calls != []
    ensures var r := Rotation(calls);
            Stepped(None, calls) == Some(PeriodBlob(Lowest(calls[r..]), calls[r].start))
    ensures var c := calls[|calls| - 1];
            Step(Stepped(None, calls[..|calls| - 1]), c).1 ==
            Ok(if |calls| == 1 then None else Some(c.value - Lowest(calls[Rotation(calls)..])))
    decreases |calls|
  {
    var before, c := calls[..|calls| - 1], calls[|calls| - 1];
    if |calls| == 1 {
      assert before == [] && calls[0..] == calls;
    } else {
      PeriodDeltaClosedForm(before);
      RotationOneMore(calls);
      PeriodStep(Lowest(before[Rotation(before)..]), before[Rotation(before)].start, c);
    }
  }

  lemma PeriodStep(snapshot: real, start: int, c: Call)
    requires c.PeriodDelta?
    ensures var kept := if c.start > start || c.value < snapshot then c.value else snapshot;
            Step(Some(PeriodBlob(snapshot, start)), c) ==
            (Some(PeriodBlob(kept, if c.start > start then c.start else start)), Ok(Some(c.value - kept)))
  {
  }

  lemma {:induction false} RotationOneMore(calls: seq<Call>)
    requires AllPeriod(calls) && |calls| >= 2
    ensures var before, c := calls[..|calls| - 1], calls[|calls| - 1];
            var q, r := Rotation(before), Rotation(calls);
            if c.start > before[q].start
            then calls[r] == c && Lowest(calls[r..]) == c.value
            else calls[r] == before[q] &&
                 Lowest(calls[r..]) == if c.value < Lowest(before[q..]) then c.value else Lowest(before[q..])
  {
    var before, c := calls[..|calls| - 1], calls[|calls| - 1];
    var q, r := Rotation(before), Rotation(calls);
    if c.start > before[q].start {
      assert calls[r..] == [c];
    } else {
      assert calls[r..][..|calls[r..]| - 1] == before[q..];
    }
  }

  /** Whatever period starts the calendar reports, the stored start never decreases and answers are never negative. */
  lemma {:induction false} PeriodDeltaNeverNegative(calls: seq<Call>)
    requires AllPeriod(calls) && |calls| >= 2
    ensures var c := calls[|calls| - 1];
            exists d :: d >= 0.0 && Step(Stepped(None, calls[..|calls| - 1]), c).1 == Ok(Some(d))
    ensures Stepped(None, calls[..|calls| - 1]).Some? && Stepped(None, calls).Some?
    ensures Stepped(None, calls).value.PeriodBlob? && Stepped(None, calls[..|calls| - 1]).value.PeriodBlob?
    ensures Stepped(None, calls[..|calls| - 1]).value.periodStart <= Stepped(None, calls).value.periodStart
  {
    PeriodDeltaClosedForm(calls);
    PeriodDeltaClosedForm(calls[..|calls| - 1]);
    var since, c := calls[Rotation(calls)..], calls[|calls| - 1];
    LowestIsMinimum(since);
    assert since[|since| - 1] == c;
    assert c.value - Lowest(since) >= 0.0;
  }

  // ---------------------------------------------------------------- the moving average

  predicate AllMovingAvg(calls: seq<Call>) {
    forall i | 0 <= i < |calls| :: calls[i].MovingAvg?
  }

  /** The values of the accepted calls since the window size last changed; calls with size 0 are rejected. */
  function Streak(calls: seq<Call>): (vs: seq<real>)
    requires AllMovingAvg(calls)
    ensures vs == [] <==> WindowSize(calls) == 0
  {
    if calls == [] then []
    else
      var before, c := calls[..|calls| - 1], calls[|calls| - 1];
      if c.size == 0 then Streak(before)
      else if c.size == WindowSize(before) then Streak(before) + [c.value]
      else [c.value]
  }

  /** The size of the last accepted call, or 0. */
  function WindowSize(calls: seq<Call>): nat
    requires AllMovingAvg(calls)
  {
    if calls == [] then 0
    else if calls[|calls| - 1].size != 0 then calls[|calls| - 1].size
    else WindowSize(calls[..|calls| - 1])
  }

  lemma {:induction false} MovingAvgState(calls: seq<Call>)
    requires AllMovingAvg(calls)
    ensures Stepped(None, calls) ==
            if WindowSize(calls) == 0 then None
            else Some(MovingAvgBlob(AddedAll(Fresh(WindowSize(calls)), Streak(calls))))
    decreases |calls|
  {
    if calls != [] {
      var before, c := calls[..|calls| - 1], calls[|calls| - 1];
      MovingAvgState(before);
      AddedAllSize(Fresh(WindowSize(before)), Streak(before));
      assert c.size != 0 ==> Streak(calls)[..|Streak(calls)| - 1] ==
                             if c.size == WindowSize(before) then Streak(before) else [];
    }
  }

  lemma {:induction false} AddedAllSize(w: Window, values: seq<real>)
    requires w.values != []
    ensures |AddedAll(w, values).values| == |w.values|
  {
    if values != [] {
      AddedAllSize(w, values[..|values| - 1]);
    }
  }

  /** Every accepted call returns the mean of the last `min(size, k)` values of its streak of length `k`. */
  lemma {:induction false} MovingAvgClosedForm(calls: seq<Call>)
    requires AllMovingAvg(calls) && calls != []
    ensures var c := calls[|calls| - 1];
            Step(Stepped(None, calls[..|calls| - 1]), c).1 ==
            if c.size == 0 then Err(BadWindow) else Ok(Some(Mean(Last(Streak(calls), c.size))))
  {
    var c := calls[|calls| - 1];
    if c.size != 0 {
      MovingAvgState(calls);
      MovingAvgState(calls[..|calls| - 1]);
      FreshWindowAverages(c.size, Streak(calls));
    }
  }

  // ---------------------------------------------------------------- any interleaving of calls

  /** No colon in the variable, and no colon or underscore in the period: the names the callers use. */
  predicate WellNamed(c: Call) {
    ':' !in c.variable && (c.PeriodDelta? ==> ':' !in c.period && '_' !in c.period)
  }

  predicate SameTarget(a: Call, b: Call) {
    && a.context == b.context && a.variable == b.variable && Name(a) == Name(b)
    && (a.Integrate? <==> b.Integrate?) && (a.MovingAvg? <==> b.MovingAvg?)
    && (a.Rate? <==> b.Rate?) && (a.PeriodDelta? <==> b.PeriodDelta?)
    && (a.PeriodDelta? ==> a.period == b.period)
  }

  lemma {:induction false} OnKeyIsOneTarget(calls: seq<Call>, c: Call)
    requires WellNamed(c) && forall i | 0 <= i < |calls| :: WellNamed(calls[i])
    ensures forall i | 0 <= i < |OnKey(calls, Key(c))| :: SameTarget(OnKey(calls, Key(c))[i], c)
    decreases |calls|
  {
    if calls != [] {
      OnKeyIsOneTarget(calls[..|calls| - 1], c);
      if Key(calls[|calls| - 1]) == Key(c) {
        KeyIdentifies(calls[|calls| - 1], c);
      }
    }
  }

  predicate AllRate(calls: seq<Call>) {
    forall i | 0 <= i < |calls| :: calls[i].Rate?
  }

  /** The rate answers compare with the previous call only, and only when the clock moved forward. */
  lemma {:induction false} RateClosedForm(calls: seq<Call>)
    requires AllRate(calls) && calls != []
    ensures var c := calls[|calls| - 1];
            && Stepped(None, calls) == Some(RateBlob(c.now, c.value))
            && Step(Stepped(None, calls[..|calls| - 1]), c).1 == Ok(RateAnswer(calls))
    decreases |calls|
  {
    if |calls| > 1 {
      RateClosedForm(calls[..|calls| - 1]);
    }
  }

  function RateAnswer(calls: seq<Call>): Option<real>
    requires AllRate(calls) && calls != []
  {
    if |calls| == 1 then None
    else
      var a, b := calls[|calls| - 2], calls[|calls| - 1];
      if b.now > a.now then Some((b.value - a.value) / (b.now - a.now)) else None
  }

  predicate OneFunction(calls: seq<Call>) {
    AllIntegrate(calls) || AllMovingAvg(calls) || AllRate(calls) || AllPeriod(calls)
  }

  /** The answer to the last of the calls on one target, as a function of their values and times. */
  function Expected(calls: seq<Call>): Outcome
    requires OneFunction(calls) && calls != []
  {
    match calls[|calls| - 1]
    case Integrate(_, _, _, _, _) => Ok(Some(Area(calls, |calls|)))
    case MovingAvg(_, _, _, size) => if size == 0 then Err(BadWindow) else Ok(Some(Mean(Last(Streak(calls), size))))
    case Rate(_, _, _, _) => Ok(RateAnswer(calls))
    case PeriodDelta(_, _, value, _, _) =>
      Ok(if |calls| == 1 then None else Some(value - Lowest(calls[Rotation(calls)..])))
  }

  lemma {:induction false} ClosedForm(calls: seq<Call>)
    requires OneFunction(calls) && calls != []
    ensures Step(Stepped(None, calls[..|calls| - 1]), calls[|calls| - 1]).1 == Expected(calls)
  {
    match calls[|calls| - 1]
    case Integrate(_, _, _, _, _) => IntegrateClosedForm(calls, |calls|);
    case MovingAvg(_, _, _, _) => MovingAvgClosedForm(calls);
    case Rate(_, _, _, _) => RateClosedForm(calls);
    case PeriodDelta(_, _, _, _, _) => PeriodDeltaClosedForm(calls);
  }

  /**
   Whatever else happened in between, the answer of the last call of a run from an empty store is the
   closed form over the calls of the same context, function and variable.
   */
  lemma {:induction false} AnswersInAnyRun(calls: seq<Call>)
    requires calls != [] && forall i | 0 <= i < |calls| :: WellNamed(calls[i])
    ensures var c := calls[|calls| - 1];
            var mine := OnKey(calls, Key(c));
            && (forall i | 0 <= i < |mine| :: SameTarget(mine[i], c))
            && mine != [] && OneFunction(mine)
            && Answer(AppliedAll(map[], calls[..|calls| - 1]), c) == Expected(mine)
  {
    var before, c := calls[..|calls| - 1], calls[|calls| - 1];
    var mine := OnKey(calls, Key(c));
    OnKeyIsOneTarget(calls, c);
    assert OneFunction(mine);
    assert mine[..|mine| - 1] == OnKey(before, Key(c)) && mine[|mine| - 1] == c;
    KeysAreIndependent(map[], before, Key(c));
    ClosedForm(mine);
  }
}
