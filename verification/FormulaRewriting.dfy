/**
 In-place formula rewriting of `libs/voltage-calc/src/evaluator.rs`. The three `process_*` functions have
 one shape: all matches are found first, then each is evaluated and replaced in the owned text, from the
 last to the first. The regular-expression search is an input: a sorted list of disjoint ranges.
 */
module FormulaRewriting {
  import opened Basics
  import opened CalcState
  import opened CalcFunctions

  datatype Request = IntegrateRequest(factor: real) | MovingAvgRequest(size: nat) | RateRequest

  datatype Match = Match(from: nat, to: nat, variable: string, request: Request)

  /** Ranges inside a text of length `n`, at or after `pos`, in order and disjoint. */
  predicate Ordered(matches: seq<Match>, pos: nat, n: nat) {
    if matches == [] then pos <= n
    else pos <= matches[0].from <= matches[0].to && Ordered(matches[1..], matches[0].to, n)
  }

  // ---------------------------------------------------------------- simultaneous substitution

  /** The text from `pos` on with every range replaced, read from left to right. */
  function Substitute(text: string, pos: nat, matches: seq<Match>, texts: seq<string>): string
    requires Ordered(matches, pos, |text|) && |texts| == |matches|
    decreases |matches|
  {
    OrderedBounds(matches, pos, |text|);
    if matches == [] then text[pos..]
    else
      OrderedBounds(matches[1..], matches[0].to, |text|);
      text[pos..matches[0].from] + texts[0] + Substitute(text, matches[0].to, matches[1..], texts[1..])
  }

  lemma {:induction false} OrderedBounds(matches: seq<Match>, pos: nat, n: nat)
    requires Ordered(matches, pos, n)
    ensures pos <= n && (matches != [] ==> matches[0].to <= n)
    decreases |matches|
  {
    if matches != [] {
      OrderedBounds(matches[1..], matches[0].to, n);
    }
  }

  lemma {:induction false} OrderedDrop(matches: seq<Match>, pos: nat, n: nat, k: nat)
    requires Ordered(matches, pos, n) && k <= |matches|
    ensures Ordered(matches[k..], if k == 0 then pos else matches[k - 1].to, n)
    decreases |matches|
  {
    if k > 0 {
      OrderedDrop(matches[1..], matches[0].to, n, k - 1);
      assert matches[1..][k - 1..] == matches[k..];
    } else {
      assert matches[0..] == matches;
    }
  }

  lemma {:induction false} RangesLeft(matches: seq<Match>, length: nat, n: nat)
    requires Ordered(matches, 0, length) && 0 < n <= |matches|
    ensures matches[n - 1].from <= matches[n - 1].to && Ordered(matches[n..], matches[n - 1].to, length)
  {
    OrderedDrop(matches, 0, length, n);
    OrderedDrop(matches, 0, length, n - 1);
  }

  /** Text before the first range is copied. */
  lemma {:induction false} SubstituteEarlier(text: string, earlier: nat, pos: nat, matches: seq<Match>, texts: seq<string>)
    requires Ordered(matches, pos, |text|) && |texts| == |matches| && earlier <= pos
    ensures Ordered(matches, earlier, |text|) && pos <= |text|
    ensures Substitute(text, earlier, matches, texts) == text[earlier..pos] + Substitute(text, pos, matches, texts)
  {
    OrderedBounds(matches, pos, |text|);
    if matches == [] {
      assert text[earlier..] == text[earlier..pos] + text[pos..];
    } else {
      var rest := texts[0] + Substitute(text, matches[0].to, matches[1..], texts[1..]);
      assert text[earlier..matches[0].from] == text[earlier..pos] + text[pos..matches[0].from];
      assert Substitute(text, earlier, matches, texts) == text[earlier..matches[0].from] + rest;
      assert Substitute(text, pos, matches, texts) == text[pos..matches[0].from] + rest;
    }
  }

  /** One replacement to the left of those already made: the range is still where the search found it. */
  lemma {:induction false} ReplaceOneMore(text: string, m: Match, later: seq<Match>, t: string, texts: seq<string>)
    requires m.from <= m.to && Ordered(later, m.to, |text|) && |texts| == |later|
    ensures Ordered(later, 0, |text|) && Ordered([m] + later, 0, |text|)
    ensures m.to <= |Substitute(text, 0, later, texts)|
    ensures var now := Substitute(text, 0, later, texts);
            now[..m.from] + t + now[m.to..] == Substitute(text, 0, [m] + later, [t] + texts)
  {
    SubstituteEarlier(text, 0, m.to, later, texts);
    assert ([m] + later)[1..] == later && ([t] + texts)[1..] == texts;
    var now := Substitute(text, 0, later, texts);
    assert now[..m.from] == text[..m.from] && now[m.to..] == Substitute(text, m.to, later, texts);
    assert text[0..m.from] == text[..m.from];
  }

  // ---------------------------------------------------------------- where things end up

  /** How far the text after the first `k` ranges moves. */
  function Shift(matches: seq<Match>, texts: seq<string>, k: nat): int
    requires |texts| == |matches| && k <= |matches|
  {
    if k == 0 then 0
    else Shift(matches[1..], texts[1..], k - 1) + |texts[0]| - (matches[0].to - matches[0].from)
  }

  lemma {:induction false} SubstituteLength(text: string, pos: nat, matches: seq<Match>, texts: seq<string>)
    requires Ordered(matches, pos, |text|) && |texts| == |matches|
    ensures |Substitute(text, pos, matches, texts)| == |text| - pos + Shift(matches, texts, |matches|)
    decreases |matches|
  {
    OrderedBounds(matches, pos, |text|);
    if matches != [] {
      SubstituteLength(text, matches[0].to, matches[1..], texts[1..]);
    }
  }

  /** The replacement of the k-th range stands at its shifted place. */
  lemma {:induction false} ReplacementPlaced(text: string, pos: nat, matches: seq<Match>, texts: seq<string>, k: nat)
    requires Ordered(matches, pos, |text|) && |texts| == |matches| && k < |matches|
    ensures var at := matches[k].from + Shift(matches, texts, k) - pos;
            var result := Substitute(text, pos, matches, texts);
            0 <= at && at + |texts[k]| <= |result| && result[at..at + |texts[k]|] == texts[k]
    decreases |matches|
  {
    OrderedBounds(matches, pos, |text|);
    var head := text[pos..matches[0].from] + texts[0];
    var result := Substitute(text, pos, matches, texts);
    if k == 0 {
      var at := matches[0].from - pos;
      assert result[at..at + |texts[0]|] == texts[0];
    } else {
      var rest := Substitute(text, matches[0].to, matches[1..], texts[1..]);
      ReplacementPlaced(text, matches[0].to, matches[1..], texts[1..], k - 1);
      assert result == head + rest;
      var inner := matches[k].from + Shift(matches[1..], texts[1..], k - 1) - matches[0].to;
      var at := matches[k].from + Shift(matches, texts, k) - pos;
      assert at == |head| + inner;
      assert result[at..at + |texts[k]|] == rest[inner..inner + |texts[k]|];
    }
  }

  /** A character outside every range, with `k` ranges before it, keeps its value at its shifted place. */
  lemma {:induction false} OutsideUnchanged(text: string, pos: nat, matches: seq<Match>, texts: seq<string>, k: nat, p: nat)
    requires Ordered(matches, pos, |text|) && |texts| == |matches| && k <= |matches| && pos <= p < |text|
    requires k > 0 ==> matches[k - 1].to <= p
    requires k < |matches| ==> p < matches[k].from
    ensures var at := p + Shift(matches, texts, k) - pos;
            var result := Substitute(text, pos, matches, texts);
            0 <= at < |result| && result[at] == text[p]
    decreases |matches|
  {
    OrderedBounds(matches, pos, |text|);
    if k > 0 {
      OrderedBefore(matches, pos, |text|, k - 1);
      OutsideUnchanged(text, matches[0].to, matches[1..], texts[1..], k - 1, p);
    }
  }

  lemma {:induction false} OrderedBefore(matches: seq<Match>, pos: nat, n: nat, k: nat)
    requires Ordered(matches, pos, n) && k < |matches|
    ensures matches[0].to <= matches[k].to
    decreases |matches|
  {
    if k > 0 {
      OrderedBefore(matches[1..], matches[0].to, n, k - 1);
    }
  }

  // ---------------------------------------------------------------- evaluation from right to left

  function CallFor(context: string, m: Match, value: real, now: real): Call {
    match m.request
    case IntegrateRequest(factor) => Integrate(context, m.variable, value, factor, now)
    case MovingAvgRequest(size) => MovingAvg(context, m.variable, value, size)
    case RateRequest => Rate(context, m.variable, value, now)
  }

  datatype Evaluated = Evaluated(store: Store, texts: Result<seq<string>, CalcError>)

  /**
   Evaluates the first `n` matches, the last of them first: the calls happen from right to left, stop at
   the first failure, and keep the effects of the calls already made.
   */
  function Evaluate(store: Store, context: string, matches: seq<Match>, n: nat, variables: map<string, real>,
                    clock: seq<real>, show: Option<real> -> string): Evaluated
    requires n <= |matches| == |clock|
    decreases n
  {
    if n == 0 then Evaluated(store, Ok([]))
    else if matches[n - 1].variable !in variables then
      Evaluated(store, Err(VariableNotFound(matches[n - 1].variable)))
    else
      var c := CallFor(context, matches[n - 1], variables[matches[n - 1].variable], clock[n - 1]);
      var answer := Answer(store, c);
      if answer.Err? then Evaluated(Apply(store, c), Err(answer.error))
      else
        var rest := Evaluate(Apply(store, c), context, matches, n - 1, variables, clock, show);
        if rest.texts.Err? then rest
        else Evaluated(rest.store, Ok(rest.texts.value + [show(answer.value)]))
  }

  lemma {:induction false} EvaluateLength(store: Store, context: string, matches: seq<Match>, n: nat,
                                          variables: map<string, real>, clock: seq<real>, show: Option<real> -> string)
    requires n <= |matches| == |clock|
    ensures var e := Evaluate(store, context, matches, n, variables, clock, show);
            e.texts.Ok? ==> |e.texts.value| == n
    decreases n
  {
    if n > 0 && matches[n - 1].variable in variables {
      var c := CallFor(context, matches[n - 1], variables[matches[n - 1].variable], clock[n - 1]);
      EvaluateLength(Apply(store, c), context, matches, n - 1, variables, clock, show);
    }
  }

  // ---------------------------------------------------------------- the text for one match

  /** A formula with one match: its value and clock reading, and what is inserted. */
  function Inserts(store: Store, context: string, m: Match, value: real, now: real, show: Option<real> -> string)
    : Result<seq<string>, CalcError>
  {
    Evaluate(store, context, [m], 1, map[m.variable := value], [now], show).texts
  }

  /** An integral: the stored total, plus the value times the time passed times the requested factor if time passed. */
  lemma IntegralText(store: Store, context: string, m: Match, value: real, now: real, show: Option<real> -> string,
                     last: real, total: real)
    requires m.request.IntegrateRequest?
    requires Lookup(store, StateKey(context, "integrate", m.variable)) == Some(IntegrateBlob(last, total))
    ensures Inserts(store, context, m, value, now, show) ==
            Ok([show(Some(if now > last then total + value * (now - last) * m.request.factor else total))])
  {
    OneText(store, context, m, value, now, show);
    var c := Integrate(context, m.variable, value, m.request.factor, now);
    var sum := if now > last then total + value * (now - last) * m.request.factor else total;
    assert Slice(value, now - last, m.request.factor) == value * (now - last) * m.request.factor;
    assert IntegrateStep(Some(IntegrateBlob(last, total)), value, m.request.factor, now).1 == Ok(Some(sum));
    assert Answer(store, c) == Ok(Some(sum));
  }

  /** A rate: the change since the stored value over the time passed, or no number if none passed. */
  lemma RateText(store: Store, context: string, m: Match, value: real, now: real, show: Option<real> -> string,
                 last: real, before: real)
    requires m.request.RateRequest?
    requires Lookup(store, StateKey(context, "rate", m.variable)) == Some(RateBlob(last, before))
    ensures Inserts(store, context, m, value, now, show) ==
            Ok([show(if now > last then Some((value - before) / (now - last)) else None)])
  {
    OneText(store, context, m, value, now, show);
  }

  /** An average over what earlier calls with the requested size left: the mean of the last values, this one included. */
  lemma {:induction false} AverageText(store: Store, context: string, m: Match, value: real, now: real,
                                       show: Option<real> -> string, calls: seq<Call>)
    requires m.request.MovingAvgRequest? && m.request.size > 0
    requires AllMovingAvg(calls) && forall i | 0 <= i < |calls| :: calls[i].size == m.request.size
    requires Lookup(store, StateKey(context, "moving_avg", m.variable)) == Stepped(None, calls)
    ensures Inserts(store, context, m, value, now, show) ==
            Ok([show(Some(Mean(Last(Streak(calls) + [value], m.request.size))))])
  {
    OneText(store, context, m, value, now, show);
    var all := calls + [MovingAvg(context, m.variable, value, m.request.size)];
    assert all[..|all| - 1] == calls;
    MovingAvgClosedForm(all);
  }

  lemma OneText(store: Store, context: string, m: Match, value: real, now: real, show: Option<real> -> string)
    ensures var answer := Answer(store, CallFor(context, m, value, now));
            Inserts(store, context, m, value, now, show) ==
            if answer.Ok? then Ok([show(answer.value)]) else Err(answer.error)
  {
    var c := CallFor(context, m, value, now);
    var answer := Answer(store, c);
    if answer.Ok? {
      assert Evaluate(Apply(store, c), context, [m], 0, map[m.variable := value], [now], show).texts == Ok([]);
      assert [] + [show(answer.value)] == [show(answer.value)];
    }
  }

  /** `rest` after the matches already evaluated, whose texts are `done`, is the whole evaluation. */
  ghost predicate Completes(whole: Evaluated, rest: Evaluated, done: seq<string>) {
    && whole.store == rest.store
    && whole.texts == if rest.texts.Ok? then Ok(rest.texts.value + done) else rest.texts
  }

  lemma CompletesStart(e: Evaluated)
    ensures Completes(e, e, [])
  {
    if e.texts.Ok? {
      assert e.texts.value + [] == e.texts.value;
    }
  }

  lemma CompletesStep(whole: Evaluated, e: Evaluated, rest: Evaluated, done: seq<string>, t: string)
    requires Completes(whole, e, done)
    requires e == if rest.texts.Err? then rest else Evaluated(rest.store, Ok(rest.texts.value + [t]))
    ensures Completes(whole, rest, [t] + done)
  {
    if rest.texts.Ok? {
      assert rest.texts.value + [t] + done == rest.texts.value + ([t] + done);
    }
  }

  class CalcEngine {
    const builtin: BuiltinFunctions

    constructor (builtin: BuiltinFunctions)
      ensures this.builtin == builtin
    {
      this.builtin := builtin;
    }

    method Call(m: Match, value: real, now: real) returns (r: Outcome)
      modifies builtin.store
      ensures var c := CallFor(builtin.context, m, value, now);
              builtin.store.data == Apply(old(builtin.store.data), c) && r == Answer(old(builtin.store.data), c)
    {
      match m.request
      case IntegrateRequest(factor) =>
        r := builtin.Integrate(m.variable, value, factor, now);
      case MovingAvgRequest(size) =>
        r := builtin.MovingAvg(m.variable, value, size);
      case RateRequest =>
        r := builtin.RateOfChange(m.variable, value, now);
    }

    /** Right-to-left replacement in one text equals simultaneous substitution of all ranges. */
    method Process(formula: string, matches: seq<Match>, variables: map<string, real>, clock: seq<real>,
                   show: Option<real> -> string) returns (r: Result<string, CalcError>)
      requires Ordered(matches, 0, |formula|) && |clock| == |matches|
      modifies builtin.store
      ensures var e := Evaluate(old(builtin.store.data), builtin.context, matches, |matches|, variables, clock, show);
              && builtin.store.data == e.store
              && (r.Ok? <==> e.texts.Ok?)
              && (r.Err? ==> r.error == e.texts.error)
              && (r.Ok? ==> |e.texts.value| == |matches| && r.value == Substitute(formula, 0, matches, e.texts.value))
    {
      ghost var whole := Evaluate(builtin.store.data, builtin.context, matches, |matches|, variables, clock, show);
      EvaluateLength(builtin.store.data, builtin.context, matches, |matches|, variables, clock, show);
      var result := formula;
      ghost var texts: seq<string> := [];
      var n := |matches|;
      assert matches[n..] == [];
      CompletesStart(whole);
      while n > 0
        invariant n <= |matches| && |texts| == |matches| - n
        invariant Ordered(matches[n..], 0, |formula|)
        invariant result == Substitute(formula, 0, matches[n..], texts)
        invariant Completes(whole,
                            Evaluate(builtin.store.data, builtin.context, matches, n, variables, clock, show), texts)
      {
        var m := matches[n - 1];
        ghost var before := Evaluate(builtin.store.data, builtin.context, matches, n, variables, clock, show);
        if m.variable !in variables {
          return Err(VariableNotFound(m.variable));
        }
        var answer := Call(m, variables[m.variable], clock[n - 1]);
        if answer.Err? {
          return Err(answer.error);
        }
        var t := show(answer.value);
        RangesLeft(matches, |formula|, n);
        ReplaceOneMore(formula, m, matches[n..], t, texts);
        assert [m] + matches[n..] == matches[n - 1..];
        result := result[..m.from] + t + result[m.to..];
        ghost var rest := Evaluate(builtin.store.data, builtin.context, matches, n - 1, variables, clock, show);
        CompletesStep(whole, before, rest, texts, t);
        texts := [t] + texts;
        n := n - 1;
      }
      assert matches[0..] == matches && [] + texts == texts;
      return Ok(result);
    }
  }
}
