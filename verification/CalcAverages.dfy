/**
 What the moving average of `libs/voltage-calc/src/builtin_functions.rs` answers, call by call: laws over runs of calls
 with one window size, in terms of the values passed, and the restart when the size changes.
 */
module CalcAverages {
  import opened Basics
  import opened CalcState
  import opened CalcFunctions

  /** The answer of the last call, on the state that the earlier ones left. */
  function LastAnswer(calls: seq<Call>): Outcome
    requires calls != []
  {
    Step(Stepped(None, calls[..|calls| - 1]), calls[|calls| - 1]).1
  }

  /** Moving-average calls that all pass this window size. */
  predicate Uniform(calls: seq<Call>, size: nat) {
    calls != [] && size > 0 && forall i | 0 <= i < |calls| :: calls[i].MovingAvg? && calls[i].size == size
  }

  /** How many values are averaged. */
  function Reach(calls: seq<Call>, size: nat): nat {
    if size < |calls| then size else |calls|
  }

  // ---------------------------------------------------------------- the mean

  predicate InRange(s: seq<real>, lo: real, hi: real) {
    forall i | 0 <= i < |s| :: lo <= s[i] <= hi
  }

  lemma {:induction false} SumBounds(s: seq<real>, lo: real, hi: real)
    requires InRange(s, lo, hi)
    ensures (|s| as real) * lo <= Sum(s) <= (|s| as real) * hi
  {
    if s != [] {
      var before, x := s[..|s| - 1], s[|s| - 1];
      SumBounds(before, lo, hi);
      assert |s| as real == |before| as real + 1.0;
      assert (|s| as real) * lo == (|before| as real) * lo + lo;
      assert (|s| as real) * hi == (|before| as real) * hi + hi;
    }
  }

  lemma {:induction false} MeanBounds(s: seq<real>, lo: real, hi: real)
    requires s != [] && InRange(s, lo, hi)
    ensures lo <= Mean(s) <= hi
  {
    SumBounds(s, lo, hi);
    Quotient(Sum(s), |s| as real, lo, hi);
  }

  lemma {:induction false} Quotient(sum: real, n: real, lo: real, hi: real)
    requires n > 0.0 && n * lo <= sum <= n * hi
    ensures lo <= sum / n <= hi
  {
    assert sum / n - lo == (sum - n * lo) / n;
    assert hi - sum / n == (n * hi - sum) / n;
  }

  lemma {:induction false} SumRaised(s: seq<real>, j: nat, d: real)
    requires j < |s|
    ensures Sum(s[j := s[j] + d]) == Sum(s) + d
  {
    var t := s[j := s[j] + d];
    if j < |s| - 1 {
      SumRaised(s[..|s| - 1], j, d);
      assert t[..|t| - 1] == s[..|s| - 1][j := s[j] + d];
    } else {
      assert t[..|t| - 1] == s[..|s| - 1];
    }
  }

  lemma {:induction false} MeanRaised(s: seq<real>, j: nat, d: real)
    requires j < |s|
    ensures Mean(s[j := s[j] + d]) == Mean(s) + d / (|s| as real)
  {
    SumRaised(s, j, d);
  }

  // ---------------------------------------------------------------- runs with one window size

  function Values(calls: seq<Call>): (vs: seq<real>)
    ensures |vs| == |calls| && forall i | 0 <= i < |calls| :: vs[i] == calls[i].value
  {
    seq(|calls|, i requires 0 <= i < |calls| => calls[i].value)
  }

  lemma {:induction false} UniformStreak(calls: seq<Call>, size: nat)
    requires Uniform(calls, size)
    ensures AllMovingAvg(calls) && WindowSize(calls) == size && Streak(calls) == Values(calls)
    decreases |calls|
  {
    var before := calls[..|calls| - 1];
    if before != [] {
      UniformStreak(before, size);
    }
    assert Values(calls) == Values(before) + [calls[|calls| - 1].value];
  }

  /** The values in reach. */
  function Reached(calls: seq<Call>, size: nat): (window: seq<real>)
    requires Uniform(calls, size)
    ensures |window| == Reach(calls, size) > 0
    ensures forall i | 0 <= i < |window| :: window[i] == calls[|calls| - |window| + i].value
  {
    Last(Values(calls), size)
  }

  lemma {:induction false} StreakAnswer(calls: seq<Call>)
    requires AllMovingAvg(calls) && calls != [] && calls[|calls| - 1].size > 0
    ensures Streak(calls) != []
    ensures LastAnswer(calls) == Ok(Some(Mean(Last(Streak(calls), calls[|calls| - 1].size))))
  {
    MovingAvgClosedForm(calls);
  }

  lemma {:induction false} UniformAnswer(calls: seq<Call>, size: nat)
    requires Uniform(calls, size)
    ensures LastAnswer(calls) == Ok(Some(Mean(Reached(calls, size))))
  {
    UniformStreak(calls, size);
    StreakAnswer(calls);
  }

  /** An answer lies between any bounds of the values in reach; equal values are answered with that value. */
  lemma {:induction false} AverageBounds(calls: seq<Call>, size: nat, lo: real, hi: real)
    requires Uniform(calls, size)
    requires forall i | |calls| - Reach(calls, size) <= i < |calls| :: lo <= calls[i].value <= hi
    ensures LastAnswer(calls).Ok? && LastAnswer(calls).value.Some? && lo <= LastAnswer(calls).value.value <= hi
    ensures lo == hi ==> LastAnswer(calls) == Ok(Some(lo))
  {
    UniformAnswer(calls, size);
    MeanBounds(Reached(calls, size), lo, hi);
  }

  function Raised(calls: seq<Call>, j: nat, d: real): seq<Call>
    requires j < |calls| && calls[j].MovingAvg?
  {
    var c := calls[j];
    calls[j := MovingAvg(c.context, c.variable, c.value + d, c.size)]
  }

  /** Raising one value raises the answer by its share if the value is in reach, and changes nothing if it is not. */
  lemma {:induction false} AverageShare(calls: seq<Call>, size: nat, j: nat, d: real)
    requires Uniform(calls, size) && j < |calls|
    ensures var m, a, b := Reach(calls, size), LastAnswer(calls), LastAnswer(Raised(calls, j, d));
            && a.Ok? && a.value.Some? && b.Ok? && b.value.Some?
            && b.value.value == a.value.value + if j < |calls| - m then 0.0 else d / (m as real)
  {
    var raised := Raised(calls, j, d);
    UniformAnswer(calls, size);
    UniformAnswer(raised, size);
    WindowRaised(calls, size, j, d);
  }

  lemma {:induction false} WindowRaised(calls: seq<Call>, size: nat, j: nat, d: real)
    requires Uniform(calls, size) && j < |calls|
    ensures Uniform(Raised(calls, j, d), size)
    ensures var m := Reach(calls, size);
            Mean(Reached(Raised(calls, j, d), size)) ==
            Mean(Reached(calls, size)) + if j < |calls| - m then 0.0 else d / (m as real)
  {
    var window, moved, k := Reached(calls, size), Reached(Raised(calls, j, d), size), j - (|calls| - Reach(calls, size));
    if k < 0 {
      assert moved == window;
    } else {
      assert moved == window[k := window[k] + d];
      MeanRaised(window, k, d);
    }
  }

  // ---------------------------------------------------------------- other sizes before

  lemma {:induction false} StreakRestarts(earlier: seq<Call>, calls: seq<Call>, size: nat)
    requires AllMovingAvg(earlier) && WindowSize(earlier) != size && Uniform(calls, size)
    ensures AllMovingAvg(earlier + calls) && WindowSize(earlier + calls) == size
    ensures Streak(earlier + calls) == Values(calls)
    decreases |calls|
  {
    var all, before := earlier + calls, calls[..|calls| - 1];
    assert all[..|all| - 1] == earlier + before;
    assert Values(calls) == Values(before) + [calls[|calls| - 1].value];
    if before == [] {
      assert earlier + before == earlier;
    } else {
      StreakRestarts(earlier, before, size);
    }
  }

  /** A change of the window size starts over: what was passed before it no longer counts. */
  lemma {:induction false} SizeChangeStartsOver(earlier: seq<Call>, calls: seq<Call>, size: nat)
    requires AllMovingAvg(earlier) && Uniform(calls, size)
    requires earlier != [] ==> earlier[|earlier| - 1].size !in {0, size}
    ensures LastAnswer(earlier + calls) == LastAnswer(calls)
  {
    StreakRestarts(earlier, calls, size);
    UniformStreak(calls, size);
    var all := earlier + calls;
    assert all[|all| - 1] == calls[|calls| - 1];
    StreakAnswer(calls);
    StreakAnswer(all);
  }
}
