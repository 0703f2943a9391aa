/**
 The moving-average window and the key/value store of `libs/voltage-calc/src/state.rs`.
 Doubles are reals; a stored JSON document is the value it holds.
 */
module CalcState {
  import opened Basics

  /** A circular buffer as it may come out of the store: nothing relates its three parts. */
  datatype Window = Window(values: seq<real>, position: nat, count: nat)

  function Sum(s: seq<real>): real {
    if s == [] then 0.0 else Sum(s[..|s| - 1]) + s[|s| - 1]
  }

  function Mean(s: seq<real>): real
    requires s != []
  {
    Sum(s) / (|s| as real)
  }

  function Average(w: Window): real {
    if w.count == 0 || w.values == [] then 0.0
    else Mean(w.values[..if w.count < |w.values| then w.count else |w.values|])
  }

  function Fresh(size: nat): Window {
    var n := if size < 1 then 1 else size;
    Window(seq(n, _ => 0.0), 0, 0)
  }

  function Repaired(w: Window): Window {
    if w.values == [] then Window([0.0], 0, 0) else w.(position := w.position % |w.values|)
  }

  function Added(w: Window, value: real): Window {
    var r := Repaired(w);
    Window(r.values[r.position := value],
           (r.position + 1) % |r.values|,
           if r.count < |r.values| then r.count + 1 else r.count)
  }

  /** The mutable state of the source. */
  class MovingAvgState {
    var values: seq<real>
    var position: nat
    var count: nat

    ghost function Contents(): Window
      reads this
    {
      Window(values, position, count)
    }

    constructor New(size: nat)
      ensures Contents() == Fresh(size)
    {
      values, position, count := seq(if size < 1 then 1 else size, _ => 0.0), 0, 0;
    }

    constructor Load(w: Window)
      ensures Contents() == w
    {
      values, position, count := w.values, w.position, w.count;
    }

    method Add(value: real) returns (average: real)
      modifies this
      ensures Contents() == Added(old(Contents()), value)
      ensures average == Average(Contents())
    {
      if values == [] {
        values, position, count := [0.0], 0, 0;
      }
      position := position % |values|;
      values := values[position := value];
      position := (position + 1) % |values|;
      if count < |values| {
        count := count + 1;
      }
      average := Average(Window(values, position, count));
    }
  }

  // ---------------------------------------------------------------- sums

  lemma {:induction false} SumAppend(a: seq<real>, b: seq<real>)
    ensures Sum(a + b) == Sum(a) + Sum(b)
    decreases |b|
  {
    if b == [] {
      assert a + b == a;
    } else {
      SumAppend(a, b[..|b| - 1]);
      assert (a + b)[..|a + b| - 1] == a + b[..|b| - 1];
    }
  }

  function Last(s: seq<real>, n: nat): seq<real> {
    if n < |s| then s[|s| - n..] else s
  }

  // ---------------------------------------------------------------- the buffer is a sliding window

  /** The buffer read from the oldest cell to the newest. */
  function Unrolled(w: Window): seq<real>
    requires w.position <= |w.values|
  {
    w.values[w.position..] + w.values[..w.position]
  }

  lemma ModStep(p: nat, n: nat)
    requires p < n
    ensures p % n == p
    ensures (p + 1) % n == if p + 1 == n then 0 else p + 1
  {
  }

  /** Adding drops the oldest value and appends the new one. */
  lemma AddedSlides(w: Window, value: real)
    requires w.position < |w.values|
    ensures Added(w, value).position < |w.values| == |Added(w, value).values|
    ensures Unrolled(Added(w, value)) == Unrolled(w)[1..] + [value]
  {
    ModStep(w.position, |w.values|);
  }

  lemma SumUnrolled(w: Window)
    requires w.position <= |w.values|
    ensures Sum(Unrolled(w)) == Sum(w.values)
  {
    SumAppend(w.values[w.position..], w.values[..w.position]);
    SumAppend(w.values[..w.position], w.values[w.position..]);
    assert w.values == w.values[..w.position] + w.values[w.position..];
  }

  function AddedAll(w: Window, values: seq<real>): Window {
    if values == [] then w else Added(AddedAll(w, values[..|values| - 1]), values[|values| - 1])
  }

  /**
   Whatever the stored position and count were, the buffer always ends with the values added since,
   so a corrupted window heals after one full round.
   */
  lemma {:induction false} AddedAllSlides(w: Window, values: seq<real>)
    requires w.position < |w.values|
    ensures var after := AddedAll(w, values);
            && after.position < |after.values| == |w.values|
            && Unrolled(after) == Last(Unrolled(w) + values, |w.values|)
            && after.count >= w.count
            && (after.count >= |w.values| || after.count == w.count + |values|)
            && (w.count <= |w.values| ==> after.count <= |w.values|)
  {
    if values != [] {
      var before, v := values[..|values| - 1], values[|values| - 1];
      AddedAllSlides(w, before);
      AddedSlides(AddedAll(w, before), v);
      assert Unrolled(w) + values == (Unrolled(w) + before) + [v];
      ModStep(AddedAll(w, before).position, |w.values|);
    } 
  }

  lemma RepairedAdds(w: Window, value: real)
    requires w.values != []
    ensures Repaired(w).position < |w.values| && Added(w, value) == Added(Repaired(w), value)
  {
    ModStep(w.position % |w.values|, |w.values|);
  }

  lemma {:induction false} RepairedAddsAll(w: Window, values: seq<real>)
    requires w.values != [] && values != []
    ensures Repaired(w).position < |w.values| && AddedAll(w, values) == AddedAll(Repaired(w), values)
  {
    if |values| > 1 {
      RepairedAddsAll(w, values[..|values| - 1]);
    } else {
      assert values[..0] == [];
      RepairedAdds(w, values[0]);
    }
  }

  lemma HealedContents(w: Window, values: seq<real>)
    requires w.values != [] && |values| >= |w.values|
    ensures var after := AddedAll(w, values);
            && |after.values| == |w.values| <= after.count && after.position < |after.values|
            && Unrolled(after) == Last(values, |w.values|)
  {
    var n := |w.values|;
    RepairedAddsAll(w, values);
    AddedAllSlides(Repaired(w), values);
    assert Last(Unrolled(Repaired(w)) + values, n) == Last(values, n);
  }

  /** After a full round of additions any stored window, however corrupted, averages exactly those values. */
  lemma WindowHeals(w: Window, values: seq<real>)
    requires w.values != [] && |values| >= |w.values|
    ensures Average(AddedAll(w, values)) == Mean(Last(values, |w.values|))
  {
    HealedContents(w, values);
    FullAverage(AddedAll(w, values));
  }

  lemma FullAverage(w: Window)
    requires w.position < |w.values| <= w.count
    ensures Average(w) == Mean(Unrolled(w))
  {
    SumUnrolled(w);
    assert w.values[..|w.values|] == w.values;
    SameMean(w.values, Unrolled(w));
  }

  lemma SameMean(a: seq<real>, b: seq<real>)
    requires a != [] && |a| == |b| && Sum(a) == Sum(b)
    ensures Mean(a) == Mean(b)
  {
  }

  /** A fresh window always averages the last `min(window, k)` of the `k` values added to it. */
  lemma FreshWindowAverages(size: nat, values: seq<real>)
    requires size >= 1 && values != []
    ensures Average(AddedAll(Fresh(size), values)) == Mean(Last(values, size))
  {
    if |values| >= size {
      WindowHeals(Fresh(size), values);
    } else {
      AddedAllSlides(Fresh(size), values);
      FilledInOrder(size, values);
    }
  }

  lemma {:induction false} FilledInOrder(size: nat, values: seq<real>)
    requires |values| < size
    ensures var after := AddedAll(Fresh(size), values);
            && |after.values| == size && after.position == after.count == |values|
            && after.values[..|values|] == values
  {
    if values != [] {
      var before := values[..|values| - 1];
      FilledInOrder(size, before);
      ModStep(|before|, size);
    }
  }

  // ---------------------------------------------------------------- keys

  function StateKey(context: string, func: string, variable: string): string {
    "calc:state:" + context + ":" + func + ":" + variable
  }

  /** What follows the context in a key. */
  function Tail(func: string, variable: string): string {
    ":" + func + ":" + variable
  }

  predicate IsSuffix(a: string, b: string) {
    |a| <= |b| && b[|b| - |a|..] == a
  }

  /** Two (function, variable) pairs can share a key in some contexts exactly when one tail ends the other. */
  lemma KeysCanCollide(f: string, v: string, g: string, w: string)
    ensures (exists c, d :: StateKey(c, f, v) == StateKey(d, g, w))
            <==> IsSuffix(Tail(f, v), Tail(g, w)) || IsSuffix(Tail(g, w), Tail(f, v))
  {
    var s, t := Tail(f, v), Tail(g, w);
    if c, d :| StateKey(c, f, v) == StateKey(d, g, w) {
      KeyParts(c, f, v);
      KeyParts(d, g, w);
      EndsCompare("calc:state:" + c, s, "calc:state:" + d, t);
    }
    if IsSuffix(s, t) {
      var c := t[..|t| - |s|];
      KeyParts(c, f, v);
      KeyParts("", g, w);
      assert t == c + s;
      assert StateKey(c, f, v) == StateKey("", g, w);
    }
    if IsSuffix(t, s) {
      var d := s[..|s| - |t|];
      KeyParts("", f, v);
      KeyParts(d, g, w);
      assert s == d + t;
      assert StateKey("", f, v) == StateKey(d, g, w);
    }
  }

  lemma KeyParts(c: string, f: string, v: string)
    ensures StateKey(c, f, v) == "calc:state:" + (c + Tail(f, v)) == ("calc:state:" + c) + Tail(f, v)
  {
  }

  lemma EndsCompare(a: string, s: string, b: string, t: string)
    requires a + s == b + t
    ensures IsSuffix(s, t) || IsSuffix(t, s)
  {
    var whole := a + s;
    assert whole[|a|..] == s && whole[|b|..] == t;
    if |a| >= |b| {
      assert t[|a| - |b|..] == s;
    } else {
      assert s[|b| - |a|..] == t;
    }
  }

  /** With colon-free function and variable names, equal keys mean equal parts, whatever the contexts. */
  lemma StateKeyInjective(c: string, f: string, v: string, d: string, g: string, w: string)
    requires ':' !in f && ':' !in v && ':' !in g && ':' !in w
    requires StateKey(c, f, v) == StateKey(d, g, w)
    ensures c == d && f == g && v == w
  {
    var key := StateKey(c, f, v);
    assert key == ("calc:state:" + c + ":" + f) + ":" + v;
    assert key == ("calc:state:" + d + ":" + g) + ":" + w;
    LastColon("calc:state:" + c + ":" + f, v, "calc:state:" + d + ":" + g, w);
    assert "calc:state:" + c + ":" + f == ("calc:state:" + c) + ":" + f;
    assert "calc:state:" + d + ":" + g == ("calc:state:" + d) + ":" + g;
    LastColon("calc:state:" + c, f, "calc:state:" + d, g);
    assert ("calc:state:" + c)[11..] == c && ("calc:state:" + d)[11..] == d;
  }

  lemma ColonAfter(a: string, v: string, i: nat)
    ensures |a| < i < |a + ":" + v| && (a + ":" + v)[i] == ':' ==> ':' in v
  {
    if |a| < i < |a + ":" + v| {
      assert (a + ":" + v)[i] == v[i - |a| - 1];
    }
  }

  lemma LastColon(a: string, v: string, b: string, w: string)
    requires ':' !in v && ':' !in w
    requires a + ":" + v == b + ":" + w
    ensures a == b && v == w
  {
    var whole := a + ":" + v;
    assert whole[|a|] == ':' && whole[|b|] == ':';
    assert whole[|a| + 1..] == v && whole[|b| + 1..] == w;
    ColonAfter(a, v, |b|);
    ColonAfter(b, w, |a|);
    assert whole[..|a|] == a && whole[..|b|] == b;
  }
}
