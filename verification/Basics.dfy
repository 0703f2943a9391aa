/** Failure-style results and repetition-free sequences shared by the other modules. */
module Basics {
  datatype Option<+T> = None | Some(value: T)

  datatype Result<+T, +E> = Ok(value: T) | Err(error: E)

  predicate NoRepeats<T(==)>(xs: seq<T>) {
    forall i, j | 0 <= i < j < |xs| :: xs[i] != xs[j]
  }

  function Elements<T>(xs: seq<T>): set<T> {
    set x | x in xs
  }

  lemma ElementsAppend<T>(xs: seq<T>, x: T)
    ensures Elements(xs + [x]) == Elements(xs) + {x}
  {
  }

  lemma ElementsEmpty<T>(xs: seq<T>)
    ensures Elements(xs) == {} ==> xs == []
  {
    if xs != [] {
      assert xs[0] in Elements(xs);
    }
  }

  lemma Associative<T>(x: seq<T>, y: seq<T>, z: seq<T>)
    ensures (x + y) + z == x + (y + z)
  {
  }

  /** The first occurrences, in order. */
  function Distinct<T(==)>(xs: seq<T>): seq<T> {
    if xs == [] then []
    else
      var before, x := Distinct(xs[..|xs| - 1]), xs[|xs| - 1];
      if x in before then before else before + [x]
  }

  lemma {:induction false} DistinctKeepsMembers<T>(xs: seq<T>)
    ensures forall x :: x in Distinct(xs) <==> x in xs
    ensures NoRepeats(Distinct(xs))
    ensures xs != [] ==> Distinct(xs) != [] && Distinct(xs)[0] == xs[0]
  {
    if xs != [] {
      var before := xs[..|xs| - 1];
      DistinctKeepsMembers(before);
      assert xs == before + [xs[|xs| - 1]];
    }
  }

  lemma {:induction false} DistinctUnchanged<T>(xs: seq<T>)
    requires NoRepeats(xs)
    ensures Distinct(xs) == xs
  {
    if xs != [] {
      DistinctUnchanged(xs[..|xs| - 1]);
      assert xs == xs[..|xs| - 1] + [xs[|xs| - 1]];
    }
  }

  /** Counting the set of elements finds repetitions. */
  lemma {:induction false} NoRepeatsBySize<T>(xs: seq<T>)
    ensures |Elements(xs)| <= |xs|
    ensures |Elements(xs)| == |xs| <==> NoRepeats(xs)
  {
    if xs != [] {
      var before, x := xs[..|xs| - 1], xs[|xs| - 1];
      NoRepeatsBySize(before);
      assert xs == before + [x];
      assert Elements(xs) == Elements(before) + {x};
      assert x in before <==> x in Elements(before);
      assert NoRepeats(xs) <==> NoRepeats(before) && x !in before;
    } else {
      assert Elements(xs) == {};
    }
  }
}
