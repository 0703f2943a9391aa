/**
 The wrap-around of the 32-bit sequence counter of `libs/voltage-core/src/shm.rs`: how many writes may complete during
 one read before a torn payload can be accepted.
 */
module SeqLockWrap {
  import opened SeqLock
  import opened SeqLockRuns

  // ---------------------------------------------------------------- the bound is exact

  /** Every read that returned a triple returned one that was written. */
  predicate Whole(s: State) {
    forall r, i | r in s.log && 0 <= i < |s.log[r]| && s.log[r][i].outcome.Got? ::
      s.log[r][i].outcome.value in s.history
  }

  ghost predicate Reaches(s: State, t: State) {
    exists steps :: IsRun(s, steps) && After(s, steps) == t
  }

  /** Reads are whole in every run where at most `bound` writes complete during one read. */
  ghost predicate SafeBound(bound: nat) {
    forall s, t | Initial(s) && Reaches(s, t) && Within(t, bound) :: Whole(t)
  }

  lemma {:induction false} Concat(s: State, a: seq<Step>, b: seq<Step>)
    requires IsRun(s, a) && IsRun(After(s, a), b)
    ensures IsRun(s, a + b) && After(s, a + b) == After(After(s, a), b)
    decreases |a|
  {
    if a == [] {
      assert a + b == b;
    } else {
      Concat(Apply(s, a[0]), a[1..], b);
      assert (a + b)[0] == a[0] && (a + b)[1..] == a[1..] + b;
    }
  }

  lemma ReachesItself(s: State)
    ensures Reaches(s, s)
  {
    assert IsRun(s, []) && After(s, []) == s;
  }

  lemma ReachesOn(s: State, t: State, u: State)
    requires Reaches(s, t) && Reaches(t, u)
    ensures Reaches(s, u)
  {
    var a :| IsRun(s, a) && After(s, a) == t;
    var b :| IsRun(t, b) && After(t, b) == u;
    Concat(s, a, b);
  }

  lemma ReachesNext(s: State, t: State, e: Step) returns (u: State)
    requires Reaches(s, t) && Enabled(t, e)
    ensures u == Apply(t, e) && Reaches(s, u)
  {
    u := Apply(t, e);
    assert [e][1..] == [] && IsRun(u, [e][1..]);
    assert IsRun(t, [e]) && After(t, [e]) == u;
    ReachesOn(s, t, u);
  }

  lemma StoreAllWords(s: State) returns (t: State)
    requires s.writer.Writing? && s.writer.stored == {} && Enabled(s, StoreWord(ValueLow))
    ensures t == s.(slot := s.slot.(cells := Words(s.writer.target)), writer := s.writer.(stored := CELLS))
    ensures Reaches(s, t)
  {
    ReachesItself(s);
    t := ReachesNext(s, s, StoreWord(ValueLow));
    t := ReachesNext(s, t, StoreWord(ValueHigh));
    t := ReachesNext(s, t, StoreWord(TimestampLow));
    t := ReachesNext(s, t, StoreWord(TimestampHigh));
    t := ReachesNext(s, t, StoreWord(QualityByte));
    assert t.writer.stored == CELLS && t.slot.cells == Words(s.writer.target);
  }

  /** Undisturbed, the protocol's steps of a write have the effect of the source's `write`. */
  lemma UndisturbedWrite(s: State, p: Payload)
    requires Enabled(s, BeginWrite(p))
    ensures Reaches(s, s.(slot := s.slot.Written(p), history := s.history + [p]))
  {
    ReachesItself(s);
    var t := ReachesNext(s, s, BeginWrite(p));
    var u := StoreAllWords(t);
    var v := ReachesNext(t, u, StoreFlags);
    v := ReachesNext(t, v, EndWrite);
    ReachesOn(s, t, v);
    assert v == s.(slot := s.slot.Written(p), history := s.history + [p]);
  }

  lemma {:induction false} WriteMany(s: State, p: Payload, n: nat) returns (t: State)
    requires Enabled(s, BeginWrite(p))
    ensures Reaches(s, t)
    ensures t.writer == Idle && t.readers == s.readers && t.log == s.log
    ensures t.history == s.history + seq(n, _ => p)
    ensures t.slot.sequence == (s.slot.sequence + 2 * n) % WORD
    ensures t.slot.cells == if n == 0 then s.slot.cells else Words(p)
  {
    if n == 0 {
      ReachesItself(s);
      t := s;
    } else {
      var u := WriteMany(s, p, n - 1);
      t := WriteAgain(s, u, p);
      TwoBumps(s.slot.sequence, n);
      OneMorePayload(s.history, p, n);
    }
  }

  lemma WriteAgain(start: State, s: State, p: Payload) returns (t: State)
    requires Reaches(start, s) && Enabled(s, BeginWrite(p))
    ensures Reaches(start, t)
    ensures t.writer == s.writer && t.readers == s.readers && t.log == s.log && t.history == s.history + [p]
    ensures t.slot.sequence == ((s.slot.sequence + 1) % WORD + 1) % WORD && t.slot.cells == Words(p)
  {
    UndisturbedWrite(s, p);
    t := s.(slot := s.slot.Written(p), history := s.history + [p]);
    ReachesOn(start, s, t);
  }

  lemma OneMorePayload(history: seq<Payload>, p: Payload, n: nat)
    requires n > 0
    ensures history + seq(n - 1, _ => p) + [p] == history + seq(n, _ => p)
  {
  }

  lemma TwoBumps(x: nat, n: nat)
    requires n > 0
    ensures (((x + 2 * (n - 1)) % WORD + 1) % WORD + 1) % WORD == (x + 2 * n) % WORD
  {
  }

  lemma LoadOne(start: State, s: State, r: nat, c: Cell) returns (t: State)
    requires Reaches(start, s) && Enabled(s, LoadWord(r, c))
    ensures Reaches(start, t)
    ensures t == s.(readers := s.readers[r := s.readers[r].(got := s.readers[r].got[c := s.slot.cells[c]])])
  {
    t := ReachesNext(start, s, LoadWord(r, c));
  }

  lemma LoadTwo(start: State, s: State, r: nat, c: Cell, d: Cell) returns (t: State)
    requires Reaches(start, s) && Enabled(s, LoadWord(r, c)) && Enabled(s, LoadWord(r, d)) && c != d
    ensures Reaches(start, t)
    ensures t == s.(readers := s.readers[r :=
                      s.readers[r].(got := s.readers[r].got[c := s.slot.cells[c]][d := s.slot.cells[d]])])
  {
    t := LoadOne(start, s, r, c);
    t := LoadOne(start, t, r, d);
  }

  lemma LoadRest(s: State, r: nat) returns (t: State)
    requires Enabled(s, LoadWord(r, ValueHigh)) && s.readers[r].got.Keys == {ValueLow}
    ensures Reaches(s, t)
    ensures t == s.(readers := s.readers[r :=
                      s.readers[r].(got := s.slot.cells[ValueLow := s.readers[r].got[ValueLow]])])
  {
    ReachesItself(s);
    t := LoadTwo(s, s, r, ValueHigh, TimestampLow);
    t := LoadTwo(s, t, r, TimestampHigh, QualityByte);
    assert t.readers[r].got == s.slot.cells[ValueLow := s.readers[r].got[ValueLow]];
    assert t.readers == s.readers[r := t.readers[r]];
  }

  lemma LoadFirst() returns (s: State, t: State)
    ensures Initial(s) && Reaches(s, t)
    ensures t == State(ZEROED, Idle, map[0 := Reading(0, 0, map[ValueLow := 0])], [Payload(0, 0, 0)], map[0 := []])
  {
    s := State(ZEROED, Idle, map[0 := Resting], [Payload(0, 0, 0)], map[0 := []]);
    ReachesItself(s);
    t := ReachesNext(s, s, BeginRead(0));
    t := ReachesNext(s, t, LoadWord(0, ValueLow));
  }

  /** A reader takes the low word, 2^31 writes of `p` complete, and the reader takes the other words. */
  lemma StraddlingRead(p: Payload) returns (s: State, t: State)
    ensures Initial(s) && Reaches(s, t)
    ensures t.writer == Idle && t.slot.sequence == 0 && t.slot.cells == Words(p)
    ensures t.history == [Payload(0, 0, 0)] + seq(WRAP, _ => p)
    ensures t.readers == map[0 := Reading(0, 0, Words(p)[ValueLow := 0])] && t.log == map[0 := []]
  {
    var u;
    s, u := LoadFirst();
    var v := WriteMany(u, p, WRAP);
    t := LoadRest(v, 0);
    ReachesOn(s, u, v);
    ReachesOn(s, v, t);
  }

  /** The straddling read is accepted, and what it returns was never written. */
  lemma FinishTorn(u: State)
    requires u.writer == Idle && u.slot.sequence == 0 && u.slot.cells.Keys == CELLS
    requires u.history == [Payload(0, 0, 0)] + seq(WRAP, _ => Payload(WORD + 1, 0, 0))
    requires u.readers == map[0 := Reading(0, 0, Words(Payload(WORD + 1, 0, 0))[ValueLow := 0])]
    requires u.log == map[0 := []]
    ensures Enabled(u, FinishRead(0)) && Within(Apply(u, FinishRead(0)), WRAP) && !Whole(Apply(u, FinishRead(0)))
  {
    var words := u.readers[0].got;
    assert words.Keys == CELLS;
    assert Assemble(words) == Payload(WORD, 0, 0);
    var t, a := Apply(u, FinishRead(0)), Attempt(0, WRAP, false, Got(Payload(WORD, 0, 0)));
    assert u.Completed() == WRAP;
    assert t.log[0] == [a];
    assert t.log[0][0] == a;
    assert forall i | 0 <= i < |t.history| :: t.history[i] != Payload(WORD, 0, 0);
  }

  /** With as many writes as the counter has even values, a torn read is accepted. */
  lemma TornReadAtWrap() returns (s: State, t: State)
    ensures Initial(s) && Reaches(s, t) && Within(t, WRAP) && !Whole(t)
  {
    var u;
    s, u := StraddlingRead(Payload(WORD + 1, 0, 0));
    FinishTorn(u);
    t := ReachesNext(s, u, FinishRead(0));
  }

  /** Reads are whole whenever at most `bound` writes complete during one read, exactly for bounds below 2^31. */
  lemma SafeBoundIsExact(bound: nat)
    ensures SafeBound(bound) <==> bound < WRAP
  {
    if bound < WRAP {
      forall s, t, r, i | Initial(s) && Reaches(s, t) && Within(t, bound)
        && r in t.log && 0 <= i < |t.log[r]| && t.log[r][i].outcome.Got?
        ensures t.log[r][i].outcome.value in t.history
      {
        var steps :| IsRun(s, steps) && After(s, steps) == t;
        TornReadFreedom(s, steps, r, i);
      }
    } else {
      var s, t := TornReadAtWrap();
      assert Within(t, bound);
    }
  }
}
