/**
 What holds in every run of the sequence lock of `libs/voltage-core/src/shm.rs`: reads are whole, never go back, and the
 slot is an atomic register.
 */
module SeqLockRuns {
  import opened SeqLock

  // ---------------------------------------------------------------- main results

  /** Every successful read within the wrap bound is one completed write, current at both of its loads. */
  lemma TornReadFreedom(s: State, steps: seq<Step>, r: nat, i: nat)
    requires Initial(s) && IsRun(s, steps)
    requires r in After(s, steps).log && i < |After(s, steps).log[r]|
    ensures var t := After(s, steps); var a := t.log[r][i];
            a.finish - a.start < WRAP ==>
              && (a.outcome.Got? <==> !a.busy && a.start == a.finish)
              && (a.outcome.Got? ==> a.finish < |t.history| && a.outcome.value == t.history[a.finish])
  {
    InitialInv(s);
    RunKeepsInv(s, steps);
    var t := After(s, steps);
    assert Explained(t, r);
    assert AttemptInv(t, t.log[r][i]);
  }

  /** A later successful read of one reader never returns an older write, nor one older than at its start. */
  lemma ReadsNeverGoBack(s: State, steps: seq<Step>, r: nat, i: nat, j: nat)
    requires Initial(s) && IsRun(s, steps)
    requires r in After(s, steps).log && i < j < |After(s, steps).log[r]|
    requires var log := After(s, steps).log[r];
             log[i].outcome.Got? && log[j].outcome.Got?
             && log[i].finish - log[i].start < WRAP && log[j].finish - log[j].start < WRAP
    ensures var t := After(s, steps); var older, newer := t.log[r][i], t.log[r][j];
            && older.finish <= newer.start <= newer.finish < |t.history|
            && older.outcome.value == t.history[older.finish]
            && newer.outcome.value == t.history[newer.finish]
  {
    TornReadFreedom(s, steps, r, i);
    TornReadFreedom(s, steps, r, j);
    InitialInv(s);
    RunKeepsInv(s, steps);
    var t := After(s, steps);
    assert Explained(t, r);
    assert AttemptInv(t, t.log[r][j]);
  }

  /** `begin_write` starts from an even number, so its `seq + 1` never overflows a u32. */
  lemma BeginWriteNeverOverflows(s: State, steps: seq<Step>)
    requires Initial(s) && IsRun(s, steps)
    ensures var t := After(s, steps); t.writer.Idle? ==> t.slot.sequence % 2 == 0 && t.slot.sequence + 1 < WORD
    ensures var t := After(s, steps); t.Completed() > 0 ==> t.slot.flags & VALID != 0
  {
    InitialInv(s);
    RunKeepsInv(s, steps);
  }

  // ---------------------------------------------------------------- linearizability

  /** Operations of an atomic register, in the order they take effect. */
  datatype Op = WriteOp(p: Payload) | ReadOp(r: nat, p: Payload)

  /** The specification: every read returns the value of the last write before it. */
  predicate AtomicRegister(current: Payload, ops: seq<Op>)
    decreases |ops|
  {
    ops == [] ||
    match ops[0]
    case WriteOp(p) => AtomicRegister(p, ops[1..])
    case ReadOp(_, p) => p == current && AtomicRegister(current, ops[1..])
  }

  /** A write takes effect at its last step, a successful read at its second sequence load. */
  function Effect(s: State, e: Step): seq<Op>
    requires Enabled(s, e)
  {
    match e
    case EndWrite => [WriteOp(s.writer.target)]
    case FinishRead(r) =>
      if s.slot.sequence == s.readers[r].first then [ReadOp(r, Assemble(s.readers[r].got))] else []
    case _ => []
  }

  function Trace(s: State, steps: seq<Step>): seq<Op>
    requires IsRun(s, steps)
    decreases |steps|
  {
    if steps == [] then [] else Effect(s, steps[0]) + Trace(Apply(s, steps[0]), steps[1..])
  }

  /** At most `bound` writes completed between the two sequence loads of every finished read. */
  predicate Within(s: State, bound: nat) {
    forall r, i | r in s.log && 0 <= i < |s.log[r]| :: s.log[r][i].finish - s.log[r][i].start <= bound
  }

  lemma {:induction false} LogsGrow(s: State, steps: seq<Step>, r: nat)
    requires IsRun(s, steps) && r in s.log
    ensures r in After(s, steps).log && s.log[r] <= After(s, steps).log[r]
    decreases |steps|
  {
    if steps != [] {
      LogsGrow(Apply(s, steps[0]), steps[1..], r);
    }
  }

  lemma FinishWithin(s: State, steps: seq<Step>, bound: nat)
    requires IsRun(s, steps) && steps != [] && steps[0].FinishRead? && Within(After(s, steps), bound)
    ensures s.Completed() - s.readers[steps[0].r].start <= bound
  {
    var r, t := steps[0].r, Apply(s, steps[0]);
    LogsGrow(t, steps[1..], r);
    assert After(s, steps).log[r][|s.log[r]|] == t.log[r][|s.log[r]|];
  }

  lemma StepRefines(s: State, e: Step)
    requires Inv(s) && Enabled(s, e)
    requires e.FinishRead? ==> s.Completed() - s.readers[e.r].start < WRAP
    ensures var now, next := s.history[s.Completed()], Apply(s, e).history[Apply(s, e).Completed()];
            || (Effect(s, e) == [] && next == now)
            || Effect(s, e) == [WriteOp(next)]
            || (e.FinishRead? && Effect(s, e) == [ReadOp(e.r, now)] && next == now)
  {
    if e.FinishRead? {
      FinishDecides(s, e.r);
    }
  }

  lemma {:induction false} RefinesAtomicRegister(s: State, steps: seq<Step>)
    requires Inv(s) && IsRun(s, steps) && Within(After(s, steps), WRAP - 1)
    ensures AtomicRegister(s.history[s.Completed()], Trace(s, steps))
    decreases |steps|
  {
    if steps != [] {
      var e := steps[0];
      StepKeepsInv(s, e);
      RefinesAtomicRegister(Apply(s, e), steps[1..]);
      if e.FinishRead? {
        FinishWithin(s, steps, WRAP - 1);
      }
      StepRefines(s, e);
      Prepend(s.history[s.Completed()], Effect(s, e), Trace(Apply(s, e), steps[1..]));
    }
  }

  lemma Prepend(current: Payload, effect: seq<Op>, rest: seq<Op>)
    requires |effect| <= 1
    ensures effect == [] ==> effect + rest == rest
    ensures effect != [] ==> (effect + rest)[0] == effect[0] && (effect + rest)[1..] == rest
  {
  }

  lemma Linearizable(s: State, steps: seq<Step>)
    requires Initial(s) && IsRun(s, steps) && Within(After(s, steps), WRAP - 1)
    ensures AtomicRegister(Payload(0, 0, 0), Trace(s, steps))
  {
    InitialInv(s);
    RefinesAtomicRegister(s, steps);
  }
}
