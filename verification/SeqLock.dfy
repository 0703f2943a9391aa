/**
 The seqlock point slot of `libs/voltage-core/src/shm.rs`.

 The protocol is a state machine over single loads and stores: one writer, any number of readers,
 every interleaving. The 64-bit fields are split into 32-bit words, and the plain accesses between
 two sequence accesses may happen in any order, which covers the source's order, the targets without
 64-bit accesses, and any reordering the fences permit. Sequence accesses are interleaved atomically.
 */
module SeqLock {
  const WORD: nat := 0x1_0000_0000

  /** Completed writes after which the 32-bit sequence counter repeats. */
  const WRAP: nat := 0x8000_0000

  const VALID: bv8 := 0x01
  const DIRTY: bv8 := 0x02

  type u8 = x: nat | x < 0x100
  type u32 = x: nat | x < WORD
  type u64 = x: nat | x < WORD * WORD

  // ---------------------------------------------------------------- memory

  /** The triple a write stores and a read returns; `value` is the bit pattern of the double. */
  datatype Payload = Payload(value: u64, timestamp: u64, quality: u8)

  /** The separately stored words of a payload. */
  datatype Cell = ValueLow | ValueHigh | TimestampLow | TimestampHigh | QualityByte

  const CELLS: set<Cell> := {ValueLow, ValueHigh, TimestampLow, TimestampHigh, QualityByte}

  function Word(p: Payload, c: Cell): u32 {
    match c
    case ValueLow => p.value % WORD
    case ValueHigh => p.value / WORD
    case TimestampLow => p.timestamp % WORD
    case TimestampHigh => p.timestamp / WORD
    case QualityByte => p.quality
  }

  function Words(p: Payload): map<Cell, u32> {
    map c | c in CELLS :: Word(p, c)
  }

  function Assemble(words: map<Cell, u32>): Payload
    requires words.Keys == CELLS
  {
    Payload(words[ValueHigh] * WORD + words[ValueLow],
            words[TimestampHigh] * WORD + words[TimestampLow],
            words[QualityByte] % 0x100)
  }

  datatype Slot = Slot(sequence: u32, cells: map<Cell, u32>, flags: bv8) {
    function Bump(): Slot {
      this.(sequence := (sequence + 1) % WORD)
    }

    /** The slot after one whole write of `p`. */
    function Written(p: Payload): Slot {
      Slot((sequence + 2) % WORD, Words(p), flags | VALID | DIRTY)
    }
  }

  const ZEROED: Slot := Slot(0, Words(Payload(0, 0, 0)), 0)

  // ---------------------------------------------------------------- the source's methods

  /** What one attempt to read yields: the reader has to try again, or a payload. */
  datatype Outcome = Retry | Got(value: Payload)

  /** One thread's view: the methods of the source, each against the memory of the protocol. */
  class PointSlot {
    var sequence: u32
    var value: u64
    var timestamp: u64
    var quality: u8
    var flags: bv8

    ghost function Memory(): Slot
      reads this
    {
      Slot(sequence, Words(Payload(value, timestamp, quality)), flags)
    }

    constructor Zeroed()
      ensures Memory() == ZEROED
    {
      sequence, value, timestamp, quality, flags := 0, 0, 0, 0, 0;
    }

    predicate IsValid()
      reads this
    {
      flags & VALID != 0
    }

    /** Returns the incremented number without reduction: `seq + 1` must not overflow. */
    method BeginWrite() returns (odd: nat)
      modifies this`sequence
      ensures Memory() == old(Memory()).Bump()
      ensures odd == old(sequence) + 1
    {
      odd := sequence + 1;
      sequence := (sequence + 1) % WORD;
    }

    method EndWrite()
      modifies this`sequence
      ensures Memory() == old(Memory()).Bump()
    {
      sequence := (sequence + 1) % WORD;
    }

    method Write(v: u64, ts: u64, q: u8)
      modifies this
      ensures Memory() == old(Memory()).Written(Payload(v, ts, q))
      ensures IsValid()
    {
      var _ := BeginWrite();
      value := v;
      timestamp := ts;
      quality := q;
      flags := flags | VALID | DIRTY;
      EndWrite();
    }

    method TryRead() returns (r: Outcome)
      ensures r.Got? <==> sequence % 2 == 0
      ensures r.Got? ==> Words(r.value) == Memory().cells
    {
      var seq1 := sequence;
      if seq1 % 2 != 0 {
        return Retry;
      }
      var v, ts, q := value, timestamp, quality;
      var seq2 := sequence;
      if seq1 != seq2 {
        return Retry;
      }
      return Got(Payload(v, ts, q));
    }
  }

  lemma AssembleWords(p: Payload)
    ensures Assemble(Words(p)) == p
  {
  }

  // ---------------------------------------------------------------- the protocol

  datatype Writer = Idle | Writing(target: Payload, stored: set<Cell>, flagged: bool)

  /** `start` is a history variable: the number of writes completed at the first sequence load. */
  datatype Reader = Resting | Reading(first: u32, start: nat, got: map<Cell, u32>)

  /**
   One finished call of `try_read`, with the number of writes completed at the first and the last
   sequence load and whether a write was in progress at the last one.
   */
  datatype Attempt = Attempt(start: nat, finish: nat, busy: bool, outcome: Outcome)

  /** `history` holds the initial triple followed by every completed write. */
  datatype State = State(
    slot: Slot,
    writer: Writer,
    readers: map<nat, Reader>,
    history: seq<Payload>,
    log: map<nat, seq<Attempt>>)
  {
    function Completed(): int {
      |history| - 1
    }

    function Record(r: nat, a: Attempt): State
      requires r in log
    {
      this.(readers := readers[r := Resting], log := log[r := log[r] + [a]])
    }
  }

  datatype Step =
    | BeginWrite(p: Payload)
    | StoreWord(c: Cell)
    | StoreFlags
    | EndWrite
    | BeginRead(r: nat)
    | LoadWord(r: nat, c: Cell)
    | FinishRead(r: nat)

  predicate Initial(s: State) {
    && s.slot == ZEROED
    && s.writer == Idle
    && s.history == [Payload(0, 0, 0)]
    && s.readers.Keys == s.log.Keys
    && (forall r | r in s.readers :: s.readers[r] == Resting && s.log[r] == [])
  }

  predicate Enabled(s: State, e: Step) {
    s.readers.Keys == s.log.Keys && s.slot.cells.Keys == CELLS && s.history != [] &&
    match e
    case BeginWrite(_) => s.writer.Idle?
    case StoreWord(c) => c in CELLS && s.writer.Writing? && c !in s.writer.stored
    case StoreFlags => s.writer.Writing? && !s.writer.flagged
    case EndWrite => s.writer.Writing? && s.writer.stored == CELLS && s.writer.flagged
    case BeginRead(r) => r in s.readers && s.readers[r].Resting?
    case LoadWord(r, c) => c in CELLS && r in s.readers && s.readers[r].Reading? && c !in s.readers[r].got
    case FinishRead(r) => r in s.readers && s.readers[r].Reading? && s.readers[r].got.Keys == CELLS
  }

  function Apply(s: State, e: Step): State
    requires Enabled(s, e)
  {
    match e
    case BeginWrite(p) => s.(slot := s.slot.Bump(), writer := Writing(p, {}, false))
    case StoreWord(c) =>
      s.(slot := s.slot.(cells := s.slot.cells[c := Word(s.writer.target, c)]),
         writer := s.writer.(stored := s.writer.stored + {c}))
    case StoreFlags =>
      s.(slot := s.slot.(flags := s.slot.flags | VALID | DIRTY), writer := s.writer.(flagged := true))
    case EndWrite =>
      s.(slot := s.slot.Bump(), writer := Idle, history := s.history + [s.writer.target])
    case BeginRead(r) =>
      if s.slot.sequence % 2 != 0 then
        s.Record(r, Attempt(s.Completed(), s.Completed(), s.writer.Writing?, Retry))
      else
        s.(readers := s.readers[r := Reading(s.slot.sequence, s.Completed(), map[])])
    case LoadWord(r, c) =>
      var reader := s.readers[r];
      s.(readers := s.readers[r := reader.(got := reader.got[c := s.slot.cells[c]])])
    case FinishRead(r) =>
      var reader := s.readers[r];
      var outcome := if s.slot.sequence == reader.first then Got(Assemble(reader.got)) else Retry;
      s.Record(r, Attempt(reader.start, s.Completed(), s.writer.Writing?, outcome))
  }

  predicate IsRun(s: State, steps: seq<Step>)
    decreases |steps|
  {
    steps == [] || (Enabled(s, steps[0]) && IsRun(Apply(s, steps[0]), steps[1..]))
  }

  function After(s: State, steps: seq<Step>): State
    requires IsRun(s, steps)
    decreases |steps|
  {
    if steps == [] then s else After(Apply(s, steps[0]), steps[1..])
  }

  // ---------------------------------------------------------------- the invariant

  predicate SequenceInv(s: State) {
    s.history != [] && s.slot.sequence == (2 * s.Completed() + if s.writer.Writing? then 1 else 0) % WORD
  }

  /** While a write is in progress each word is either the new or the last completed one. */
  predicate CellsInv(s: State) {
    && s.history != []
    && s.slot.cells.Keys == CELLS
    && (forall c | c in CELLS ::
          s.slot.cells[c] ==
          Word(if s.writer.Writing? && c in s.writer.stored then s.writer.target else s.history[s.Completed()], c))
  }

  predicate FlagsInv(s: State) {
    s.Completed() > 0 || (s.writer.Writing? && s.writer.flagged) ==> s.slot.flags & VALID != 0
  }

  predicate WriterInv(s: State) {
    SequenceInv(s) && CellsInv(s) && FlagsInv(s)
  }

  predicate ReaderInv(s: State, reader: Reader) {
    reader.Reading? && s.history != [] ==>
      && reader.start <= s.Completed()
      && reader.first == (2 * reader.start) % WORD
      && reader.got.Keys <= CELLS
      && (reader.start == s.Completed() && s.writer.Idle? ==>
            forall c | c in reader.got :: reader.got[c] == Word(s.history[reader.start], c))
  }

  /** An attempt succeeds exactly when the counter came back; with no write in between it is whole. */
  predicate AttemptInv(s: State, a: Attempt) {
    && a.start <= a.finish < |s.history|
    && (a.outcome.Got? <==> !a.busy && (a.finish - a.start) % WRAP == 0)
    && (a.outcome.Got? && a.start == a.finish ==> a.outcome.value == s.history[a.start])
  }

  predicate LogInv(s: State, reader: Reader, log: seq<Attempt>) {
    && (forall i | 0 <= i < |log| :: AttemptInv(s, log[i]))
    && (forall i, j | 0 <= i < j < |log| :: log[i].finish <= log[j].start)
    && (reader.Reading? ==> forall i | 0 <= i < |log| :: log[i].finish <= reader.start)
  }

  predicate Explained(s: State, r: nat) {
    r in s.readers && r in s.log && ReaderInv(s, s.readers[r]) && LogInv(s, s.readers[r], s.log[r])
  }

  predicate Inv(s: State) {
    && WriterInv(s)
    && s.readers.Keys == s.log.Keys
    && (forall r | r in s.readers :: Explained(s, r))
  }

  lemma InitialInv(s: State)
    requires Initial(s)
    ensures Inv(s)
  {
  }

  lemma StepKeepsSequence(s: State, e: Step)
    requires SequenceInv(s) && Enabled(s, e)
    ensures SequenceInv(Apply(s, e))
  {
  }

  lemma StepKeepsCells(s: State, e: Step)
    requires CellsInv(s) && Enabled(s, e)
    ensures CellsInv(Apply(s, e))
  {
  }

  lemma StepKeepsFlags(s: State, e: Step)
    requires FlagsInv(s) && Enabled(s, e)
    ensures FlagsInv(Apply(s, e))
  {
    if e.StoreFlags? {
      FlagsSet(s.slot.flags);
    }
  }

  lemma FlagsSet(f: bv8)
    ensures (f | VALID | DIRTY) & VALID != 0
  {
  }

  /** The second sequence load accepts exactly when no write is in progress and the counter came round. */
  lemma FinishDecides(s: State, r: nat)
    requires Inv(s) && Enabled(s, FinishRead(r))
    ensures var reader := s.readers[r];
            && (s.slot.sequence == reader.first <==>
                s.writer.Idle? && (s.Completed() - reader.start) % WRAP == 0)
            && (s.writer.Idle? && s.Completed() == reader.start ==>
                Assemble(reader.got) == s.history[reader.start])
  {
    assert Explained(s, r);
    var reader := s.readers[r];
    if s.writer.Idle? && s.Completed() == reader.start {
      assert reader.got == Words(s.history[reader.start]);
      AssembleWords(s.history[reader.start]);
    }
  }

  lemma StepKeepsReader(s: State, e: Step, r: nat)
    requires SequenceInv(s) && CellsInv(s) && Enabled(s, e) && r in s.readers && ReaderInv(s, s.readers[r])
    ensures r in Apply(s, e).readers && ReaderInv(Apply(s, e), Apply(s, e).readers[r])
  {
  }

  /** Old attempts stay explained as the history grows. */
  lemma LogStable(s: State, t: State, reader: Reader, log: seq<Attempt>)
    requires LogInv(s, reader, log) && s.history <= t.history
    ensures LogInv(t, reader, log)
  {
    forall i | 0 <= i < |log|
      ensures AttemptInv(t, log[i])
    {
      assert AttemptInv(s, log[i]);
    }
  }

  lemma LogAppend(s: State, reader: Reader, log: seq<Attempt>, a: Attempt)
    requires LogInv(s, reader, log) && AttemptInv(s, a)
    requires forall i | 0 <= i < |log| :: log[i].finish <= a.start
    ensures LogInv(s, Resting, log + [a])
  {
  }

  lemma FinishKeepsLog(s: State, r: nat)
    requires Inv(s) && Enabled(s, FinishRead(r))
    ensures LogInv(Apply(s, FinishRead(r)), Resting, Apply(s, FinishRead(r)).log[r])
  {
    assert Explained(s, r);
    var t, reader, log := Apply(s, FinishRead(r)), s.readers[r], s.log[r];
    FinishDecides(s, r);
    LogStable(s, t, reader, log);
    LogAppend(t, reader, log, t.log[r][|log|]);
  }

  lemma BeginKeepsLog(s: State, r: nat)
    requires Inv(s) && Enabled(s, BeginRead(r))
    ensures var t := Apply(s, BeginRead(r)); LogInv(t, t.readers[r], t.log[r])
  {
    assert Explained(s, r);
    var t, log := Apply(s, BeginRead(r)), s.log[r];
    LogStable(s, t, Resting, log);
    forall i | 0 <= i < |log|
      ensures log[i].finish <= s.Completed()
    {
      assert AttemptInv(s, log[i]);
    }
    if s.slot.sequence % 2 != 0 {
      LogAppend(t, Resting, log, Attempt(s.Completed(), s.Completed(), s.writer.Writing?, Retry));
    }
  }

  lemma StepKeepsLog(s: State, e: Step, r: nat)
    requires Inv(s) && Enabled(s, e) && r in s.readers
    ensures var t := Apply(s, e); r in t.readers && r in t.log && LogInv(t, t.readers[r], t.log[r])
  {
    assert Explained(s, r);
    if e == BeginRead(r) {
      BeginKeepsLog(s, r);
    } else if e == FinishRead(r) {
      FinishKeepsLog(s, r);
    } else {
      LogStable(s, Apply(s, e), s.readers[r], s.log[r]);
    }
  }

  lemma StepKeepsInv(s: State, e: Step)
    requires Inv(s) && Enabled(s, e)
    ensures Inv(Apply(s, e))
  {
    StepKeepsSequence(s, e);
    StepKeepsCells(s, e);
    StepKeepsFlags(s, e);
    forall r | r in s.readers
      ensures Explained(Apply(s, e), r)
    {
      StepKeepsReader(s, e, r);
      StepKeepsLog(s, e, r);
    }
  }

  lemma {:induction false} RunKeepsInv(s: State, steps: seq<Step>)
    requires Inv(s) && IsRun(s, steps)
    ensures Inv(After(s, steps))
    decreases |steps|
  {
    if steps != [] {
      StepKeepsInv(s, steps[0]);
      RunKeepsInv(Apply(s, steps[0]), steps[1..]);
    }
  }
}
