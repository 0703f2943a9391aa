/**
 Frame extraction from the UART ring buffer of `firmware/src/main.rs`: one poll of the main loop scans the
 bytes between tail and head for a DL/T 645 frame.
 */
module UartFraming {
  import opened Basics

  type Byte = x: int | 0 <= x < 256

  const RING := 256
  const START: Byte := 0x68
  const END: Byte := 0x16
  const MIN_FRAME := 14

  // ---------------------------------------------------------------- frames in a byte string

  /** The first position at or after `k` that holds `b`, or the length. */
  function IndexFrom(c: seq<Byte>, b: Byte, k: nat): nat
    decreases |c| - k
  {
    if k >= |c| then |c| else if c[k] == b then k else IndexFrom(c, b, k + 1)
  }

  lemma {:induction false} IndexIsFirst(c: seq<Byte>, b: Byte, k: nat)
    ensures var r := IndexFrom(c, b, k);
            && r <= |c| && (r < |c| ==> k <= r && c[r] == b)
            && (k <= |c| ==> k <= r && b !in c[k..r])
    decreases |c| - k
  {
    if k < |c| && c[k] != b {
      IndexIsFirst(c, b, k + 1);
      var r := IndexFrom(c, b, k + 1);
      assert c[k..r] == [c[k]] + c[k + 1..r];
    }
  }

  datatype Cut = Cut(from: nat, to: nat)

  /** From the first start byte to the first end byte that leaves a frame of at least the minimum length. */
  ghost predicate IsFirstFrame(c: seq<Byte>, cut: Cut) {
    && cut.from + MIN_FRAME <= cut.to <= |c|
    && c[cut.from] == START && c[cut.to - 1] == END
    && START !in c[..cut.from]
    && END !in c[cut.from + MIN_FRAME - 1..cut.to - 1]
  }

  ghost function FrameIn(c: seq<Byte>): (r: Option<Cut>)
    ensures r.Some? ==> IsFirstFrame(c, r.value)
    ensures r.None? ==> forall cut :: !IsFirstFrame(c, cut)
  {
    if cut :| IsFirstFrame(c, cut) then Some(cut) else None
  }

  lemma {:induction false} IndexIs(c: seq<Byte>, b: Byte, k: nat, r: nat)
    requires k <= r < |c| && c[r] == b && b !in c[k..r]
    ensures IndexFrom(c, b, k) == r
    decreases r - k
  {
    if k < r {
      assert c[k..r] == [c[k]] + c[k + 1..r];
      IndexIs(c, b, k + 1, r);
    }
  }

  lemma FirstFrameIs(c: seq<Byte>, cut: Cut)
    requires IsFirstFrame(c, cut)
    ensures cut.from == IndexFrom(c, START, 0) && cut.to == IndexFrom(c, END, cut.from + MIN_FRAME - 1) + 1
  {
    assert c[0..cut.from] == c[..cut.from];
    IndexIs(c, START, 0, cut.from);
    IndexIs(c, END, cut.from + MIN_FRAME - 1, cut.to - 1);
  }

  /** There is at most one first frame. */
  lemma FrameInFindsFirst(c: seq<Byte>, cut: Cut)
    ensures FrameIn(c) == Some(cut) <==> IsFirstFrame(c, cut)
  {
    if IsFirstFrame(c, cut) {
      FirstFrameIs(c, cut);
      FirstFrameIs(c, FrameIn(c).value);
    }
  }

  ghost function Frame(c: seq<Byte>): Option<seq<Byte>> {
    match FrameIn(c)
    case None => None
    case Some(cut) => Some(c[cut.from..cut.to])
  }

  /** What one poll leaves behind: everything when no frame is complete. */
  ghost function Rest(c: seq<Byte>): (r: seq<Byte>)
    ensures Frame(c).Some? ==> |r| + MIN_FRAME <= |c|
  {
    match FrameIn(c)
    case None => c
    case Some(cut) => c[cut.to..]
  }

  /** Nothing but bytes before the first start is lost. */
  lemma PollConserves(c: seq<Byte>)
    requires Frame(c).Some?
    ensures exists skipped :: START !in skipped && c == skipped + Frame(c).value + Rest(c)
  {
    var cut := FrameIn(c).value;
    assert c == c[..cut.from] + Frame(c).value + Rest(c);
  }

  // ---------------------------------------------------------------- the ring buffer

  /** The bytes from `tail` round to `head`. */
  function Ring(bytes: seq<Byte>, tail: nat, head: nat): (r: seq<Byte>)
    requires |bytes| == RING && tail < RING && head < RING
    ensures |r| < RING
  {
    if tail <= head then bytes[tail..head] else bytes[tail..] + bytes[..head]
  }

  /** The index `k` places after `tail`. */
  function Wrap(tail: nat, k: nat): (i: nat)
    requires tail < RING && k <= RING
    ensures i < RING || k == RING
  {
    if tail + k < RING then tail + k else tail + k - RING
  }

  lemma WrapNext(tail: nat, k: nat)
    requires tail < RING && k < RING
    ensures Wrap(tail, 0) == tail && Wrap(tail, k) < RING && (Wrap(tail, k) + 1) % RING == Wrap(tail, k + 1)
  {
  }

  lemma RingAt(bytes: seq<Byte>, tail: nat, head: nat, k: nat)
    requires |bytes| == RING && tail < RING && head < RING
    requires k <= |Ring(bytes, tail, head)|
    ensures Wrap(tail, k) == head <==> k == |Ring(bytes, tail, head)|
    ensures k < |Ring(bytes, tail, head)| ==> Ring(bytes, tail, head)[k] == bytes[Wrap(tail, k)]
  {
  }

  lemma RingStep(bytes: seq<Byte>, tail: nat, head: nat, k: nat)
    requires |bytes| == RING && tail < RING && head < RING
    requires k < |Ring(bytes, tail, head)|
    ensures Wrap(tail, k) < RING && Ring(bytes, tail, head)[k] == bytes[Wrap(tail, k)]
    ensures (Wrap(tail, k) + 1) % RING == Wrap(tail, k + 1)
    ensures Wrap(tail, k + 1) == head <==> k + 1 == |Ring(bytes, tail, head)|
  {
    RingAt(bytes, tail, head, k);
    RingAt(bytes, tail, head, k + 1);
    WrapNext(tail, k);
  }

  lemma RingDrop(bytes: seq<Byte>, tail: nat, head: nat, k: nat)
    requires |bytes| == RING && tail < RING && head < RING
    requires k <= |Ring(bytes, tail, head)|
    ensures Wrap(tail, k) < RING && Ring(bytes, Wrap(tail, k), head) == Ring(bytes, tail, head)[k..]
  {
    if tail > head {
      DropFromSum(bytes[tail..], bytes[..head], k);
      if tail + k < RING {
        assert bytes[tail..][k..] == bytes[tail + k..];
      } else {
        assert bytes[..head][k - (RING - tail)..] == bytes[tail + k - RING..head];
      }
    }
  }

  lemma AfterScan(bytes: seq<Byte>, tail: nat, head: nat, k: nat, found: bool)
    requires |bytes| == RING && tail < RING && head < RING && k <= |Ring(bytes, tail, head)|
    requires Rest(Ring(bytes, tail, head)) == if found then Ring(bytes, tail, head)[k..] else Ring(bytes, tail, head)
    ensures Wrap(tail, k) < RING
    ensures Ring(bytes, if found then Wrap(tail, k) else tail, head) == Rest(Ring(bytes, tail, head))
  {
    RingDrop(bytes, tail, head, k);
  }

  lemma DropFromSum(a: seq<Byte>, b: seq<Byte>, k: nat)
    requires k <= |a| + |b|
    ensures k <= |a| ==> (a + b)[k..] == a[k..] + b
    ensures k >= |a| ==> (a + b)[k..] == b[k - |a|..]
  {
  }

  /** The state of the interrupt handler and the main loop: the receive buffer and its two indices. */
  class UartReceiver {
    const buffer: array<Byte>
    var head: nat
    var tail: nat

    ghost predicate Valid()
      reads this
    {
      buffer.Length == RING && head < RING && tail < RING
    }

    ghost function Content(): seq<Byte>
      requires Valid()
      reads this, buffer
    {
      Ring(buffer[..], tail, head)
    }

    constructor ()
      ensures Valid() && Content() == [] && fresh(buffer)
    {
      buffer := new Byte[RING](_ => 0);
      head, tail := 0, 0;
    }

    /** The interrupt handler pushes one byte; a push into a full ring makes it look empty. */
    method Receive(b: Byte)
      requires Valid()
      modifies this`head, buffer
      ensures Valid()
      ensures Content() == if |old(Content())| < RING - 1 then old(Content()) + [b] else []
    {
      ghost var bytes := buffer[..];
      RingPush(bytes, tail, head, b);
      buffer[head] := b;
      assert buffer[..] == bytes[head := b];
      head := (head + 1) % RING;
    }

    /** Skips to the first start byte. */
    method FindStart() returns (idx: nat, ghost k: nat)
      requires Valid()
      ensures k == IndexFrom(Content(), START, 0) <= |Content()| && idx == Wrap(tail, k)
      ensures if idx == head then START !in Content() else idx < RING && buffer[idx] == START
    {
      idx, k := tail, 0;
      ghost var c := Content();
      RingAt(buffer[..], tail, head, 0);
      while idx != head
        invariant k <= |c| && idx == Wrap(tail, k) && (idx == head <==> k == |c|)
        invariant IndexFrom(c, START, k) == IndexFrom(c, START, 0)
        decreases |c| - k
      {
        RingStep(buffer[..], tail, head, k);
        if buffer[idx] == START {
          return;
        }
        idx, k := (idx + 1) % RING, k + 1;
      }
      IndexIsFirst(c, START, 0);
      assert c[0..|c|] == c;
    }

    /** Scans the content for a frame without consuming it. */
    method Scan() returns (frame: Option<seq<Byte>>, next: nat)
      requires Valid()
      ensures frame == Frame(Content())
      ensures next < RING && Ring(buffer[..], if frame.Some? then next else tail, head) == Rest(Content())
    {
      var idx, from := FindStart();
      RingLays(buffer[..], tail, head);
      ghost var n;
      frame, next, n := CopyOut(buffer, head, idx, tail, Content(), from);
      AfterScan(buffer[..], tail, head, from + n, frame.Some?);
    }

    /** One poll: the frame handed to the decoder, if any; the tail moves past it. */
    method ProcessUartRx() returns (frame: Option<seq<Byte>>)
      requires Valid()
      modifies this`tail
      ensures Valid()
      ensures frame == Frame(old(Content())) && Content() == Rest(old(Content()))
    {
      var available := if head >= tail then head - tail else RING - tail + head;
      if head == tail || available < MIN_FRAME {
        ShortHasNoFrame(Content());
        return None;
      }
      var next;
      frame, next := Scan();
      if frame.Some? {
        tail := next;
      }
    }
  }

  method CopyOut(buffer: array<Byte>, head: nat, start: nat, ghost tail: nat, ghost c: seq<Byte>, ghost from: nat)
    returns (frame: Option<seq<Byte>>, next: nat, ghost n: nat)
    requires Lays(buffer[..], tail, head, c) && from == IndexFrom(c, START, 0) <= |c| && start == Wrap(tail, from)
    ensures from + n <= |c| && next == Wrap(tail, from + n)
    ensures frame == Frame(c) && Rest(c) == if frame.Some? then c[from + n..] else c
  {
    var frameBuf := new Byte[RING](_ => 0);
    var frameLen;
    next, frameLen := CopyFrame(buffer, head, start, frameBuf, tail, c, from);
    frame := Decide(frameBuf, frameLen, c, from);
    n := frameLen;
  }

  /** The copied bytes are a frame when there are enough of them and the last is the end byte. */
  method Decide(frameBuf: array<Byte>, frameLen: nat, ghost c: seq<Byte>, ghost from: nat)
    returns (frame: Option<seq<Byte>>)
    requires from == IndexFrom(c, START, 0) <= |c| && from + frameLen == CopyEnd(c, from, 0) <= |c|
    requires frameLen <= frameBuf.Length && frameBuf[..frameLen] == c[from..from + frameLen]
    ensures frame == Frame(c) && Rest(c) == if frame.Some? then c[from + frameLen..] else c
  {
    CopyDecides(c, from, frameLen);
    assert frameLen > 0 ==> frameBuf[frameLen - 1] == frameBuf[..frameLen][frameLen - 1];
    if frameLen >= MIN_FRAME && frameBuf[frameLen - 1] == END {
      frame := Some(frameBuf[..frameLen]);
    } else {
      frame := None;
    }
  }

  /** The content lies in the buffer from `tail` on, and the head is right behind it. */
  ghost predicate Lays(bytes: seq<Byte>, tail: nat, head: nat, c: seq<Byte>) {
    && |bytes| == RING && tail < RING && |c| < RING
    && (forall k | 0 <= k < |c| :: Wrap(tail, k) != head && bytes[Wrap(tail, k)] == c[k])
    && Wrap(tail, |c|) == head
  }

  lemma RingLays(bytes: seq<Byte>, tail: nat, head: nat)
    requires |bytes| == RING && tail < RING && head < RING
    ensures Lays(bytes, tail, head, Ring(bytes, tail, head))
  {
    var c := Ring(bytes, tail, head);
    RingAt(bytes, tail, head, |c|);
    forall k | 0 <= k < |c|
      ensures Wrap(tail, k) != head && bytes[Wrap(tail, k)] == c[k]
    {
      RingAt(bytes, tail, head, k);
    }
  }

  /** Copies the content from position `from` up to the end of the frame, or up to the head. */
  method CopyFrame(buffer: array<Byte>, head: nat, start: nat, frameBuf: array<Byte>,
                   ghost tail: nat, ghost c: seq<Byte>, ghost from: nat) returns (idx: nat, frameLen: nat)
    requires Lays(buffer[..], tail, head, c) && frameBuf.Length == RING && frameBuf != buffer
    requires from <= |c| && start == Wrap(tail, from)
    modifies frameBuf
    ensures from + frameLen == CopyEnd(c, from, 0) <= |c| && idx == Wrap(tail, from + frameLen)
    ensures frameLen < RING && frameBuf[..frameLen] == c[from..from + frameLen]
  {
    idx, frameLen := start, 0;
    ghost var bytes := buffer[..];
    while idx != head && frameLen < RING
      invariant Copying(tail, c, from, frameLen, idx) && frameBuf[..frameLen] == c[from..from + frameLen]
      decreases |c| - from - frameLen
    {
      CopyingNext(bytes, tail, head, c, from, frameLen, idx);
      var byte := TakeByte(buffer, idx, frameBuf, frameLen);
      frameLen := frameLen + 1;
      idx := (idx + 1) % RING;
      if byte == END && frameLen >= MIN_FRAME {
        return;
      }
    }
    CopyingEnds(bytes, tail, head, c, from, frameLen, idx);
  }

  method TakeByte(buffer: array<Byte>, idx: nat, frameBuf: array<Byte>, n: nat) returns (byte: Byte)
    requires idx < buffer.Length && n < frameBuf.Length && frameBuf != buffer
    modifies frameBuf
    ensures byte == buffer[idx] && frameBuf[..n + 1] == old(frameBuf[..n]) + [byte]
  {
    byte := buffer[idx];
    frameBuf[n] := byte;
  }

  /** `n` bytes from position `from` on are copied, and copying has not reached its end. */
  ghost predicate Copying(tail: nat, c: seq<Byte>, from: nat, n: nat, idx: nat) {
    && tail < RING && from + n <= |c| < RING && idx == Wrap(tail, from + n)
    && CopyEnd(c, from, n) == CopyEnd(c, from, 0)
  }

  lemma CopyingNext(bytes: seq<Byte>, tail: nat, head: nat, c: seq<Byte>, from: nat, n: nat, idx: nat)
    requires Lays(bytes, tail, head, c) && Copying(tail, c, from, n, idx) && idx != head
    ensures from + n < |c| && idx < RING && bytes[idx] == c[from + n] && (idx + 1) % RING == Wrap(tail, from + n + 1)
    ensures c[from..from + n + 1] == c[from..from + n] + [c[from + n]]
    ensures if c[from + n] == END && n + 1 >= MIN_FRAME then CopyEnd(c, from, 0) == from + n + 1
            else Copying(tail, c, from, n + 1, (idx + 1) % RING)
  {
    WrapNext(tail, from + n);
    CopyStep(c, from, n);
  }

  lemma CopyingEnds(bytes: seq<Byte>, tail: nat, head: nat, c: seq<Byte>, from: nat, n: nat, idx: nat)
    requires Lays(bytes, tail, head, c) && Copying(tail, c, from, n, idx) && (idx == head || n >= RING)
    ensures from + n == |c| == CopyEnd(c, from, 0)
  {
  }

  lemma RingPush(bytes: seq<Byte>, tail: nat, head: nat, b: Byte)
    requires |bytes| == RING && tail < RING && head < RING
    ensures Ring(bytes[head := b], tail, (head + 1) % RING) ==
            var c := Ring(bytes, tail, head); if |c| < RING - 1 then c + [b] else []
  {
  }

  lemma ShortHasNoFrame(c: seq<Byte>)
    requires |c| < MIN_FRAME
    ensures Frame(c).None? && Rest(c) == c
  {
  }

  /** Where copying from `from` stops once `n` bytes are copied. */
  function CopyEnd(c: seq<Byte>, from: nat, n: nat): nat
    decreases |c| - n
  {
    if from + n >= |c| then |c|
    else if c[from + n] == END && n + 1 >= MIN_FRAME then from + n + 1
    else CopyEnd(c, from, n + 1)
  }

  lemma CopyStep(c: seq<Byte>, from: nat, n: nat)
    requires from + n < |c|
    ensures CopyEnd(c, from, n) ==
            if c[from + n] == END && n + 1 >= MIN_FRAME then from + n + 1 else CopyEnd(c, from, n + 1)
  {
  }

  lemma {:induction false} CopyEndIs(c: seq<Byte>, from: nat, n: nat)
    requires from + n <= |c|
    ensures var last := IndexFrom(c, END, if n + 1 >= MIN_FRAME then from + n else from + MIN_FRAME - 1);
            CopyEnd(c, from, n) == if last < |c| then last + 1 else |c|
    decreases |c| - n
  {
    if from + n < |c| && !(c[from + n] == END && n + 1 >= MIN_FRAME) {
      CopyEndIs(c, from, n + 1);
    }
  }

  /** The copied stretch ends in a complete frame exactly when the content has one. */
  lemma CopyDecides(c: seq<Byte>, from: nat, n: nat)
    requires from == IndexFrom(c, START, 0) <= |c| && from + n == CopyEnd(c, from, 0) <= |c|
    ensures var found := n >= MIN_FRAME && c[from + n - 1] == END;
            && Frame(c) == (if found then Some(c[from..from + n]) else None)
            && Rest(c) == if found then c[from + n..] else c
  {
    CopyEndIs(c, from, 0);
    if n >= MIN_FRAME && c[from + n - 1] == END {
      CopiedFrame(c, from, n);
      FrameInFindsFirst(c, Cut(from, from + n));
    } else if FrameIn(c).Some? {
      FirstFrameIs(c, FrameIn(c).value);
    }
  }

  lemma CopiedFrame(c: seq<Byte>, from: nat, n: nat)
    requires from == IndexFrom(c, START, 0) && MIN_FRAME <= n && from + n <= |c| && c[from + n - 1] == END
    requires var last := IndexFrom(c, END, from + MIN_FRAME - 1); from + n == if last < |c| then last + 1 else |c|
    ensures IsFirstFrame(c, Cut(from, from + n))
  {
    var k := from + MIN_FRAME - 1;
    IndexIsFirst(c, START, 0);
    IndexIsFirst(c, END, k);
    assert c[0..from] == c[..from];
  }

  // ---------------------------------------------------------------- the byte stream

  /** The frames of a whole byte stream, cut one after the other. */
  ghost function Frames(stream: seq<Byte>): seq<seq<Byte>>
    decreases |stream|
  {
    match Frame(stream)
    case None => []
    case Some(frame) => [frame] + Frames(Rest(stream))
  }

  /** Bytes that arrive later never change a frame already complete. */
  lemma {:induction false} CompleteFrameIsStable(c: seq<Byte>, more: seq<Byte>)
    requires Frame(c).Some?
    ensures Frame(c + more) == Frame(c) && Rest(c + more) == Rest(c) + more
  {
    var cut := FrameIn(c).value;
    FrameInFindsFirst(c, cut);
    var longer := c + more;
    assert longer[..cut.from] == c[..cut.from];
    assert longer[cut.from + MIN_FRAME - 1..cut.to - 1] == c[cut.from + MIN_FRAME - 1..cut.to - 1];
    FrameInFindsFirst(longer, cut);
    assert longer[cut.from..cut.to] == c[cut.from..cut.to];
    assert longer[cut.to..] == c[cut.to..] + more;
  }

  // ---------------------------------------------------------------- runs of the main loop

  /** The main loop polls; in between the interrupt handler pushes bytes. */
  datatype Step = Arrive(b: Byte) | Poll

  datatype Link = Link(pending: seq<Byte>, handedOn: seq<seq<Byte>>)

  predicate Full(s: Link) {
    |s.pending| >= RING - 1
  }

  /** The ring holds one byte less than its size; a byte more and its content is lost. */
  ghost function Next(s: Link, step: Step): Link {
    match step
    case Arrive(b) => s.(pending := if Full(s) then [] else s.pending + [b])
    case Poll => Link(Rest(s.pending), if Frame(s.pending).Some? then s.handedOn + [Frame(s.pending).value] else s.handedOn)
  }

  ghost function After(steps: seq<Step>): Link {
    if steps == [] then Link([], []) else Next(After(steps[..|steps| - 1]), steps[|steps| - 1])
  }

  /** The steps executed on the ring itself: its content and the frames handed on are those of the specification. */
  method MainLoop(steps: seq<Step>) returns (receiver: UartReceiver, handedOn: seq<seq<Byte>>)
    ensures receiver.Valid() && receiver.Content() == After(steps).pending && handedOn == After(steps).handedOn
  {
    receiver := new UartReceiver();
    handedOn := [];
    for i := 0 to |steps|
      invariant fresh(receiver) && fresh(receiver.buffer) && receiver.Valid()
      invariant Link(receiver.Content(), handedOn) == After(steps[..i])
    {
      assert steps[..i + 1][..i] == steps[..i];
      match steps[i]
      case Arrive(b) => receiver.Receive(b);
      case Poll =>
        var frame := receiver.ProcessUartRx();
        if frame.Some? {
          handedOn := handedOn + [frame.value];
        }
    }
    assert steps[..|steps|] == steps;
  }

  function Stream(steps: seq<Step>): seq<Byte> {
    if steps == [] then []
    else
      var last := steps[|steps| - 1];
      Stream(steps[..|steps| - 1]) + if last.Arrive? then [last.b] else []
  }

  /** The bytes that arrived since the last overflow. */
  ghost function Since(steps: seq<Step>): seq<Byte> {
    if steps == [] then []
    else
      var before, last := steps[..|steps| - 1], steps[|steps| - 1];
      if last.Poll? then Since(before) else if Full(After(before)) then [] else Since(before) + [last.b]
  }

  /** The number of frames handed on before the last overflow. */
  ghost function Earlier(steps: seq<Step>): nat {
    if steps == [] then 0
    else
      var before, last := steps[..|steps| - 1], steps[|steps| - 1];
      if last.Arrive? && Full(After(before)) then |After(before).handedOn| else Earlier(before)
  }

  /** The frames handed on, followed by those of the pending bytes and the given future ones. */
  ghost function Produced(s: Link, future: seq<Byte>): seq<seq<Byte>> {
    s.handedOn + Frames(s.pending + future)
  }

  lemma PollKeepsProduced(s: Link, future: seq<Byte>)
    ensures Produced(Next(s, Poll), future) == Produced(s, future)
  {
    if Frame(s.pending).Some? {
      var f := Frame(s.pending).value;
      CompleteFrameIsStable(s.pending, future);
      assert Frames(s.pending + future) == [f] + Frames(Rest(s.pending) + future);
      Associative(s.handedOn, [f], Frames(Rest(s.pending) + future));
    }
  }

  lemma {:induction false} EarlierIsWithin(steps: seq<Step>)
    ensures Earlier(steps) <= |After(steps).handedOn| && |After(steps).pending| < RING
    decreases |steps|
  {
    if steps != [] {
      EarlierIsWithin(steps[..|steps| - 1]);
    }
  }

  /** The frames of the current epoch. */
  ghost function Recent(steps: seq<Step>): seq<seq<Byte>> {
    EarlierIsWithin(steps);
    After(steps).handedOn[Earlier(steps)..]
  }

  /**
   In every run, overflows included: the frames handed on since the last overflow and those still to come are the
   frames of the bytes since that overflow, however these were split among polls and whatever arrives next.
   */
  lemma {:induction false} FramesSinceOverflow(steps: seq<Step>, future: seq<Byte>)
    ensures Frames(Since(steps) + future) == Recent(steps) + Frames(After(steps).pending + future)
    decreases |steps|
  {
    EarlierIsWithin(steps);
    if steps == [] {
      assert [] + future == future;
    } else {
      var before, last := steps[..|steps| - 1], steps[|steps| - 1];
      EarlierIsWithin(before);
      match last
      case Arrive(b) =>
        if Full(After(before)) {
          assert Recent(steps) == [];
        } else {
          FramesSinceOverflow(before, [b] + future);
          Associative(Since(before), [b], future);
          Associative(After(before).pending, [b], future);
        }
      case Poll =>
        FramesSinceOverflow(before, future);
        PollKeepsRecent(before, future);
    }
  }

  lemma PollKeepsRecent(before: seq<Step>, future: seq<Byte>)
    ensures Recent(before + [Poll]) + Frames(After(before + [Poll]).pending + future) ==
            Recent(before) + Frames(After(before).pending + future)
  {
    var s, t, n := After(before), After(before + [Poll]), Earlier(before);
    assert (before + [Poll])[..|before|] == before;
    EarlierIsWithin(before);
    EarlierIsWithin(before + [Poll]);
    PollKeepsProduced(s, future);
    DropBoth(s.handedOn, Frames(s.pending + future), t.handedOn, Frames(t.pending + future), n);
  }

  lemma DropBoth(a: seq<seq<Byte>>, b: seq<seq<Byte>>, c: seq<seq<Byte>>, d: seq<seq<Byte>>, n: nat)
    requires a + b == c + d && n <= |a| && n <= |c|
    ensures a[n..] + b == c[n..] + d
  {
    assert a[n..] + b == (a + b)[n..] && c[n..] + d == (c + d)[n..];
  }

  /** No byte arrives while the ring is full. */
  ghost predicate Fits(steps: seq<Step>) {
    forall i | 0 <= i < |steps| && steps[i].Arrive? :: !Full(After(steps[..i]))
  }

  lemma {:induction false} FittingIsOneEpoch(steps: seq<Step>)
    requires Fits(steps)
    ensures Since(steps) == Stream(steps) && Earlier(steps) == 0
    decreases |steps|
  {
    if steps != [] {
      var before := steps[..|steps| - 1];
      assert forall i | 0 <= i < |before| :: before[..i] == steps[..i];
      FittingIsOneEpoch(before);
      if steps[|steps| - 1].Arrive? {
        assert !Full(After(steps[..|steps| - 1]));
      }
    }
  }

  /** Without overflow, the frames handed on and still to come are those of the whole stream. */
  lemma {:induction false} SplitDoesNotMatter(steps: seq<Step>, future: seq<Byte>)
    requires Fits(steps)
    ensures Frames(Stream(steps) + future) == Produced(After(steps), future)
  {
    FittingIsOneEpoch(steps);
    FramesSinceOverflow(steps, future);
  }

  /** At any time the frames handed on are a prefix of the stream's frames; with none pending they are all. */
  lemma {:induction false} HandsOnTheStreamsFrames(steps: seq<Step>)
    requires Fits(steps)
    ensures After(steps).handedOn <= Frames(Stream(steps))
    ensures Frame(After(steps).pending).None? <==> After(steps).handedOn == Frames(Stream(steps))
  {
    SplitDoesNotMatter(steps, []);
    assert Stream(steps) + [] == Stream(steps) && After(steps).pending + [] == After(steps).pending;
    PendingFrames(After(steps));
  }

  // ---------------------------------------------------------------- overflow

  function Arrivals(bytes: seq<Byte>): seq<Step> {
    if bytes == [] then [] else Arrivals(bytes[..|bytes| - 1]) + [Arrive(bytes[|bytes| - 1])]
  }

  lemma {:induction false} ArriveAll(steps: seq<Step>, bytes: seq<Byte>)
    ensures Stream(steps + Arrivals(bytes)) == Stream(steps) + bytes
    ensures |After(steps).pending| + |bytes| < RING ==>
            After(steps + Arrivals(bytes)) == Link(After(steps).pending + bytes, After(steps).handedOn)
    decreases |bytes|
  {
    if bytes == [] {
      assert steps + [] == steps;
    } else {
      var before, b := bytes[..|bytes| - 1], bytes[|bytes| - 1];
      ArriveAll(steps, before);
      Associative(steps, Arrivals(before), [Arrive(b)]);
      ArriveOne(steps + Arrivals(before), b);
      assert bytes == before + [b];
      Associative(Stream(steps), before, [b]);
      Associative(After(steps).pending, before, [b]);
    }
  }

  lemma ArriveOne(steps: seq<Step>, b: Byte)
    ensures After(steps + [Arrive(b)]) == Next(After(steps), Arrive(b))
    ensures Stream(steps + [Arrive(b)]) == Stream(steps) + [b]
  {
    assert (steps + [Arrive(b)])[..|steps|] == steps;
  }

  /** One byte more than fits wipes the ring. */
  lemma {:induction false} ArriveTooMany(bytes: seq<Byte>)
    requires |bytes| == RING
    ensures Stream(Arrivals(bytes)) == bytes && After(Arrivals(bytes)) == Link([], [])
  {
    var before := bytes[..RING - 1];
    ArriveAll([], bytes);
    ArriveAll([], before);
    assert [] + Arrivals(bytes) == Arrivals(bytes) && [] + Arrivals(before) == Arrivals(before);
    assert [] + bytes == bytes && [] + before == before;
    var all := Arrivals(bytes);
    assert all[..|all| - 1] == Arrivals(before);
  }

  /**
   A run in which an overflow breaks the prefix property: an unfinished frame fills the ring and is lost, and the
   frame after it is handed on, while in the stream the two are one frame.
   */
  lemma {:induction false} OverflowBreaksPrefix(lost: seq<Byte>, f: seq<Byte>)
    requires |lost| == RING && lost[0] == START && END !in lost
    requires |f| == MIN_FRAME && f[0] == START && f[MIN_FRAME - 1] == END && END !in f[..MIN_FRAME - 1]
    ensures var steps := Arrivals(lost) + Arrivals(f) + [Poll];
            && After(steps).handedOn == [f] && Frames(Stream(steps)) == [lost + f]
            && !(After(steps).handedOn <= Frames(Stream(steps))) && !Fits(steps)
  {
    var steps := Arrivals(lost) + Arrivals(f) + [Poll];
    OverflowRun(lost, f);
    LostAndFrame(lost, f);
    NotAPrefix(steps, f, lost + f);
  }

  lemma {:induction false} OverflowRun(lost: seq<Byte>, f: seq<Byte>)
    requires |lost| == RING && |f| == MIN_FRAME && f[0] == START && f[MIN_FRAME - 1] == END && END !in f[..MIN_FRAME - 1]
    ensures var steps := Arrivals(lost) + Arrivals(f) + [Poll];
            After(steps).handedOn == [f] && Stream(steps) == lost + f
  {
    var arrived := Arrivals(lost) + Arrivals(f);
    ArriveTooMany(lost);
    ArriveAll(Arrivals(lost), f);
    assert [] + f == f && (arrived + [Poll])[..|arrived|] == arrived;
    WholeFrame(f);
  }

  lemma {:induction false} LostAndFrame(lost: seq<Byte>, f: seq<Byte>)
    requires |lost| == RING && lost[0] == START && END !in lost
    requires |f| == MIN_FRAME && f[MIN_FRAME - 1] == END && END !in f[..MIN_FRAME - 1]
    ensures Frames(lost + f) == [lost + f]
  {
    var c := lost + f;
    assert c[..|c| - 1] == lost + f[..MIN_FRAME - 1];
    WholeFrame(c);
  }

  lemma {:induction false} NotAPrefix(steps: seq<Step>, f: seq<Byte>, g: seq<Byte>)
    requires After(steps).handedOn == [f] && Frames(Stream(steps)) == [g] && |f| != |g|
    ensures !(After(steps).handedOn <= Frames(Stream(steps))) && !Fits(steps)
  {
    assert [f][0] != [g][0];
    if Fits(steps) {
      HandsOnTheStreamsFrames(steps);
    }
  }

  /** A text with one end byte, its last, is one frame. */
  lemma {:induction false} WholeFrame(c: seq<Byte>)
    requires |c| >= MIN_FRAME && c[0] == START && c[|c| - 1] == END && END !in c[..|c| - 1]
    ensures Frame(c) == Some(c) && Rest(c) == [] && Frames(c) == [c]
  {
    var cut := Cut(0, |c|);
    assert IsFirstFrame(c, cut) by {
      assert c[MIN_FRAME - 1..|c| - 1] == c[..|c| - 1][MIN_FRAME - 1..];
    }
    FrameInFindsFirst(c, cut);
    assert c[0..|c|] == c && c[|c|..] == [];
    ShortHasNoFrame([]);
    assert Frames([]) == [];
  }

  /** Such bytes exist. */
  lemma OverflowExample()
    ensures exists steps :: !(After(steps).handedOn <= Frames(Stream(steps)))
  {
    var lost := [START] + seq(RING - 1, _ => 0);
    var f := [START] + seq(MIN_FRAME - 2, _ => 0) + [END];
    OverflowBreaksPrefix(lost, f);
  }

  // ---------------------------------------------------------------- frames

  predicate Framed(f: seq<Byte>) {
    |f| >= MIN_FRAME && f[0] == START && f[|f| - 1] == END
  }

  lemma FrameIsFramed(c: seq<Byte>)
    requires Frame(c).Some?
    ensures Framed(Frame(c).value)
  {
    FrameInFindsFirst(c, FrameIn(c).value);
  }

  lemma FramesHead(stream: seq<Byte>)
    requires Frames(stream) != []
    ensures Frame(stream).Some? && |Rest(stream)| < |stream|
    ensures Frames(stream) == [Frame(stream).value] + Frames(Rest(stream))
  {
  }

  /** Every frame handed on is framed by the two marker bytes and has the minimum length. */
  lemma {:induction false} FramesAreFramed(stream: seq<Byte>, f: seq<Byte>)
    requires f in Frames(stream)
    ensures Framed(f)
    decreases |stream|
  {
    FramesHead(stream);
    if f == Frame(stream).value {
      FrameIsFramed(stream);
    } else {
      FramesAreFramed(Rest(stream), f);
    }
  }

  lemma {:induction false} FramesFit(stream: seq<Byte>)
    ensures MIN_FRAME * |Frames(stream)| <= |stream|
    decreases |stream|
  {
    if Frame(stream).Some? {
      FramesFit(Rest(stream));
    }
  }

  ghost function PollMany(s: Link, n: nat): Link
    decreases n
  {
    if n == 0 then s else PollMany(Next(s, Poll), n - 1)
  }

  lemma PendingFrames(s: Link)
    ensures |Frames(s.pending)| == if Frame(s.pending).Some? then 1 + |Frames(Next(s, Poll).pending)| else 0
  {
  }

  /** Polling as often as there are complete frames hands all of them on, in order. */
  lemma {:induction false} EnoughPollsDrain(s: Link, n: nat)
    requires n >= |Frames(s.pending)|
    ensures PollMany(s, n).handedOn == s.handedOn + Frames(s.pending)
    ensures Frame(PollMany(s, n).pending).None?
    decreases n
  {
    PendingFrames(s);
    if n > 0 {
      PollOnce(s);
      EnoughPollsDrain(Next(s, Poll), n - 1);
    }
  }

  lemma PollOnce(s: Link)
    ensures Next(s, Poll).handedOn + Frames(Next(s, Poll).pending) == s.handedOn + Frames(s.pending)
    ensures |Frames(Next(s, Poll).pending)| == if Frames(s.pending) == [] then 0 else |Frames(s.pending)| - 1
  {
    PendingFrames(s);
    PollKeepsProduced(s, []);
    assert s.pending + [] == s.pending && Next(s, Poll).pending + [] == Next(s, Poll).pending;
  }

  lemma {:induction false} PollingNeverGrows(s: Link, polls: nat)
    ensures |PollMany(s, polls).pending| <= |s.pending|
    decreases polls
  {
    if polls > 0 {
      PollingNeverGrows(Next(s, Poll), polls - 1);
    }
  }

  /** Polling changes something exactly when a frame is complete; other content stays, however often it is polled. */
  lemma {:induction false} IncompleteContentStays(s: Link, polls: nat)
    requires polls > 0
    ensures PollMany(s, polls) == s <==> Frame(s.pending).None?
    decreases polls
  {
    PollingNeverGrows(Next(s, Poll), polls - 1);
    if Frame(s.pending).None? && polls > 1 {
      IncompleteContentStays(s, polls - 1);
    }
  }

  /** A full ring survives the next byte, after any polling, if and only if a frame was complete in it. */
  lemma {:induction false} FullRingStalls(s: Link, polls: nat, b: Byte)
    requires |s.pending| == RING - 1 && polls > 0
    ensures Frame(s.pending).None? ==> PollMany(s, polls) == s
    ensures Next(PollMany(s, polls), Arrive(b)).pending == [] <==> Frame(s.pending).None?
  {
    if Frame(s.pending).None? {
      IncompleteContentStays(s, polls);
    } else {
      FreedRing(s, polls, b);
    }
  }

  lemma FreedRing(s: Link, polls: nat, b: Byte)
    requires |s.pending| == RING - 1 && polls > 0 && Frame(s.pending).Some?
    ensures Next(PollMany(s, polls), Arrive(b)).pending != []
  {
    PollingNeverGrows(Next(s, Poll), polls - 1);
    RoomForOne(PollMany(s, polls), b);
  }

  lemma RoomForOne(s: Link, b: Byte)
    requires |s.pending| < RING - 1
    ensures Next(s, Arrive(b)).pending == s.pending + [b] != []
  {
  }
}
