/**
 The texts that header decoding (`libs/common/src/operation_log.rs`) accepts are the encodings of scalar values of
 section 3 of RFC 3629: `String::from_utf8` fails on everything else.
 */
module Utf8 {
  import opened OperationLog

  type Scalar = c: nat | c < 0x110000 && !(0xD800 <= c <= 0xDFFF)

  function Low(c: nat): byte {
    0x80 + c % 64
  }

  /** One to four bytes, the shortest that hold the value. */
  function Encoded(c: Scalar): seq<byte> {
    if c < 0x80 then [c]
    else if c < 0x800 then [0xC0 + c / 64, Low(c)]
    else if c < 0x1_0000 then [0xE0 + c / 4096, Low(c / 64), Low(c)]
    else [0xF0 + c / 262144, Low(c / 4096), Low(c / 64), Low(c)]
  }

  function EncodedAll(cs: seq<Scalar>): seq<byte> {
    if cs == [] then [] else Encoded(cs[0]) + EncodedAll(cs[1..])
  }

  lemma EncodedIsRead(c: Scalar, rest: seq<byte>)
    ensures SequenceLength(Encoded(c) + rest) == |Encoded(c)|
  {
    var b := Encoded(c) + rest;
    assert b[0] == Encoded(c)[0] && (|Encoded(c)| > 1 ==> b[1] == Encoded(c)[1]);
  }

  lemma LowDigit(x: nat, y: nat)
    requires y < 64
    ensures (x * 64 + y) / 64 == x && Low(x * 64 + y) == 0x80 + y
  {
  }

  lemma ReadTwo(b: seq<byte>) returns (c: Scalar)
    requires SequenceLength(b) == 2
    ensures b[..2] == Encoded(c)
  {
    var x: int, y: int := b[0] - 0xC0, b[1] - 0x80;
    LowDigit(x, y);
    c := x * 64 + y;
  }

  lemma ReadThree(b: seq<byte>) returns (c: Scalar)
    requires SequenceLength(b) == 3
    ensures b[..3] == Encoded(c)
  {
    var x: int, y: int, z: int := b[0] - 0xE0, b[1] - 0x80, b[2] - 0x80;
    LowDigit(x, y);
    LowDigit(x * 64 + y, z);
    c := (x * 64 + y) * 64 + z;
    assert c / 4096 == c / 64 / 64;
  }

  lemma ReadFour(b: seq<byte>) returns (c: Scalar)
    requires SequenceLength(b) == 4
    ensures b[..4] == Encoded(c)
  {
    var x: int, y: int, z: int, w: int := b[0] - 0xF0, b[1] - 0x80, b[2] - 0x80, b[3] - 0x80;
    LowDigit(x, y);
    LowDigit(x * 64 + y, z);
    LowDigit((x * 64 + y) * 64 + z, w);
    c := ((x * 64 + y) * 64 + z) * 64 + w;
    assert c / 4096 == c / 64 / 64 && c / 262144 == c / 64 / 64 / 64;
  }

  /** The value of a well-formed sequence. */
  lemma ReadIsEncoded(b: seq<byte>) returns (c: Scalar)
    requires SequenceLength(b) > 0
    ensures b[..SequenceLength(b)] == Encoded(c)
  {
    if SequenceLength(b) == 1 {
      c := b[0];
    } else if SequenceLength(b) == 2 {
      c := ReadTwo(b);
    } else if SequenceLength(b) == 3 {
      c := ReadThree(b);
    } else {
      c := ReadFour(b);
    }
  }

  lemma {:induction false} EncodedIsValid(cs: seq<Scalar>)
    ensures ValidUtf8(EncodedAll(cs))
    decreases |cs|
  {
    if cs != [] {
      var rest := EncodedAll(cs[1..]);
      EncodedIsRead(cs[0], rest);
      EncodedIsValid(cs[1..]);
      assert (Encoded(cs[0]) + rest)[|Encoded(cs[0])|..] == rest;
    }
  }

  lemma {:induction false} ValidIsEncoded(b: seq<byte>) returns (cs: seq<Scalar>)
    requires ValidUtf8(b)
    ensures b == EncodedAll(cs)
    decreases |b|
  {
    if b == [] {
      cs := [];
    } else {
      var n := SequenceLength(b);
      var c := ReadIsEncoded(b);
      var rest := ValidIsEncoded(b[n..]);
      cs := [c] + rest;
      assert cs[1..] == rest && b == b[..n] + b[n..];
    }
  }

  /** Bytes are accepted exactly if they encode some text. */
  lemma ValidIffEncoded(b: seq<byte>)
    ensures ValidUtf8(b) <==> exists cs :: b == EncodedAll(cs)
  {
    if ValidUtf8(b) {
      var cs := ValidIsEncoded(b);
    }
    if cs :| b == EncodedAll(cs) {
      EncodedIsValid(cs);
    }
  }
}
