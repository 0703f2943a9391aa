/**
 Exactly which texts the parsers of `libs/voltage-routing/src/routing_cache.rs` accept, and what they make of texts that
 no loader prints.
 */
module RoutingTexts {
  import opened Basics
  import opened Routing
  import Decimal

  lemma {:induction false} PiecesHaveNone(s: string, c: char)
    ensures forall i | 0 <= i < |Split(s, c)| :: c !in Split(s, c)[i]
    decreases |s|
  {
    if s != "" {
      PiecesHaveNone(s[1..], c);
    }
  }

  function Joined(pieces: seq<string>, c: char): string
    requires pieces != []
  {
    if |pieces| == 1 then pieces[0] else pieces[0] + [c] + Joined(pieces[1..], c)
  }

  lemma {:induction false} SplitJoins(s: string, c: char)
    ensures Joined(Split(s, c), c) == s
    decreases |s|
  {
    if s != "" {
      var rest := Split(s[1..], c);
      SplitJoins(s[1..], c);
      assert s == [s[0]] + s[1..];
      if s[0] == c {
        assert ([""] + rest)[1..] == rest;
      } else {
        assert ([[s[0]] + rest[0]] + rest[1..])[1..] == rest[1..];
        if |rest| > 1 {
          assert [s[0]] + (rest[0] + [c] + Joined(rest[1..], c)) == ([s[0]] + rest[0]) + [c] + Joined(rest[1..], c);
        }
      }
    }
  }

  /** Three pieces are what stands before, between and after exactly two colons. */
  lemma ThreePieces(s: string, a: string, b: string, c: string)
    ensures Split(s, ':') == [a, b, c] <==> s == Colons(a, b, c) && ':' !in a && ':' !in b && ':' !in c
  {
    if Split(s, ':') == [a, b, c] {
      SplitJoins(s, ':');
      PiecesHaveNone(s, ':');
      assert [a, b, c][1..] == [b, c] && [b, c][1..] == [c];
      assert Joined([b, c], ':') == b + ":" + c;
      assert Split(s, ':')[0] == a && Split(s, ':')[1] == b && Split(s, ':')[2] == c;
    }
    if s == Colons(a, b, c) && ':' !in a && ':' !in b && ':' !in c {
      SplitThree(a, b, c);
    }
  }

  lemma NumbersHaveNoColon(s: string)
    requires ParseU32(s).Some?
    ensures ':' !in s
  {
    var digits := if s != "" && s[0] == '+' then s[1..] else s;
    assert s == (if s != "" && s[0] == '+' then "+" else "") + digits;
    assert !Decimal.IsDigit(':');
  }

  /** A plus sign before the digits is allowed. */
  lemma PlusSign(n: U32)
    ensures ParseU32("+" + Decimal.Text(n)) == Some(n)
  {
    var digits := Decimal.Text(n);
    Decimal.TextIsDigits(n);
    Decimal.ValueOfText(n);
    assert ("+" + digits)[1..] == digits;
  }

  lemma KindTexts(s: string, t: PointType)
    ensures ParsePointType(s) == Some(t) <==> s == AsStr(t)
    ensures ParsePointType(s) == Some(t) ==> FromStr(s) == Some(t)
    ensures ':' !in AsStr(t) && |AsStr(t)| == 1
  {
  }

  /** A text is a key exactly if it is two numbers around a point type, with two colons. */
  lemma KeyTexts(s: string, k: RouteKey)
    ensures ParseRouteKey(s) == Some(k) <==>
            exists a, b :: s == Colons(a, AsStr(k.kind), b) && ParseU32(a) == Some(k.id) && ParseU32(b) == Some(k.point)
  {
    KindTexts(AsStr(k.kind), k.kind);
    if ParseRouteKey(s) == Some(k) {
      var parts := Split(s, ':');
      ThreePieces(s, parts[0], parts[1], parts[2]);
      KindTexts(parts[1], k.kind);
    }
    if a, b :| s == Colons(a, AsStr(k.kind), b) && ParseU32(a) == Some(k.id) && ParseU32(b) == Some(k.point) {
      NumbersHaveNoColon(a);
      NumbersHaveNoColon(b);
      ThreePieces(s, a, AsStr(k.kind), b);
    }
  }

  /** An instance point: the same, with anything between the colons. */
  lemma TargetTexts(s: string, t: C2MTarget)
    ensures ParseC2MTarget(s) == Some(t) <==>
            exists a, m, b ::
              s == Colons(a, m, b) && ':' !in m && ParseU32(a) == Some(t.instance) && ParseU32(b) == Some(t.point)
  {
    if ParseC2MTarget(s) == Some(t) {
      var parts := Split(s, ':');
      ThreePieces(s, parts[0], parts[1], parts[2]);
    }
    if a, m, b :| s == Colons(a, m, b) && ':' !in m && ParseU32(a) == Some(t.instance) && ParseU32(b) == Some(t.point) {
      NumbersHaveNoColon(a);
      NumbersHaveNoColon(b);
      ThreePieces(s, a, m, b);
    }
  }

  /** A forwarding target: a scale that is missing or unreadable is one, such an offset is zero. */
  lemma TransformTexts(read: string -> Option<real>, k: RouteKey, a: string, b: string)
    requires '|' !in a
    ensures ParseC2C(read, KeyText(k)) == Some(C2CTarget(k, 1.0, 0.0))
    ensures var scale := if read(a).Some? then read(a).value else 1.0;
            && ParseC2C(read, KeyText(k) + "|" + a) == Some(C2CTarget(k, scale, 0.0))
            && ParseC2C(read, KeyText(k) + "|" + (a + "|" + b)) ==
               Some(C2CTarget(k, scale, if read(b).Some? then read(b).value else 0.0))
  {
    KeyRoundTrip(k);
    KeyHasNoBar(k);
    CutNone(KeyText(k));
    CutFirst(KeyText(k), a);
    CutNone(a);
    CutFirst(KeyText(k), a + "|" + b);
    CutFirst(a, b);
  }
}
