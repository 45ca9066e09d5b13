/** Well-formed UTF-8, after the syntax of section 4 of RFC 3629: what a Rust `String` holds. */
module Utf8 {
  import opened Bytes

  predicate IsTail(b: byte) { 0x80 <= b <= 0xBF }

  /** The length of the character that starts `s`, or 0 when none does. */
  function CharLength(s: seq<byte>): (n: nat)
    ensures n <= |s|
  {
    if |s| >= 1 && s[0] <= 0x7F then 1
    else if |s| >= 2 && 0xC2 <= s[0] <= 0xDF && IsTail(s[1]) then 2
    else if |s| >= 3 && IsTail(s[2])
            && (|| (s[0] == 0xE0 && 0xA0 <= s[1] <= 0xBF)
                || (0xE1 <= s[0] <= 0xEC && IsTail(s[1]))
                || (s[0] == 0xED && 0x80 <= s[1] <= 0x9F)
                || (0xEE <= s[0] <= 0xEF && IsTail(s[1]))) then 3
    else if |s| >= 4 && IsTail(s[2]) && IsTail(s[3])
            && (|| (s[0] == 0xF0 && 0x90 <= s[1] <= 0xBF)
                || (0xF1 <= s[0] <= 0xF3 && IsTail(s[1]))
                || (s[0] == 0xF4 && 0x80 <= s[1] <= 0x8F)) then 4
    else 0
  }

  predicate IsUtf8(s: seq<byte>) {
    s == [] || (CharLength(s) > 0 && IsUtf8(s[CharLength(s)..]))
  }

  type Utf8 = s: seq<byte> | IsUtf8(s)

  lemma {:induction false} Utf8Append(a: seq<byte>, b: seq<byte>)
    requires IsUtf8(a) && IsUtf8(b)
    ensures IsUtf8(a + b)
    decreases |a|
  {
    if a == [] {
      assert a + b == b;
    } else {
      var n := CharLength(a);
      assert CharLength(a + b) == n;
      assert (a + b)[n..] == a[n..] + b;
      Utf8Append(a[n..], b);
    }
  }

  lemma {:induction false} AsciiIsUtf8(s: seq<byte>)
    requires forall i :: 0 <= i < |s| ==> s[i] <= 0x7F
    ensures IsUtf8(s)
  {
    if s != [] {
      AsciiIsUtf8(s[1..]);
    }
  }

  /** A text of 7-bit characters as bytes. */
  function Ascii(s: string): (t: Utf8)
    ensures |t| == |s|
    ensures forall i :: 0 <= i < |s| && s[i] as int < 0x80 ==> t[i] == s[i] as int
  {
    var t := seq(|s|, i requires 0 <= i < |s| => s[i] as int % 0x80);
    AsciiIsUtf8(t);
    t
  }

  // ---------------------------------------------------------------- code points

  /** What a text is made of: code points that are not surrogates. */
  predicate IsScalar(c: nat) { c < 0xD800 || 0xE000 <= c < 0x11_0000 }

  type Scalar = c: nat | IsScalar(c)

  /** The encoding of section 3 of RFC 3629: the shortest form that holds the number. */
  function EncodePoint(c: Scalar): (s: seq<byte>)
    ensures 1 <= |s| <= 4
  {
    var a := c / 0x40;
    var b := a / 0x40;
    var d := b / 0x40;
    assert IsScalar(c) && a < 0x4400 && b < 0x110;
    if c < 0x80 then [c]
    else if c < 0x800 then [0xC0 + a, 0x80 + c % 0x40]
    else if c < 0x1_0000 then [0xE0 + b, 0x80 + a % 0x40, 0x80 + c % 0x40]
    else [0xF0 + d, 0x80 + b % 0x40, 0x80 + a % 0x40, 0x80 + c % 0x40]
  }

  function EncodePoints(cs: seq<Scalar>): seq<byte> {
    if cs == [] then [] else EncodePoint(cs[0]) + EncodePoints(cs[1..])
  }

  /** The bits of a byte after its mark. */
  function Bits(b: byte, mark: byte): (n: nat)
    requires mark <= b
  {
    var n: int := b;
    n - mark
  }

  /** `hi` followed by the six bits of a tail byte. */
  function Shifted(hi: nat, tail: byte): (n: nat)
    requires IsTail(tail)
    ensures n / 0x40 == hi && n % 0x40 == Bits(tail, 0x80)
  {
    hi * 0x40 + Bits(tail, 0x80)
  }

  /** The code point of the character that starts `s`. */
  function PointOf(s: seq<byte>): nat
    requires CharLength(s) > 0
  {
    var n := CharLength(s);
    if n == 1 then s[0]
    else if n == 2 then Shifted(Bits(s[0], 0xC0), s[1])
    else if n == 3 then Shifted(Shifted(Bits(s[0], 0xE0), s[1]), s[2])
    else Shifted(Shifted(Shifted(Bits(s[0], 0xF0), s[1]), s[2]), s[3])
  }

  lemma Digit(hi: nat, c: nat)
    requires hi == c / 0x40
    ensures Shifted(hi, 0x80 + c % 0x40) == c
  {
  }

  lemma ShiftedRange(hi: nat, tail: byte)
    requires IsTail(tail)
    ensures hi * 0x40 <= Shifted(hi, tail) == hi * 0x40 + Bits(tail, 0x80) < (hi + 1) * 0x40
  {
  }

  lemma TwoBytes(x: byte, y: byte)
    requires 0xC2 <= x <= 0xDF && IsTail(y)
    ensures var c := Shifted(Bits(x, 0xC0), y); IsScalar(c) && EncodePoint(c) == [x, y]
  {
  }

  lemma ThreeBytes(x: byte, y: byte, z: byte)
    requires CharLength([x, y, z]) == 3
    ensures var c := Shifted(Shifted(Bits(x, 0xE0), y), z); IsScalar(c) && EncodePoint(c) == [x, y, z]
  {
    hide Shifted;
    var a := Shifted(Bits(x, 0xE0), y);
    ShiftedRange(Bits(x, 0xE0), y);
    ShiftedRange(a, z);
    assert a < 0x360 || 0x380 <= a;
  }

  lemma FourBytes(x: byte, y: byte, z: byte, w: byte)
    requires CharLength([x, y, z, w]) == 4
    ensures var c := Shifted(Shifted(Shifted(Bits(x, 0xF0), y), z), w); IsScalar(c) && EncodePoint(c) == [x, y, z, w]
  {
    hide Shifted;
    var b := Shifted(Bits(x, 0xF0), y);
    var a := Shifted(b, z);
    ShiftedRange(Bits(x, 0xF0), y);
    ShiftedRange(b, z);
    ShiftedRange(a, w);
    assert 0x10 <= b < 0x110;
  }

  /** A character is the encoding of its code point. */
  lemma PointEncodes(s: seq<byte>)
    requires CharLength(s) > 0
    ensures IsScalar(PointOf(s)) && EncodePoint(PointOf(s)) == s[..CharLength(s)]
  {
    hide EncodePoint, Shifted;
    var n := CharLength(s);
    if n == 1 {
      OneByte(s[0]);
    } else if n == 2 {
      TwoBytes(s[0], s[1]);
    } else if n == 3 {
      assert CharLength([s[0], s[1], s[2]]) == 3;
      ThreeBytes(s[0], s[1], s[2]);
    } else {
      assert CharLength([s[0], s[1], s[2], s[3]]) == 4;
      FourBytes(s[0], s[1], s[2], s[3]);
    }
  }

  lemma OneByte(x: byte)
    requires x <= 0x7F
    ensures EncodePoint(x) == [x]
  {
  }

  /** The encoding of a code point is one character. */
  lemma PointDecodes(c: Scalar, t: seq<byte>)
    ensures CharLength(EncodePoint(c) + t) == |EncodePoint(c)| && PointOf(EncodePoint(c) + t) == c
  {
    hide Shifted;
    var e := EncodePoint(c);
    var s := e + t;
    assert forall i :: 0 <= i < |e| ==> s[i] == e[i];
    var a := c / 0x40;
    var b := a / 0x40;
    var d := b / 0x40;
    assert IsScalar(c);
    if c >= 0x80 {
      Digit(a, c);
    }
    if c >= 0x800 {
      Digit(b, a);
    }
    if c >= 0x1_0000 {
      Digit(d, b);
      assert 0x10 <= b < 0x110;
    }
  }

  /** Texts are exactly what sequences of code points encode to, each from one such sequence. */
  lemma {:induction false} PointsEncodeToText(cs: seq<Scalar>)
    ensures IsUtf8(EncodePoints(cs))
  {
    if cs != [] {
      var s, rest := EncodePoints(cs), EncodePoints(cs[1..]);
      PointDecodes(cs[0], rest);
      PointsEncodeToText(cs[1..]);
      assert s[CharLength(s)..] == rest;
    }
  }

  function Points(s: Utf8): seq<Scalar>
    decreases |s|
  {
    if s == [] then [] else
      PointEncodes(s);
      [PointOf(s)] + Points(s[CharLength(s)..])
  }

  lemma {:induction false} TextIsItsPoints(s: Utf8)
    ensures EncodePoints(Points(s)) == s
    decreases |s|
  {
    hide CharLength, EncodePoint, PointOf;
    if s != [] {
      var n := CharLength(s);
      PointEncodes(s);
      TextIsItsPoints(s[n..]);
      assert s == s[..n] + s[n..];
    }
  }

  lemma {:induction false} PointsOfText(cs: seq<Scalar>)
    ensures IsUtf8(EncodePoints(cs)) && Points(EncodePoints(cs)) == cs
  {
    PointsEncodeToText(cs);
    if cs != [] {
      var s, rest := EncodePoints(cs), EncodePoints(cs[1..]);
      PointDecodes(cs[0], rest);
      PointsOfText(cs[1..]);
      assert s[CharLength(s)..] == rest;
      assert cs == [cs[0]] + cs[1..];
    }
  }

  /** A byte sequence is a text if and only if it encodes code points. */
  lemma Utf8IffPoints(s: seq<byte>)
    ensures IsUtf8(s) <==> exists cs: seq<Scalar> :: EncodePoints(cs) == s
  {
    if IsUtf8(s) {
      TextIsItsPoints(s);
    } else if cs: seq<Scalar> :| EncodePoints(cs) == s {
      PointsEncodeToText(cs);
    }
  }
}
