/** Bytes, fixed-width unsigned integers and their big-endian wire form. */
module Bytes {

  type byte = x: int | 0 <= x < 0x100
  type u16 = x: int | 0 <= x < 0x1_0000
  type u32 = x: int | 0 <= x < 0x1_0000_0000

  datatype Option<+T> = None | Some(value: T)

  /** A flag as one byte. */
  function BoolByte(b: bool): byte { if b then 1 else 0 }

  /** The big-endian value of the bytes at `i`, as `get_u16` and `ntohs` read them. */
  function U16At(s: seq<byte>, i: nat): (v: u16)
    requires i + 2 <= |s|
  {
    s[i] as int * 0x100 + s[i + 1] as int
  }

  /** The big-endian value of the bytes at `i`, as `get_u32` and `ntohl` read them. */
  function U32At(s: seq<byte>, i: nat): (v: u32)
    requires i + 4 <= |s|
  {
    s[i] as int * 0x100_0000 + s[i + 1] as int * 0x1_0000 + s[i + 2] as int * 0x100 + s[i + 3] as int
  }

  function BE16(v: u16): (s: seq<byte>)
    ensures |s| == 2 && U16At(s, 0) == v
  {
    [v / 0x100, v % 0x100]
  }

  function BE32(v: u32): (s: seq<byte>)
    ensures |s| == 4 && U32At(s, 0) == v
  {
    var hi, lo := v / 0x1_0000, v % 0x1_0000;
    [hi / 0x100, hi % 0x100, lo / 0x100, lo % 0x100]
  }

  /** Big-endian digits are unique, so re-encoding a decoded number restores its bytes. */
  lemma BE16OfValue(s: seq<byte>, i: nat)
    requires i + 2 <= |s|
    ensures BE16(U16At(s, i)) == s[i..i + 2]
  {
    var v := U16At(s, i);
    assert v / 0x100 == s[i] && v % 0x100 == s[i + 1];
  }

  lemma BE32OfValue(s: seq<byte>, i: nat)
    requires i + 4 <= |s|
    ensures BE32(U32At(s, i)) == s[i..i + 4]
  {
    var v := U32At(s, i);
    assert v % 0x100 == s[i + 3];
    assert v / 0x100 == s[i] as int * 0x1_0000 + s[i + 1] as int * 0x100 + s[i + 2];
    assert v / 0x1_0000 == s[i] as int * 0x100 + s[i + 1];
    assert v / 0x100_0000 == s[i];
  }

  /** Concatenation of a list of byte strings. */
  function Concat(parts: seq<seq<byte>>): seq<byte> {
    if parts == [] then [] else parts[0] + Concat(parts[1..])
  }

  lemma Associates<T>(x: seq<T>, y: seq<T>, z: seq<T>)
    ensures x + (y + z) == (x + y) + z
  {
  }

  lemma {:induction false} ConcatAppend(a: seq<seq<byte>>, b: seq<seq<byte>>)
    ensures Concat(a + b) == Concat(a) + Concat(b)
  {
    if a == [] {
      assert a + b == b;
    } else {
      var x, y, z := a[0], Concat(a[1..]), Concat(b);
      ConcatAppend(a[1..], b);
      assert (a + b)[1..] == a[1..] + b;
      Associates(x, y, z);
    }
  }

  lemma ConcatSnoc(a: seq<seq<byte>>, x: seq<byte>)
    ensures Concat(a + [x]) == Concat(a) + x
  {
    ConcatAppend(a, [x]);
    assert Concat([x]) == x + Concat([]);
  }
}
