/** The growable buffer and the read cursor of the `bytes` crate, as the codecs use them. */
module Buffers {
  import opened Bytes

  class BytesMut {
    var data: seq<byte>

    constructor (data: seq<byte>)
      ensures this.data == data
    {
      this.data := data;
    }

    method PutU8(v: byte)
      modifies this
      ensures data == old(data) + [v]
    {
      data := data + [v];
    }

    method PutU16(v: u16)
      modifies this
      ensures data == old(data) + BE16(v)
    {
      data := data + BE16(v);
    }

    method PutU32(v: u32)
      modifies this
      ensures data == old(data) + BE32(v)
    {
      data := data + BE32(v);
    }

    method PutSlice(s: seq<byte>)
      modifies this
      ensures data == old(data) + s
    {
      data := data + s;
    }

    method Advance(n: nat)
      requires n <= |data|
      modifies this
      ensures data == old(data)[n..]
    {
      data := data[n..];
    }
  }

  /** A read position over a buffer: the `Try` methods move it only when they succeed. */
  class Cursor {
    const data: seq<byte>
    var pos: nat

    ghost predicate Valid()
      reads this
    {
      pos <= |data|
    }

    constructor (data: seq<byte>)
      ensures Valid() && this.data == data && pos == 0
    {
      this.data := data;
      pos := 0;
    }

    function Remaining(): nat
      requires Valid()
      reads this
    {
      |data| - pos
    }

    method TryGetU8() returns (r: Option<byte>)
      requires Valid()
      modifies this
      ensures Valid()
      ensures if old(pos) + 1 <= |data| then r == Some(data[old(pos)]) && pos == old(pos) + 1
              else r == None && pos == old(pos)
    {
      if pos + 1 <= |data| {
        r := Some(data[pos]);
        pos := pos + 1;
      } else {
        r := None;
      }
    }

    method TryGetU16() returns (r: Option<u16>)
      requires Valid()
      modifies this
      ensures Valid()
      ensures if old(pos) + 2 <= |data| then r == Some(U16At(data, old(pos))) && pos == old(pos) + 2
              else r == None && pos == old(pos)
    {
      if pos + 2 <= |data| {
        r := Some(U16At(data, pos));
        pos := pos + 2;
      } else {
        r := None;
      }
    }

    method TryGetU32() returns (r: Option<u32>)
      requires Valid()
      modifies this
      ensures Valid()
      ensures if old(pos) + 4 <= |data| then r == Some(U32At(data, old(pos))) && pos == old(pos) + 4
              else r == None && pos == old(pos)
    {
      if pos + 4 <= |data| {
        r := Some(U32At(data, pos));
        pos := pos + 4;
      } else {
        r := None;
      }
    }

    method TryTake(n: nat) returns (r: Option<seq<byte>>)
      requires Valid()
      modifies this
      ensures Valid()
      ensures if old(pos) + n <= |data| then r == Some(data[old(pos)..old(pos) + n]) && pos == old(pos) + n
              else r == None && pos == old(pos)
    {
      if pos + n <= |data| {
        r := Some(data[pos..pos + n]);
        pos := pos + n;
      } else {
        r := None;
      }
    }
  }
}
