/**
  Incremental decoders over a byte stream and the laws they share.

  A decoder looks at the bytes buffered so far and either asks for more, yields one
  message together with the number of bytes it used, or reports malformed input.
 */
module Streams {
  import opened Bytes

  datatype Outcome<+M> = More | Item(msg: M, used: nat) | Bad

  /** What a codec returns when it is run over a buffer: the outcome without the byte count. */
  datatype Polled<+M> = Pending | Ready(msg: M) | Malformed

  type Decoder<M> = seq<byte> -> Outcome<M>

  /** An item uses at least one byte and no byte that is not there. */
  ghost predicate Progresses<M>(d: Decoder<M>) {
    forall s :: d(s).Item? ==> 0 < d(s).used <= |s|
  }

  /** A verdict is never revised when more bytes arrive. */
  ghost predicate Stable<M>(d: Decoder<M>) {
    forall s, t {:trigger d(s + t)} :: !d(s).More? ==> d(s + t) == d(s)
  }

  ghost predicate Lawful<M>(d: Decoder<M>) {
    Progresses(d) && Stable(d)
  }

  /** `d` recovers every message `encode` writes, whatever follows it on the stream. */
  ghost predicate Recovers<M(!new)>(d: Decoder<M>, encode: M -> seq<byte>, good: M -> bool) {
    forall m, t :: good(m) ==> d(encode(m) + t) == Item(m, |encode(m)|)
  }

  /** No item can be decoded before its last byte is there, and no error is reported either. */
  lemma StrictPrefixAsksForMore<M>(d: Decoder<M>, s: seq<byte>, k: nat)
    requires Lawful(d) && d(s).Item? && k < d(s).used
    ensures d(s[..k]).More?
  {
    assert s[..k] + s[k..] == s;
  }

  /** What decoding a byte string to exhaustion yields. */
  datatype Drained<+M> = Drained(msgs: seq<M>, bad: bool, rest: seq<byte>)

  /** The messages `ms`, then what draining on gave. */
  function Join<M>(ms: seq<M>, r: Drained<M>): Drained<M> {
    Drained(ms + r.msgs, r.bad, r.rest)
  }

  lemma JoinAssociates<M>(ms: seq<M>, ns: seq<M>, r: Drained<M>)
    ensures Join(ms, Join(ns, r)) == Join(ms + ns, r)
  {
    assert ms + (ns + r.msgs) == (ms + ns) + r.msgs;
  }

  lemma JoinNothing<M>(r: Drained<M>)
    ensures Join([], r) == r
  {
    assert [] + r.msgs == r.msgs;
  }

  function Drain<M>(d: Decoder<M>, s: seq<byte>): Drained<M>
    requires Lawful(d)
    decreases |s|
  {
    match d(s)
    case More => Drained([], false, s)
    case Bad => Drained([], true, s)
    case Item(m, n) => Join([m], Drain(d, s[n..]))
  }

  /** Drain on with the bytes `t`: after an error they stay unread. */
  function Resume<M>(d: Decoder<M>, a: Drained<M>, t: seq<byte>): Drained<M>
    requires Lawful(d)
  {
    if a.bad then a.(rest := a.rest + t) else Join(a.msgs, Drain(d, a.rest + t))
  }

  lemma ResumeJoins<M>(d: Decoder<M>, ms: seq<M>, a: Drained<M>, t: seq<byte>)
    requires Lawful(d)
    ensures Resume(d, Join(ms, a), t) == Join(ms, Resume(d, a, t))
  {
    if !a.bad {
      JoinAssociates(ms, a.msgs, Drain(d, a.rest + t));
    }
  }

  /** Draining a string and then draining its leftover with more bytes is draining it all. */
  lemma {:induction false} DrainInTwo<M>(d: Decoder<M>, s: seq<byte>, t: seq<byte>)
    requires Lawful(d)
    ensures Drain(d, s + t) == Resume(d, Drain(d, s), t)
    decreases |s|
  {
    assert d(s).More? || d(s + t) == d(s);
    match d(s) {
      case More => JoinNothing(Drain(d, s + t));
      case Bad =>
      case Item(m, n) =>
        assert (s + t)[n..] == s[n..] + t;
        DrainInTwo(d, s[n..], t);
        ResumeJoins(d, [m], Drain(d, s[n..]), t);
    }
  }

  /** The leftover of an error-free drain is a string the decoder still asks more for. */
  lemma {:induction false} LeftoverAsksForMore<M>(d: Decoder<M>, s: seq<byte>)
    requires Lawful(d) && !Drain(d, s).bad
    ensures d(Drain(d, s).rest).More?
    decreases |s|
  {
    if d(s).Item? {
      LeftoverAsksForMore(d, s[d(s).used..]);
    }
  }

  function EncodeAll<M>(encode: M -> seq<byte>, ms: seq<M>): seq<byte> {
    if ms == [] then [] else encode(ms[0]) + EncodeAll(encode, ms[1..])
  }

  /** A stream of encoded messages and an unfinished tail decodes to those messages. */
  lemma {:induction false} DrainRecovers<M(!new)>(d: Decoder<M>, encode: M -> seq<byte>, good: M -> bool,
                                                  ms: seq<M>, tail: seq<byte>)
    requires Lawful(d) && Recovers(d, encode, good)
    requires (forall m <- ms :: good(m)) && d(tail).More?
    ensures Drain(d, EncodeAll(encode, ms) + tail) == Drained(ms, false, tail)
  {
    if ms == [] {
      assert EncodeAll(encode, ms) + tail == tail;
    } else {
      var m, rest := ms[0], EncodeAll(encode, ms[1..]) + tail;
      assert EncodeAll(encode, ms) + tail == encode(m) + rest;
      assert (encode(m) + rest)[|encode(m)|..] == rest;
      assert d(encode(m) + rest) == Item(m, |encode(m)|);
      DrainRecovers(d, encode, good, ms[1..], tail);
      assert [m] + ms[1..] == ms;
    }
  }

  /** Where a chunk-by-chunk reader stands: `unread` are the chunks an error left in the socket. */
  datatype Fed<+M> = Fed(msgs: seq<M>, failed: bool, buf: seq<byte>, unread: seq<byte>)

  /** One read: append the chunk to the buffer and decode until the decoder asks for more. */
  function Feed<M>(d: Decoder<M>, f: Fed<M>, chunk: seq<byte>): Fed<M>
    requires Lawful(d)
  {
    if f.failed then
      f.(unread := f.unread + chunk)
    else
      var r := Drain(d, f.buf + chunk);
      Fed(f.msgs + r.msgs, r.bad, r.rest, f.unread)
  }

  function FeedAll<M>(d: Decoder<M>, chunks: seq<seq<byte>>): Fed<M>
    requires Lawful(d)
    decreases |chunks|
  {
    if chunks == [] then Fed([], false, [], [])
    else Feed(d, FeedAll(d, chunks[..|chunks| - 1]), chunks[|chunks| - 1])
  }

  /** `f` is where a reader stands that has been handed the stream `s`, in whatever chunks. */
  ghost predicate Accounts<M>(d: Decoder<M>, f: Fed<M>, s: seq<byte>)
    requires Lawful(d)
  {
    && Drained(f.msgs, f.failed, f.buf + f.unread) == Drain(d, s)
    && (!f.failed ==> f.unread == [])
  }

  lemma FeedAccounts<M>(d: Decoder<M>, f: Fed<M>, s: seq<byte>, chunk: seq<byte>)
    requires Lawful(d) && Accounts(d, f, s)
    ensures Accounts(d, Feed(d, f, chunk), s + chunk)
  {
    DrainInTwo(d, s, chunk);
    if f.failed {
      assert f.buf + (f.unread + chunk) == (f.buf + f.unread) + chunk;
    } else {
      assert f.buf + f.unread == f.buf;
      assert Drain(d, f.buf + chunk).rest + [] == Drain(d, f.buf + chunk).rest;
    }
  }

  /**
    Segmentation independence: however the stream is cut into chunks, the messages, the error
    and the bytes left over are those of decoding the whole stream at once.
   */
  lemma {:induction false} ChunkingDoesNotMatter<M>(d: Decoder<M>, chunks: seq<seq<byte>>)
    requires Lawful(d) && d([]).More?
    ensures Accounts(d, FeedAll(d, chunks), Concat(chunks))
    decreases |chunks|
  {
    if chunks == [] {
      var none: seq<byte> := [];
      assert none + none == none;
    } else {
      var init, last := chunks[..|chunks| - 1], chunks[|chunks| - 1];
      ChunkingDoesNotMatter(d, init);
      FeedAccounts(d, FeedAll(d, init), Concat(init), last);
      ConcatSnoc(init, last);
      assert init + [last] == chunks;
    }
  }

  /**
    The framed transport of tokio-util, for one decoder: chunks are appended to `buf` and decoded
    until more input is needed; after an error nothing more is read.
   */
  class Framed<M> {
    const decode: Decoder<M>
    var buf: seq<byte>
    var failed: bool

    constructor (decode: Decoder<M>)
      ensures this.decode == decode && buf == [] && !failed
    {
      this.decode := decode;
      buf, failed := [], false;
    }

    method Read(chunk: seq<byte>) returns (msgs: seq<M>)
      requires Lawful(decode)
      modifies this
      ensures old(failed) ==> msgs == [] && failed && buf == old(buf)
      ensures !old(failed) ==> Drained(msgs, failed, buf) == Drain(decode, old(buf) + chunk)
    {
      msgs := [];
      if failed {
        return;
      }
      buf := buf + chunk;
      ghost var all := Drain(decode, buf);
      JoinNothing(all);
      var waiting := false;
      while !waiting && !failed
        invariant waiting ==> !failed && decode(buf).More?
        invariant if failed then all == Drained(msgs, true, buf) else all == Join(msgs, Drain(decode, buf))
        decreases !waiting && !failed, |buf|
      {
        match decode(buf) {
          case More => waiting := true;
          case Bad =>
            failed := true;
            assert msgs + [] == msgs;
          case Item(m, n) =>
            JoinAssociates(msgs, [m], Drain(decode, buf[n..]));
            msgs := msgs + [m];
            buf := buf[n..];
        }
      }
      assert !failed ==> msgs + [] == msgs;
    }

    /** A whole session: every chunk in turn. */
    method ReadAll(chunks: seq<seq<byte>>) returns (msgs: seq<M>)
      requires Lawful(decode) && decode([]).More? && buf == [] && !failed
      modifies this
      ensures var whole := Drain(decode, Concat(chunks));
              msgs == whole.msgs && failed == whole.bad && (!failed ==> buf == whole.rest)
    {
      msgs := [];
      assert chunks[..0] == [];
      for i := 0 to |chunks|
        invariant var f := FeedAll(decode, chunks[..i]);
                  msgs == f.msgs && failed == f.failed && buf == f.buf
      {
        var more := Read(chunks[i]);
        assert chunks[..i + 1][..i] == chunks[..i];
        msgs := msgs + more;
      }
      assert chunks[..|chunks|] == chunks;
      ChunkingDoesNotMatter(decode, chunks);
      assert !failed ==> buf + [] == buf;
    }
  }
}
