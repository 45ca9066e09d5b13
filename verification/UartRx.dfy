/** The chunking loop of `uart_rx_task` in server/main/uart.c, for one UART event. */
module UartRx {
  import opened Bytes
  import opened FrameReader

  const MAX_MESSAGE_BODY_SIZE := 255

  /** The UART driver's receive buffer, and the bursts that arrive while it is being emptied. */
  class UartPort {
    var fifo: seq<byte>
    var bursts: seq<seq<byte>>

    constructor (fifo: seq<byte>, bursts: seq<seq<byte>>)
      ensures this.fifo == fifo && this.bursts == bursts
    {
      this.fifo, this.bursts := fifo, bursts;
    }

    /** Every byte the port will deliver, in order. */
    function Stream(): seq<byte>
      reads this
    {
      fifo + Concat(bursts)
    }

    /** `uart_get_buffered_data_len`; another burst may have come in since the last look. */
    method BufferedLen() returns (n: nat)
      modifies this
      ensures n == |fifo| && Stream() == old(Stream())
      ensures |bursts| <= |old(bursts)| && (fifo != old(fifo) ==> |bursts| < |old(bursts)|)
    {
      var arrived: bool := *;
      if arrived && bursts != [] {
        Associates(fifo, bursts[0], Concat(bursts[1..]));
        fifo, bursts := fifo + bursts[0], bursts[1..];
      }
      n := |fifo|;
    }

    /** `uart_read_bytes` without waiting: some of the buffered bytes, at most `max`. */
    method ReadBytes(max: nat) returns (got: seq<byte>)
      requires 0 < max && fifo != []
      modifies this`fifo
      ensures 0 < |got| <= max && old(fifo) == got + fifo
    {
      var n :| 1 <= n <= max && n <= |fifo|;
      got := fifo[..n];
      fifo := fifo[n..];
    }
  }

  function Bodies(frames: seq<Frame>): seq<seq<byte>> {
    seq(|frames|, i requires 0 <= i < |frames| => frames[i].body)
  }

  /**
    The loop: data frames of 1 to 255 bytes are queued until the port has nothing buffered, and
    their bodies are exactly the bytes that were taken from it, in order.
   */
  method ForwardBuffered(port: UartPort) returns (queued: seq<Frame>)
    modifies port
    ensures forall f <- queued :: f.kind == 1 && 1 <= |f.body| <= 255
    ensures Concat(Bodies(queued)) + port.Stream() == old(port.Stream())
    ensures port.fifo == []
  {
    queued := [];
    var bufferedLen := port.BufferedLen();
    while bufferedLen > 0
      invariant bufferedLen == |port.fifo|
      invariant forall f <- queued :: f.kind == 1 && 1 <= |f.body| <= 255
      invariant Concat(Bodies(queued)) + port.Stream() == old(port.Stream())
      decreases |port.bursts|, |port.fifo|
    {
      var toRead := if bufferedLen > MAX_MESSAGE_BODY_SIZE then MAX_MESSAGE_BODY_SIZE else bufferedLen;
      ghost var before := Concat(Bodies(queued));
      var body := port.ReadBytes(toRead);
      Associates(body, port.fifo, Concat(port.bursts));
      Associates(before, body, port.Stream());
      ConcatSnoc(Bodies(queued), body);
      ghost var earlier := queued;
      queued := queued + [Frame(1, body)];
      assert Bodies(queued) == Bodies(earlier) + [body];
      bufferedLen := port.BufferedLen();
    }
  }
}
