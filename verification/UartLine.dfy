/** How the firmware applies a configuration message to the UART (`apply_config`). */
module UartLine {
  import opened Bytes
  import opened FrameReader

  datatype WordLength = Bits5 | Bits6 | Bits7 | Bits8
  datatype StopBits = One | Two
  datatype Parity = Disabled | Odd | Even

  datatype Line = Line(baudrate: u32, word: WordLength, stop: StopBits, parity: Parity, flow: bool)

  function WordOf(dataBits: byte): Option<WordLength> {
    if dataBits == 5 then Some(Bits5) else if dataBits == 6 then Some(Bits6)
    else if dataBits == 7 then Some(Bits7) else if dataBits == 8 then Some(Bits8) else None
  }

  function StopOf(stopBits: byte): Option<StopBits> {
    if stopBits == 1 then Some(One) else if stopBits == 2 then Some(Two) else None
  }

  function ParityOf(parity: byte): Option<Parity> {
    if parity == 0 then Some(Disabled) else if parity == 1 then Some(Odd)
    else if parity == 2 then Some(Even) else None
  }

  function OrKeep<T>(asked: Option<T>, was: T): T {
    if asked.Some? then asked.value else was
  }

  /** The line after a configuration message: a field out of range leaves that setting alone. */
  function Applied(line: Line, c: ConfigFields, allowFlow: bool): Line {
    Line(c.baudrate, OrKeep(WordOf(c.dataBits), line.word), OrKeep(StopOf(c.stopBits), line.stop),
         OrKeep(ParityOf(c.parity), line.parity), if allowFlow then c.hwFlowCtl != 0 else line.flow)
  }

  /** The formats there are. */
  predicate IsFormat(dataBits: byte, stopBits: byte, parity: byte) {
    5 <= dataBits <= 8 && 1 <= stopBits <= 2 && parity <= 2
  }

  /** No `default` branch is taken. */
  predicate InRange(c: ConfigFields) { IsFormat(c.dataBits, c.stopBits, c.parity) }

  /** The numeric settings of a line, as the configuration message spells them. */
  function SettingsOf(line: Line): (int, int, int) {
    (match line.word case Bits5 => 5 case Bits6 => 6 case Bits7 => 7 case Bits8 => 8,
     match line.stop case One => 1 case Two => 2,
     match line.parity case Disabled => 0 case Odd => 1 case Even => 2)
  }

  /** The line ends up as the message says exactly when the message is in range. */
  lemma AppliedIffInRange(line: Line, c: ConfigFields, allowFlow: bool)
    ensures Applied(line, c, allowFlow).baudrate == c.baudrate
    ensures SettingsOf(Applied(line, c, allowFlow)) == (c.dataBits as int, c.stopBits as int, c.parity as int)
            <==> InRange(c)
  {
    assert InRange(c) <==> WordOf(c.dataBits).Some? && StopOf(c.stopBits).Some? && ParityOf(c.parity).Some?;
    if c.dataBits < 5 || c.dataBits > 8 {
      assert 5 <= SettingsOf(Applied(line, c, allowFlow)).0 <= 8;
    }
  }

  /** A setting follows its own field when that is in range, and otherwise stays, whatever the others do. */
  lemma EachFieldAlone(line: Line, c: ConfigFields, allowFlow: bool)
    ensures var was, now := SettingsOf(line), SettingsOf(Applied(line, c, allowFlow));
            && now.0 == (if 5 <= c.dataBits <= 8 then c.dataBits as int else was.0)
            && now.1 == (if 1 <= c.stopBits <= 2 then c.stopBits as int else was.1)
            && now.2 == (if c.parity <= 2 then c.parity as int else was.2)
    ensures Applied(line, c, allowFlow).flow <==> if allowFlow then c.hwFlowCtl != 0 else line.flow
  {
    if c.dataBits < 5 || c.dataBits > 8 {
      assert WordOf(c.dataBits) == None;
    }
    if c.stopBits < 1 || c.stopBits > 2 {
      assert StopOf(c.stopBits) == None;
    }
    if c.parity > 2 {
      assert ParityOf(c.parity) == None;
    }
  }

  /** The driver's settings, changed one call at a time. */
  class Uart {
    var baudrate: u32
    var word: WordLength
    var stop: StopBits
    var parity: Parity
    var flow: bool

    /** The settings `uart_rx_task` installs at start-up. */
    constructor ()
      ensures AsLine() == Line(115200, Bits8, One, Disabled, false)
    {
      baudrate, word, stop, parity, flow := 115200, Bits8, One, Disabled, false;
    }

    function AsLine(): Line
      reads this
    {
      Line(baudrate, word, stop, parity, flow)
    }

    method ApplyConfig(c: ConfigFields, allowFlow: bool)
      modifies this
      ensures AsLine() == Applied(old(AsLine()), c, allowFlow)
    {
      baudrate := c.baudrate;
      match c.dataBits {
        case 5 => word := Bits5;
        case 6 => word := Bits6;
        case 7 => word := Bits7;
        case 8 => word := Bits8;
        case _ =>
      }
      match c.stopBits {
        case 1 => stop := One;
        case 2 => stop := Two;
        case _ =>
      }
      match c.parity {
        case 0 => parity := Disabled;
        case 1 => parity := Odd;
        case 2 => parity := Even;
        case _ =>
      }
      if allowFlow {
        flow := c.hwFlowCtl != 0;
      }
    }
  }
}
