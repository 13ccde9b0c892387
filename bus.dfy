/**
 * The two-wire bus of TM1637.cpp as a sequence of pin events: start, stop and writeByte,
 * framing, a receiver that reads bytes back out of the events, and the pin levels the
 * events leave behind.
 */
module Bus {
  import opened Arith
  import opened Segments

  datatype Level = Low | High
  datatype PinMode = Input | Output

  /** One call into the Arduino pin layer, in the order the driver issues it. */
  datatype Event =
    | ClkMode(mode: PinMode)    // pinMode(clkpin, mode)
    | DataMode(mode: PinMode)   // pinMode(datapin, mode)
    | Clk(level: Level)         // digitalWrite(clkpin, level)
    | Data(level: Level)        // digitalWrite(datapin, level)
    | ReadData(level: Level)    // digitalRead(datapin), with the level it returned
    | BitDelay                  // bitDelay()
    | Delay(ms: nat)            // delay(ms)

  datatype Option<T> = None | Some(value: T)

  /** The level written for a bit: `wr_data & 0x01` nonzero drives HIGH. */
  function LevelOf(bit: int): Level
  {
    if bit == 0 then Low else High
  }

  /** Bit i of the two's-complement pattern of w (division rounds toward minus infinity). */
  function Bit(w: int, i: nat): (b: nat)
    ensures b < 2
  {
    (w / Pow(2, i)) % 2
  }

  /** w shifted right n times by one bit, as writeByte's `wr_data >>= 1` does (arithmetic shift). */
  function Shr(w: int, n: nat): int
    decreases n
  {
    if n == 0 then w else Shr(w / 2, n - 1)
  }

  /** Shifting once more halves the result. */
  lemma {:induction false} ShrSnoc(w: int, n: nat)
    ensures Shr(w, n + 1) == Shr(w, n) / 2
    decreases n
  {
    if n > 0 {
      ShrSnoc(w / 2, n - 1);
    }
  }

  /** n one-bit shifts divide by 2^n, rounding toward minus infinity. */
  lemma {:induction false} ShrIsDiv(w: int, n: nat)
    ensures Shr(w, n) == w / Pow(2, n)
    decreases n
  {
    if n > 0 {
      ShrIsDiv(w / 2, n - 1);
      DivModNested(w, 2, Pow(2, n - 1));
    }
  }

  /** start(): both lines high, then data falls while clk is high, then clk falls. */
  function StartEvents(): (ev: seq<Event>)
    ensures forall p :: DataEdgeWhileClkHigh(p, ev, Low)
  {
    var ev := [Clk(High), Data(High), Data(Low), Clk(Low)];
    assert forall p :: Run(p, ev[..2]) == Pins(High, High, p.dataMode) by {
      assert ev[..2] == [Clk(High), Data(High)];
      forall p {
        RunPair(p, Clk(High), Data(High));
      }
    }
    assert ev[2] == Data(Low);
    ev
  }

  /** stop(): both lines low, then clk rises, then data rises while clk is high. */
  function StopEvents(): (ev: seq<Event>)
    ensures forall p :: DataEdgeWhileClkHigh(p, ev, High)
  {
    var ev := [Clk(Low), Data(Low), Clk(High), Data(High)];
    assert forall p :: Run(p, ev[..3]) == Pins(High, Low, p.dataMode) by {
      assert ev[..3] == [Clk(Low), Data(Low)] + [Clk(High)];
      forall p ensures Run(p, ev[..3]) == Pins(High, Low, p.dataMode) {
        RunPair(p, Clk(Low), Data(Low));
        RunAround(p, [Clk(Low), Data(Low)], Clk(High), []);
        assert [Clk(Low), Data(Low)] + [Clk(High)] + [] == [Clk(Low), Data(Low)] + [Clk(High)];
      }
    }
    assert ev[3] == Data(High);
    ev
  }

  /**
   * The first loop of writeByte run for n rounds on w: clk LOW, data = w & 1, clk HIGH,
   * with w shifted right by one between rounds.
   */
  function ShiftOutEvents(w: int, n: nat): (ev: seq<Event>)
    ensures |ev| == 3 * n
    decreases n
  {
    if n == 0 then []
    else [Clk(Low), Data(LevelOf(w % 2)), Clk(High)] + ShiftOutEvents(w / 2, n - 1)
  }

  /**
   * The acknowledge phase of writeByte, given the level the display drove when sampled:
   * the data line is re-driven LOW only on an acknowledge (LOW), and set to OUTPUT in every case.
   */
  function AckEvents(ack: Level): (ev: seq<Event>)
    ensures ReadData(ack) in ev
    ensures Data(Low) in ev <==> ack == Low
  {
    [Clk(Low), Data(High), Clk(High), DataMode(Input), BitDelay, ReadData(ack)]
    + (if ack == Low then [DataMode(Output), Data(Low)] else [])
    + [BitDelay, DataMode(Output), BitDelay]
  }

  /** writeByte(w) when the display answers ack: a round per bit of w, then the acknowledge phase. */
  function ByteEvents(w: Int8, ack: Level): (ev: seq<Event>)
    ensures |ev| == 24 + |AckEvents(ack)|
  {
    BitRounds(LowBits(w, 8), ack)
  }

  /** The low n bits of w, least significant first. */
  function LowBits(w: int, n: nat): (bits: seq<nat>)
    ensures |bits| == n
  {
    seq(n, i requires 0 <= i < n => Bit(w, i))
  }

  /** One clock round per bit (clk LOW, data = the bit, clk HIGH), then the acknowledge phase. */
  function BitRounds(bits: seq<nat>, ack: Level): (ev: seq<Event>)
    ensures |ev| == 3 * |bits| + |AckEvents(ack)|
    decreases |bits|
  {
    if |bits| == 0 then AckEvents(ack)
    else [Clk(Low), Data(LevelOf(bits[0])), Clk(High)] + BitRounds(bits[1..], ack)
  }

  /** The bits above the lowest are the low bits of w / 2. */
  lemma LowBitsTail(w: int, n: nat)
    requires n > 0
    ensures LowBits(w, n)[0] == w % 2
    ensures LowBits(w, n)[1..] == LowBits(w / 2, n - 1)
  {
    forall i | 0 <= i < n - 1
      ensures LowBits(w, n)[1..][i] == LowBits(w / 2, n - 1)[i]
    {
      DivModNested(w, 2, Pow(2, i));
    }
  }

  /** The rounds of the low n bits are the first n rounds of writeByte's loop, then the acknowledge phase. */
  lemma {:induction false} BitRoundsParts(w: int, ack: Level, n: nat)
    ensures BitRounds(LowBits(w, n), ack) == ShiftOutEvents(w, n) + AckEvents(ack)
    decreases n
  {
    if n > 0 {
      var round := [Clk(Low), Data(LevelOf(w % 2)), Clk(High)];
      LowBitsTail(w, n);
      assert BitRounds(LowBits(w, n), ack) == round + BitRounds(LowBits(w / 2, n - 1), ack);
      BitRoundsParts(w / 2, ack, n - 1);
      Assoc(round, ShiftOutEvents(w / 2, n - 1), AckEvents(ack));
    }
  }

  /** writeByte(w) is the shift-out loop over all eight bits, then the acknowledge phase. */
  lemma ByteEventsParts(w: Int8, ack: Level)
    ensures ByteEvents(w, ack) == ShiftOutEvents(w, 8) + AckEvents(ack)
  {
    BitRoundsParts(w, ack, 8);
  }

  /** Consecutive writeByte calls; the n-th byte since construction is answered with ackOf(n). */
  function TransferEvents(bytes: seq<Int8>, ackOf: nat -> Level, from: nat): seq<Event>
  {
    if |bytes| == 0 then []
    else ByteEvents(bytes[0], ackOf(from)) + TransferEvents(bytes[1..], ackOf, from + 1)
  }

  /** start(), the bytes of one command with no stop between them, stop(). */
  function FrameEvents(bytes: seq<Int8>, ackOf: nat -> Level, from: nat): seq<Event>
  {
    StartEvents() + TransferEvents(bytes, ackOf, from) + StopEvents()
  }

  /** How many of the n bytes from the from-th on the display answers LOW. */
  function LowAnswers(ackOf: nat -> Level, from: nat, n: nat): (k: nat)
    ensures k <= n
    decreases n
  {
    if n == 0 then 0 else (if ackOf(from) == Low then 1 else 0) + LowAnswers(ackOf, from + 1, n - 1)
  }

  /** Each byte of a transfer takes 33 events, or 35 when the display answered LOW. */
  lemma {:induction false} TransferLength(bytes: seq<Int8>, ackOf: nat -> Level, from: nat)
    ensures |TransferEvents(bytes, ackOf, from)| == 33 * |bytes| + 2 * LowAnswers(ackOf, from, |bytes|)
    ensures 33 * |bytes| <= |TransferEvents(bytes, ackOf, from)| <= 35 * |bytes|
    decreases |bytes|
  {
    if |bytes| != 0 {
      TransferLength(bytes[1..], ackOf, from + 1);
      assert |AckEvents(ackOf(from))| == if ackOf(from) == Low then 11 else 9;
    }
  }

  /** A frame opens with the start condition, closes with the stop condition, and holds its bytes between. */
  lemma FrameBrackets(bytes: seq<Int8>, ackOf: nat -> Level, from: nat)
    ensures 8 + 33 * |bytes| <= |FrameEvents(bytes, ackOf, from)| <= 8 + 35 * |bytes|
    ensures FrameEvents(bytes, ackOf, from)[..4] == StartEvents()
    ensures FrameEvents(bytes, ackOf, from)[|FrameEvents(bytes, ackOf, from)| - 4..] == StopEvents()
  {
    var ev := FrameEvents(bytes, ackOf, from);
    var mid := TransferEvents(bytes, ackOf, from);
    TransferLength(bytes, ackOf, from);
    assert ev == StartEvents() + mid + StopEvents();
    assert |StartEvents()| == 4 && |StopEvents()| == 4;
    assert ev[..4] == StartEvents();
    assert ev[|ev| - 4..] == StopEvents();
  }

  /** Frames sent one after another. */
  function FramesEvents(frames: seq<seq<Int8>>, ackOf: nat -> Level, from: nat): seq<Event>
  {
    if |frames| == 0 then []
    else FrameEvents(frames[0], ackOf, from) + FramesEvents(frames[1..], ackOf, from + |frames[0]|)
  }

  // ---------------------------------------------------------------------------------------
  // Bit order.

  /** Round i of writeByte's loop sends bit i of the argument: bytes go out LSB first. */
  lemma {:induction false} ShiftOutBitOrder(w: int, n: nat, i: nat)
    requires i < n
    decreases i
    ensures ShiftOutEvents(w, n)[3 * i] == Clk(Low)
    ensures ShiftOutEvents(w, n)[3 * i + 1] == Data(LevelOf(Bit(w, i)))
    ensures ShiftOutEvents(w, n)[3 * i + 2] == Clk(High)
  {
    if i > 0 {
      ShiftOutBitOrder(w / 2, n - 1, i - 1);
      DivModNested(w, 2, Pow(2, i - 1));
    }
  }

  /** One more round of writeByte's loop appends the round for bit i. */
  lemma {:induction false} ShiftOutSnoc(w: int, i: nat)
    ensures ShiftOutEvents(w, i + 1) == ShiftOutEvents(w, i) + [Clk(Low), Data(LevelOf(Bit(w, i))), Clk(High)]
    decreases i
  {
    if i == 0 {
      assert ShiftOutEvents(w / 2, 0) == [];
    } else {
      var first := [Clk(Low), Data(LevelOf(w % 2)), Clk(High)];
      var last := [Clk(Low), Data(LevelOf(Bit(w, i))), Clk(High)];
      assert Bit(w / 2, i - 1) == Bit(w, i) by {
        DivModNested(w, 2, Pow(2, i - 1));
      }
      ShiftOutSnoc(w / 2, i - 1);
      assert first + (ShiftOutEvents(w / 2, i - 1) + last) == first + ShiftOutEvents(w / 2, i - 1) + last;
    }
  }

  /** writeByte(w): bit i of w is on the data line at the i-th rising clock edge, i = 0..7. */
  lemma ByteBitOrder(w: Int8, ack: Level, i: nat)
    requires i < 8
    ensures ByteEvents(w, ack)[3 * i] == Clk(Low)
    ensures ByteEvents(w, ack)[3 * i + 1] == Data(LevelOf(Bit(w, i)))
    ensures ByteEvents(w, ack)[3 * i + 2] == Clk(High)
  {
    ByteEventsParts(w, ack);
    ShiftOutBitOrder(w, 8, i);
  }

  // ---------------------------------------------------------------------------------------
  // The receiving side: what the display latches.

  /**
   * The value read from n bit rounds laid out as writeByte lays them out (clk LOW, data, clk HIGH):
   * the data event of round i weighs 2^i. It reads those fixed offsets and does not look at the
   * clock events; RisingEdgeHoldsBit shows that in writeByte's events each such data event is the
   * level on the line at its round's rising clock edge.
   */
  function Latched(ev: seq<Event>, n: nat): (v: nat)
    requires |ev| >= 3 * n
    ensures v < Pow(2, n)
  {
    if n == 0 then 0
    else (if ev[1] == Data(High) then 1 else 0) + 2 * Latched(ev[3..], n - 1)
  }

  /** Latching only looks at the first n rounds. */
  lemma {:induction false} LatchedPrefix(a: seq<Event>, b: seq<Event>, n: nat)
    requires |a| >= 3 * n
    ensures Latched(a + b, n) == Latched(a, n)
  {
    if n > 0 {
      assert (a + b)[3..] == a[3..] + b;
      LatchedPrefix(a[3..], b, n - 1);
    }
  }

  /** The receiver recovers the low n bits of what was shifted out. */
  lemma {:induction false} ShiftOutRoundTrip(w: int, n: nat)
    ensures Latched(ShiftOutEvents(w, n), n) == w % Pow(2, n)
    decreases n
  {
    if n > 0 {
      var ev := ShiftOutEvents(w, n);
      assert ev[3..] == ShiftOutEvents(w / 2, n - 1);
      ShiftOutRoundTrip(w / 2, n - 1);
      DivModNested(w, 2, Pow(2, n - 1));
    }
  }

  /** What writeByte(w) puts on the bus latches back as the 8-bit pattern of w, whatever the ack. */
  lemma ByteRoundTrip(w: Int8, ack: Level)
    ensures Latched(ByteEvents(w, ack), 8) == ToByte(w)
  {
    RoundsRoundTrip(w, ack, 8);
    assert Pow(2, 8) == 256;
    assert ToByte(w) == w % 256;
  }

  /** The receiver recovers the low n bits from their rounds, whatever follows them. */
  lemma RoundsRoundTrip(w: int, ack: Level, n: nat)
    ensures Latched(BitRounds(LowBits(w, n), ack), n) == w % Pow(2, n)
  {
    BitRoundsParts(w, ack, n);
    ShiftOutRoundTrip(w, n);
    LatchedPrefix(ShiftOutEvents(w, n), AckEvents(ack), n);
  }

  /**
   * The bytes of one frame, read up to and including its stop; returns them and what follows.
   * It relies on writeByte's layout: 24 events of bit rounds, then an acknowledge phase of 11
   * events when the level read was LOW and 9 otherwise.
   */
  function DecodeBody(ev: seq<Event>): (r: Option<(seq<Byte>, seq<Event>)>)
    ensures r.Some? ==> |r.value.1| + 4 <= |ev|
    decreases |ev|
  {
    if |ev| >= 4 && ev[..4] == StopEvents() then Some(([], ev[4..]))
    else if |ev| < 33 then None
    else
      var k := if ev[29] == ReadData(Low) then 35 else 33;
      if |ev| < k then None
      else
        match DecodeBody(ev[k..])
        case None => None
        case Some(rest) => Some(([Latched(ev, 8)] + rest.0, rest.1))
  }

  /** The frames on the bus, each as its bytes; delays between frames are skipped. */
  function DecodeFrames(ev: seq<Event>): Option<seq<seq<Byte>>>
    decreases |ev|
  {
    if |ev| == 0 then Some([])
    else if ev[0].Delay? then DecodeFrames(ev[1..])
    else if |ev| < 4 || ev[..4] != StartEvents() then None
    else
      match DecodeBody(ev[4..])
      case None => None
      case Some(body) =>
        match DecodeFrames(body.1)
        case None => None
        case Some(frames) => Some([body.0] + frames)
  }

  /** The 8-bit patterns of a frame's bytes. */
  function ToBytes(frame: seq<Int8>): seq<Byte>
  {
    seq(|frame|, i requires 0 <= i < |frame| => ToByte(frame[i]))
  }

  /** The 8-bit patterns of every frame. */
  function FramesBytes(frames: seq<seq<Int8>>): seq<seq<Byte>>
  {
    seq(|frames|, i requires 0 <= i < |frames| => ToBytes(frames[i]))
  }

  /** x in front of the list r holds, or failure when r failed. */
  function Prepend<T>(x: T, r: Option<seq<T>>): Option<seq<T>>
  {
    match r
    case None => None
    case Some(xs) => Some([x] + xs)
  }

  /** One writeByte in front of more events reads back as its byte, then whatever the rest reads as. */
  lemma DecodeByteThen(w: Int8, ack: Level, rest: seq<Event>)
    ensures DecodeBody(ByteEvents(w, ack) + rest)
            == match DecodeBody(rest)
               case None => None
               case Some(r) => Some(([ToByte(w)] + r.0, r.1))
  {
    var first := ByteEvents(w, ack);
    var ev := first + rest;
    ByteEventsParts(w, ack);
    ShiftOutBitOrder(w, 8, 1);
    assert ev[..4] != StopEvents() by {
      assert ev[..4][3] == first[3] == Clk(Low);
    }
    assert ev[29] == first[29] == ReadData(ack);
    assert ev[|first|..] == rest;
    ByteRoundTrip(w, ack);
    LatchedPrefix(first, rest, 8);
  }

  /** A stop ends the frame and leaves the events after it unread. */
  lemma DecodeStopThen(tail: seq<Event>)
    ensures DecodeBody(StopEvents() + tail) == Some(([], tail))
  {
    var ev := StopEvents() + tail;
    assert ev[..4] == StopEvents();
    assert ev[4..] == tail;
  }

  lemma TransferCons(bytes: seq<Int8>, ackOf: nat -> Level, from: nat, tail: seq<Event>)
    requires bytes != []
    ensures TransferEvents(bytes, ackOf, from) + StopEvents() + tail
            == ByteEvents(bytes[0], ackOf(from)) + (TransferEvents(bytes[1..], ackOf, from + 1) + StopEvents() + tail)
  {
  }

  lemma ToBytesCons(bytes: seq<Int8>)
    requires bytes != []
    ensures ToBytes(bytes) == [ToByte(bytes[0])] + ToBytes(bytes[1..])
  {
  }

  /** The byte transfers of a frame and its stop read back as exactly those bytes. */
  lemma {:induction false} DecodeTransfers(bytes: seq<Int8>, ackOf: nat -> Level, from: nat, tail: seq<Event>)
    ensures DecodeBody(TransferEvents(bytes, ackOf, from) + StopEvents() + tail) == Some((ToBytes(bytes), tail))
    decreases |bytes|
  {
    if bytes == [] {
      assert TransferEvents(bytes, ackOf, from) + StopEvents() + tail == StopEvents() + tail;
      DecodeStopThen(tail);
      assert ToBytes(bytes) == [];
    } else {
      var rest := TransferEvents(bytes[1..], ackOf, from + 1) + StopEvents() + tail;
      TransferCons(bytes, ackOf, from, tail);
      DecodeTransfers(bytes[1..], ackOf, from + 1, tail);
      DecodeByteThen(bytes[0], ackOf(from), rest);
      ToBytesCons(bytes);
    }
  }

  /** A frame in front of any events reads back as its bytes, followed by what the rest reads as. */
  lemma DecodeFrameThen(bytes: seq<Int8>, ackOf: nat -> Level, from: nat, tail: seq<Event>)
    ensures DecodeFrames(FrameEvents(bytes, ackOf, from) + tail) == Prepend(ToBytes(bytes), DecodeFrames(tail))
  {
    var ev := FrameEvents(bytes, ackOf, from) + tail;
    assert ev[..4] == StartEvents();
    assert ev[4..] == TransferEvents(bytes, ackOf, from) + StopEvents() + tail;
    DecodeTransfers(bytes, ackOf, from, tail);
  }

  lemma FramesCons(frames: seq<seq<Int8>>, ackOf: nat -> Level, from: nat, tail: seq<Event>)
    requires frames != []
    ensures FramesEvents(frames, ackOf, from) + tail
            == FrameEvents(frames[0], ackOf, from) + (FramesEvents(frames[1..], ackOf, from + |frames[0]|) + tail)
  {
  }

  lemma FramesBytesCons(frames: seq<seq<Int8>>)
    requires frames != []
    ensures FramesBytes(frames) == [ToBytes(frames[0])] + FramesBytes(frames[1..])
  {
  }

  /** xs in front of the frames r holds, or no frames at all when r failed. */
  function AppendTo<T>(xs: seq<T>, r: Option<seq<T>>): Option<seq<T>>
  {
    match r
    case None => None
    case Some(ys) => Some(xs + ys)
  }

  lemma PrependAppend<T>(x: T, xs: seq<T>, r: Option<seq<T>>)
    ensures Prepend(x, AppendTo(xs, r)) == AppendTo([x] + xs, r)
  {
    match r
    case None =>
    case Some(ys) => assert [x] + (xs + ys) == ([x] + xs) + ys;
  }

  lemma AppendNothing<T>(r: Option<seq<T>>)
    ensures AppendTo([], r) == r
  {
    match r
    case None =>
    case Some(ys) => assert [] + ys == ys;
  }

  lemma ChainStep(first: seq<Event>, rest: seq<Event>, frame: seq<Byte>, frames: seq<seq<Byte>>,
                  after: Option<seq<seq<Byte>>>)
    requires DecodeFrames(first + rest) == Prepend(frame, DecodeFrames(rest))
    requires DecodeFrames(rest) == AppendTo(frames, after)
    ensures DecodeFrames(first + rest) == AppendTo([frame] + frames, after)
  {
    PrependAppend(frame, frames, after);
  }

  /** Frames in front of any events read back as their bytes, followed by the rest. */
  lemma {:induction false} DecodeFramesThen(frames: seq<seq<Int8>>, ackOf: nat -> Level, from: nat, tail: seq<Event>)
    ensures DecodeFrames(FramesEvents(frames, ackOf, from) + tail) == AppendTo(FramesBytes(frames), DecodeFrames(tail))
    decreases |frames|
  {
    if frames != [] {
      var first := FrameEvents(frames[0], ackOf, from);
      var rest := FramesEvents(frames[1..], ackOf, from + |frames[0]|) + tail;
      assert DecodeFrames(rest) == AppendTo(FramesBytes(frames[1..]), DecodeFrames(tail)) by {
        DecodeFramesThen(frames[1..], ackOf, from + |frames[0]|, tail);
      }
      assert DecodeFrames(first + rest) == Prepend(ToBytes(frames[0]), DecodeFrames(rest)) by {
        DecodeFrameThen(frames[0], ackOf, from, rest);
      }
      assert FramesEvents(frames, ackOf, from) + tail == first + rest by {
        FramesCons(frames, ackOf, from, tail);
      }
      assert FramesBytes(frames) == [ToBytes(frames[0])] + FramesBytes(frames[1..]) by {
        FramesBytesCons(frames);
      }
      ChainStep(first, rest, ToBytes(frames[0]), FramesBytes(frames[1..]), DecodeFrames(tail));
    } else {
      assert FramesEvents(frames, ackOf, from) + tail == tail;
      assert FramesBytes(frames) == [];
      AppendNothing(DecodeFrames(tail));
    }
  }

  /** Whatever the display answers, the events of a sequence of frames read back as exactly those frames. */
  lemma FramesRoundTrip(frames: seq<seq<Int8>>, ackOf: nat -> Level, from: nat)
    ensures DecodeFrames(FramesEvents(frames, ackOf, from)) == Some(FramesBytes(frames))
  {
    DecodeFramesThen(frames, ackOf, from, []);
    assert FramesEvents(frames, ackOf, from) + [] == FramesEvents(frames, ackOf, from);
    assert DecodeFrames([]) == Some([]);
    assert FramesBytes(frames) + [] == FramesBytes(frames);
  }

  /** Appending one byte to a transfer appends its writeByte events. */
  lemma {:induction false} TransferSnoc(bytes: seq<Int8>, x: Int8, ackOf: nat -> Level, from: nat, n: nat)
    requires n == from + |bytes|
    ensures TransferEvents(bytes + [x], ackOf, from) == TransferEvents(bytes, ackOf, from) + ByteEvents(x, ackOf(n))
    decreases |bytes|
  {
    var last := ByteEvents(x, ackOf(n));
    if |bytes| == 0 {
      assert bytes + [x] == [x] + [];
      TransferPrepend(x, [], ackOf, from);
      assert last + [] == [] + last;
    } else {
      var y, rest := bytes[0], bytes[1..];
      TransferSnoc(rest, x, ackOf, from + 1, n);
      assert bytes == [y] + rest;
      assert bytes + [x] == [y] + (rest + [x]);
      TransferPrepend(y, rest, ackOf, from);
      TransferPrepend(y, rest + [x], ackOf, from);
      Assoc(ByteEvents(y, ackOf(from)), TransferEvents(rest, ackOf, from + 1), last);
    }
  }

  /** A byte in front of a transfer is written first. */
  lemma TransferPrepend(y: Int8, rest: seq<Int8>, ackOf: nat -> Level, from: nat)
    ensures TransferEvents([y] + rest, ackOf, from) == ByteEvents(y, ackOf(from)) + TransferEvents(rest, ackOf, from + 1)
  {
    assert ([y] + rest)[1..] == rest;
  }

  // ---------------------------------------------------------------------------------------
  // Pin levels.

  /** The last level written to each line and the data pin's mode. */
  datatype Pins = Pins(clk: Level, data: Level, dataMode: PinMode)

  /** The pin state after one event. */
  function Apply(p: Pins, e: Event): Pins
  {
    match e
    case Clk(l) => p.(clk := l)
    case Data(l) => p.(data := l)
    case DataMode(m) => p.(dataMode := m)
    case _ => p
  }

  /** The pin state after a sequence of events. */
  function Run(p: Pins, ev: seq<Event>): Pins
    decreases |ev|
  {
    if |ev| == 0 then p else Run(Apply(p, ev[0]), ev[1..])
  }

  /** Running a + b is running a, then b. */
  lemma {:induction false} RunConcat(p: Pins, a: seq<Event>, b: seq<Event>)
    ensures Run(p, a + b) == Run(Run(p, a), b)
    decreases |a|
  {
    if a == [] {
      assert a + b == b;
    } else {
      assert (a + b)[0] == a[0];
      assert (a + b)[1..] == a[1..] + b;
      RunConcat(Apply(p, a[0]), a[1..], b);
    }
  }

  /** Running two events applies them in turn. */
  lemma RunPair(p: Pins, a: Event, b: Event)
    ensures Run(p, [a, b]) == Apply(Apply(p, a), b)
  {
    assert [a, b][1..] == [b];
    assert Run(p, [a, b]) == Run(Apply(p, a), [b]);
    assert [b][1..] == [];
    assert Run(Apply(p, a), [b]) == Run(Apply(Apply(p, a), b), []);
  }

  /** Running a + [e] + b is running a, applying e, then running b. */
  lemma RunAround(p: Pins, a: seq<Event>, e: Event, b: seq<Event>)
    ensures Run(p, a + [e] + b) == Run(Apply(Run(p, a), e), b)
  {
    RunConcat(p, a + [e], b);
    RunConcat(p, a, [e]);
    assert [e][1..] == [];
  }

  /** Events that do not write the clock line leave its level alone. */
  lemma {:induction false} RunKeepsClk(p: Pins, ev: seq<Event>)
    requires forall i :: 0 <= i < |ev| ==> !ev[i].Clk?
    ensures Run(p, ev).clk == p.clk
    decreases |ev|
  {
    if ev != [] {
      RunKeepsClk(Apply(p, ev[0]), ev[1..]);
    }
  }

  /** Events that do not set the data pin's mode leave it alone. */
  lemma {:induction false} RunKeepsMode(p: Pins, ev: seq<Event>)
    requires forall i :: 0 <= i < |ev| ==> !ev[i].DataMode?
    ensures Run(p, ev).dataMode == p.dataMode
    decreases |ev|
  {
    if ev != [] {
      RunKeepsMode(Apply(p, ev[0]), ev[1..]);
    }
  }

  /**
   * The data line is driven to `to` at a moment when the clock line is HIGH and the data line
   * is not already at `to`: with `to` LOW the start condition, with `to` HIGH the stop condition.
   */
  predicate DataEdgeWhileClkHigh(p: Pins, ev: seq<Event>, to: Level)
  {
    exists j :: 0 <= j < |ev| && ev[j] == Data(to) && Run(p, ev[..j]).clk == High && Run(p, ev[..j]).data != to
  }

  /** start() leaves both lines low; stop() leaves both high; neither touches the pin mode. */
  lemma StartStopLevels(p: Pins)
    ensures Run(p, StartEvents()) == Pins(Low, Low, p.dataMode)
    ensures Run(p, StopEvents()) == Pins(High, High, p.dataMode)
  {
    assert StartEvents()[1..][1..][1..][1..] == [];
    assert StopEvents()[1..][1..][1..][1..] == [];
  }

  /** The acknowledge phase ends with clk high and the data pin back in OUTPUT mode. */
  lemma AckLeavesOutput(p: Pins, ack: Level)
    ensures Run(p, AckEvents(ack)).dataMode == Output
    ensures Run(p, AckEvents(ack)).clk == High
  {
    var middle := [DataMode(Input), BitDelay, ReadData(ack)]
                  + (if ack == Low then [DataMode(Output), Data(Low)] else [])
                  + [BitDelay, DataMode(Output), BitDelay];
    assert AckEvents(ack) == [Clk(Low), Data(High)] + [Clk(High)] + middle;
    RunAround(p, [Clk(Low), Data(High)], Clk(High), middle);
    RunKeepsClk(Apply(Run(p, [Clk(Low), Data(High)]), Clk(High)), middle);
    var before := [Clk(Low), Data(High), Clk(High), DataMode(Input), BitDelay, ReadData(ack)]
                  + (if ack == Low then [DataMode(Output), Data(Low)] else []) + [BitDelay];
    assert AckEvents(ack) == before + [DataMode(Output)] + [BitDelay];
    RunAround(p, before, DataMode(Output), [BitDelay]);
    assert [BitDelay][1..] == [];
  }

  /** After n > 0 bit rounds the clock line is high and the data pin's mode is unchanged. */
  lemma {:induction false} ShiftOutLeavesClkHigh(p: Pins, w: int, n: nat)
    requires n > 0
    ensures Run(p, ShiftOutEvents(w, n)).clk == High
    ensures Run(p, ShiftOutEvents(w, n)).dataMode == p.dataMode
    decreases n
  {
    var round := [Clk(Low), Data(LevelOf(w % 2))] + [Clk(High)] + [];
    assert ShiftOutEvents(w, n) == round + ShiftOutEvents(w / 2, n - 1);
    RunConcat(p, round, ShiftOutEvents(w / 2, n - 1));
    RunAround(p, [Clk(Low), Data(LevelOf(w % 2))], Clk(High), []);
    RunKeepsMode(p, round);
    if n > 1 {
      ShiftOutLeavesClkHigh(Run(p, round), w / 2, n - 1);
    } else {
      assert ShiftOutEvents(w / 2, n - 1) == [];
    }
  }

  /** writeByte always leaves the data pin in OUTPUT mode and the clock high. */
  lemma ByteLeavesOutput(p: Pins, w: Int8, ack: Level)
    ensures Run(p, ByteEvents(w, ack)).dataMode == Output
    ensures Run(p, ByteEvents(w, ack)).clk == High
  {
    ByteEventsParts(w, ack);
    RunConcat(p, ShiftOutEvents(w, 8), AckEvents(ack));
    AckLeavesOutput(Run(p, ShiftOutEvents(w, 8)), ack);
  }

  /** After byte transfers the data pin is in OUTPUT mode, or is left as it was when none were sent. */
  lemma {:induction false} TransferLeavesOutput(p: Pins, bytes: seq<Int8>, ackOf: nat -> Level, from: nat)
    ensures Run(p, TransferEvents(bytes, ackOf, from)).dataMode
            == if bytes == [] then p.dataMode else Output
    decreases |bytes|
  {
    if bytes != [] {
      var first := ByteEvents(bytes[0], ackOf(from));
      RunConcat(p, first, TransferEvents(bytes[1..], ackOf, from + 1));
      ByteLeavesOutput(p, bytes[0], ackOf(from));
      TransferLeavesOutput(Run(p, first), bytes[1..], ackOf, from + 1);
    }
  }

  /**
   * At the rising clock edge of round i of writeByte the data line carries bit i: the event
   * 3i + 2 raises the clock, and just before it the clock is LOW and the data line holds bit i,
   * whatever the lines were before writeByte.
   */
  lemma RisingEdgeHoldsBit(p: Pins, w: Int8, ack: Level, i: nat)
    requires i < 8
    ensures ByteEvents(w, ack)[3 * i + 2] == Clk(High)
    ensures Run(p, ByteEvents(w, ack)[..3 * i + 2]).clk == Low
    ensures Run(p, ByteEvents(w, ack)[..3 * i + 2]).data == LevelOf(Bit(w, i))
  {
    var ev := ByteEvents(w, ack);
    ByteBitOrder(w, ack, i);
    var round := [ev[3 * i], ev[3 * i + 1]];
    assert ev[..3 * i + 2] == ev[..3 * i] + round;
    RunConcat(p, ev[..3 * i], round);
    RunPair(Run(p, ev[..3 * i]), ev[3 * i], ev[3 * i + 1]);
  }

  /** A frame leaves the bus idle: both lines high, and the data pin driven as an output. */
  lemma FrameLeavesIdle(p: Pins, bytes: seq<Int8>, ackOf: nat -> Level, from: nat)
    requires bytes != [] || p.dataMode == Output
    ensures Run(p, FrameEvents(bytes, ackOf, from)) == Pins(High, High, Output)
  {
    var t := TransferEvents(bytes, ackOf, from);
    RunConcat(p, StartEvents() + t, StopEvents());
    RunConcat(p, StartEvents(), t);
    StartStopLevels(p);
    TransferLeavesOutput(Run(p, StartEvents()), bytes, ackOf, from);
    StartStopLevels(Run(p, StartEvents() + t));
  }
}
