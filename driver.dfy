/**
 * The TM1637 driver object: its configuration fields, the pin calls it makes, and each public
 * member of TM1637.cpp proved against the functions of Bus and Render.
 */
module Driver {
  import opened Arith
  import opened Segments
  import opened Commands
  import opened Bus
  import opened Render

  /** A C uint16_t. */
  type U16 = x: int | 0 <= x < 0x10000

  class TM1637 {
    const clkPin: Byte
    const dataPin: Byte
    /** The level the display drives in the acknowledge slot of the n-th byte written since construction. */
    const ackOf: nat -> Level

    var cmdSetData: Byte
    var cmdSetAddr: Byte
    var cmdDispCtrl: Byte
    /** _PointFlag: light the clock point ":" on the next display. */
    var pointFlag: bool

    /** Every pin call made so far, oldest first. */
    var trace: seq<Event>
    /** The number of writeByte calls made so far. */
    var sent: nat

    /**
     * Records the pins and sets both to OUTPUT. The configuration fields are not initialised:
     * they hold whatever the object's memory held until set and point are called.
     */
    constructor (clk: Byte, data: Byte, ackOf: nat -> Level)
      ensures clkPin == clk && dataPin == data && this.ackOf == ackOf
      ensures trace == [ClkMode(Output), DataMode(Output)] && sent == 0
    {
      clkPin := clk;
      dataPin := data;
      this.ackOf := ackOf;
      trace := [ClkMode(Output)];
      trace := trace + [DataMode(Output)];
      sent := 0;
    }

    /** bitDelay: a pause of fixed length. */
    method BitDelay()
      modifies this`trace
      ensures trace == old(trace) + [Bus.BitDelay]
    {
      trace := trace + [Bus.BitDelay];
    }

    /** start: data falls while clk is high. */
    method Start()
      modifies this`trace
      ensures trace == old(trace) + StartEvents()
    {
      trace := trace + [Clk(High)];
      trace := trace + [Data(High)];
      trace := trace + [Data(Low)];
      trace := trace + [Clk(Low)];
    }

    /** stop: data rises while clk is high. */
    method Stop()
      modifies this`trace
      ensures trace == old(trace) + StopEvents()
    {
      trace := trace + [Clk(Low)];
      trace := trace + [Data(Low)];
      trace := trace + [Clk(High)];
      trace := trace + [Data(High)];
    }

    /**
     * writeByte(wr_data), where sampled is the level digitalRead returns in the acknowledge slot.
     * The bits go out least significant first; the result is the level read, 0 or 1.
     */
    method WriteByte(wrData: Int8, sampled: Level) returns (ack: Byte)
      modifies this`trace, this`sent
      ensures trace == old(trace) + ByteEvents(wrData, sampled)
      ensures sent == old(sent) + 1
      ensures ack == if sampled == Low then 0 else 1
    {
      var w := wrData;
      var i := 0;
      while i < 8
        invariant 0 <= i <= 8
        invariant w == Shr(wrData, i)
        invariant trace == old(trace) + ShiftOutEvents(wrData, i)
        invariant sent == old(sent)
      {
        ghost var before := trace;
        trace := trace + [Clk(Low)];
        if w % 2 != 0 {
          trace := trace + [Data(High)];
        } else {
          trace := trace + [Data(Low)];
        }
        ghost var bit := w % 2;
        ShrSnoc(wrData, i);
        w := w / 2;
        trace := trace + [Clk(High)];
        assert trace == old(trace) + ShiftOutEvents(wrData, i + 1) by {
          RoundStep(old(trace), before, trace, wrData, i, bit);
        }
        i := i + 1;
      }
      ghost var shifted := trace;
      trace := trace + [Clk(Low), Data(High), Clk(High), DataMode(Input)];
      BitDelay();
      trace := trace + [ReadData(sampled)];
      ack := if sampled == Low then 0 else 1;
      ghost var probed := trace;
      if ack == 0 {
        trace := trace + [DataMode(Output), Data(Low)];
      }
      BitDelay();
      trace := trace + [DataMode(Output)];
      BitDelay();
      assert trace == old(trace) + ByteEvents(wrData, sampled) by {
        AckSteps(old(trace), shifted, probed, trace, wrData, sampled);
      }
      sent := sent + 1;
    }

    /** coding(disp_data[]): codes the first four elements in place with the current point flag. */
    method CodeDigits(dispData: array<Int8>)
      requires dispData.Length >= Digits
      modifies dispData
      ensures dispData[..Digits] == CodedAll(old(dispData[..Digits]), pointFlag)
      ensures dispData[Digits..] == old(dispData[Digits..])
    {
      var i := 0;
      while i < Digits
        invariant 0 <= i <= Digits
        invariant dispData[..i] == CodedAll(old(dispData[..i]), pointFlag)
        invariant dispData[i..] == old(dispData[i..])
      {
        dispData[i] := Coding(dispData[i], pointFlag);
        i := i + 1;
      }
    }

    /**
     * display(disp_data[]): the auto-increment data command, the start address with the four
     * coded digits in one frame, and the display control. The caller's array is not written.
     */
    method Display(dispData: array<Int8>)
      requires dispData.Length >= Digits
      modifies this`trace, this`sent
      ensures trace == old(trace) + FramesEvents(DisplayFrames(dispData[..Digits], pointFlag, cmdSetAddr, cmdDispCtrl),
                                                 ackOf, old(sent))
      ensures sent == old(sent) + 7
    {
      var segData := new Int8[Digits];
      var i := 0;
      while i < Digits
        invariant 0 <= i <= Digits
        invariant segData[..i] == dispData[..i]
        modifies segData
      {
        segData[i] := dispData[i];
        i := i + 1;
      }
      assert segData[..] == dispData[..Digits];
      CodeDigits(segData);
      ghost var coded := segData[..];
      assert coded == segData[..Digits] == CodedAll(dispData[..Digits], pointFlag);
      ThreeCommands([AddrAuto], [ToInt8(cmdSetAddr)] + segData[..], [ToInt8(cmdDispCtrl)]);
      assert DisplayFrames(dispData[..Digits], pointFlag, cmdSetAddr, cmdDispCtrl)
             == [[AddrAuto], [ToInt8(cmdSetAddr)] + coded, [ToInt8(cmdDispCtrl)]];
    }

    /**
     * display(bit_addr, disp_data): the fixed-address data command, the address bit_addr | 0xc0
     * with the coded digit, and the display control.
     */
    method DisplayAt(bitAddr: Byte, dispData: Int8)
      modifies this`trace, this`sent
      ensures trace == old(trace) + FramesEvents(PutFrames(bitAddr, dispData, pointFlag, cmdDispCtrl), ackOf, old(sent))
      ensures sent == old(sent) + 4
    {
      var segData := Coding(dispData, pointFlag);
      ThreeCommands([AddrFixed], [ToInt8(FixedAddress(bitAddr)), segData], [ToInt8(cmdDispCtrl)]);
    }

    /** The data command, the address command with its data, and the display control, each as a frame. */
    method ThreeCommands(f0: seq<Int8>, f1: seq<Int8>, f2: seq<Int8>)
      modifies this`trace, this`sent
      ensures trace == old(trace) + FramesEvents([f0, f1, f2], ackOf, old(sent))
      ensures sent == old(sent) + |f0| + |f1| + |f2|
    {
      ghost var t0, s0 := trace, sent;
      Frame(f0);
      ghost var t1, s1 := trace, sent;
      Frame(f1);
      ghost var t2, s2 := trace, sent;
      Frame(f2);
      ThreeChain(t0, t1, t2, trace, f0, f1, f2, ackOf, s0, s1, s2);
    }

    /**
     * start(), one writeByte per byte, stop(): one command frame, as each display function writes
     * out inline.
     */
    method Frame(bytes: seq<Int8>)
      modifies this`trace, this`sent
      ensures trace == old(trace) + FrameEvents(bytes, ackOf, old(sent))
      ensures sent == old(sent) + |bytes|
    {
      ghost var t0, s0 := trace, sent;
      Start();
      ghost var ts := trace;
      var i := 0;
      ghost var done: seq<Int8> := [];
      while i < |bytes|
        invariant 0 <= i <= |bytes|
        invariant done == bytes[..i]
        invariant sent == s0 + |done|
        invariant trace == ts + TransferEvents(done, ackOf, s0)
      {
        ghost var before, n, a := trace, sent, ackOf(sent);
        var ack := WriteByte(bytes[i], ackOf(sent));
        TransferStep(ts, before, trace, done, bytes[i], a, ackOf, s0, n);
        done := done + [bytes[i]];
        i := i + 1;
      }
      ghost var tb := trace;
      Stop();
      assert trace == t0 + FrameEvents(bytes, ackOf, s0) by {
        FrameSteps(t0, ts, tb, trace, bytes, ackOf, s0);
      }
    }

    /** One fixed-address write as a step of a plan: its events follow the plan's so far. */
    method PutStep(ghost plan: seq<Step>, ghost t0: seq<Event>, ghost s0: nat, pos: Byte, v: Int8)
      requires trace == t0 + PlanEvents(plan, pointFlag, cmdDispCtrl, ackOf, s0)
      requires sent == s0 + PlanBytes(plan)
      modifies this`trace, this`sent
      ensures trace == t0 + PlanEvents(plan + [Put(pos, v)], pointFlag, cmdDispCtrl, ackOf, s0)
      ensures sent == s0 + PlanBytes(plan + [Put(pos, v)])
    {
      DisplayAt(pos, v);
      StepEventsCases(Put(pos, v), pointFlag, cmdDispCtrl, ackOf, old(sent));
      PlanStep(t0, old(trace), trace, plan, Put(pos, v), pointFlag, cmdDispCtrl, ackOf, s0, old(sent));
    }

    /** clearDisplay: the blank argument to digits 0, 1, 2 and 3, in that order. */
    method ClearDisplay()
      modifies this`trace, this`sent
      ensures trace == old(trace) + PlanEvents(ClearPlan(), pointFlag, cmdDispCtrl, ackOf, old(sent))
      ensures sent == old(sent) + PlanBytes(ClearPlan())
    {
      ghost var t0, s0 := trace, sent;
      ghost var p0: seq<Step> := [];
      PutStep(p0, t0, s0, 0x00, Blank);
      ghost var p1 := p0 + [Put(0x00, Blank)];
      PutStep(p1, t0, s0, 0x01, Blank);
      ghost var p2 := p1 + [Put(0x01, Blank)];
      PutStep(p2, t0, s0, 0x02, Blank);
      ghost var p3 := p2 + [Put(0x02, Blank)];
      PutStep(p3, t0, s0, 0x03, Blank);
      ClearPlanSteps(p0, p1, p2, p3, p3 + [Put(0x03, Blank)]);
    }

    /** init: clears the display. */
    method Init()
      modifies this`trace, this`sent
      ensures trace == old(trace) + PlanEvents(ClearPlan(), pointFlag, cmdDispCtrl, ackOf, old(sent))
      ensures sent == old(sent) + PlanBytes(ClearPlan())
    {
      ClearDisplay();
    }

    /**
     * set(brightness, set_data, set_addr): stores the three commands for the next display;
     * 0x88 + brightness is kept in a uint8_t. Nothing goes on the bus.
     */
    method Set(brightness: Byte := BrightTypical, setData: Byte := 0x40, setAddr: Byte := StartAddr)
      modifies this`cmdSetData, this`cmdSetAddr, this`cmdDispCtrl
      ensures cmdSetData == setData && cmdSetAddr == setAddr && cmdDispCtrl == DispCtrl(brightness)
      ensures trace == old(trace) && sent == old(sent) && pointFlag == old(pointFlag)
    {
      cmdSetData := setData;
      cmdSetAddr := setAddr;
      cmdDispCtrl := DispCtrl(brightness);
    }

    /** point(PointFlag): whether the next display lights the clock point. Nothing goes on the bus. */
    method Point(pointFlag: bool)
      modifies this`pointFlag
      ensures this.pointFlag == pointFlag
      ensures trace == old(trace) && sent == old(sent)
      ensures cmdSetData == old(cmdSetData) && cmdSetAddr == old(cmdSetAddr) && cmdDispCtrl == old(cmdDispCtrl)
    {
      this.pointFlag := pointFlag;
    }

    /**
     * displayNum from the integer magnitude int(fabs(num) * pow(10, decimal)) on, with negative
     * standing for num < 0: the digit writes of NumPlan with the point flag as it was, and then
     * the point flag set for the next display exactly when decimal is 2.
     */
    method DisplayNum(magnitude: nat, negative: bool, decimal: int := 0, showMinus: bool := true)
      modifies this`trace, this`sent, this`pointFlag
      ensures trace == old(trace) + PlanEvents(NumPlan(magnitude, showMinus && negative), old(pointFlag),
                                               cmdDispCtrl, ackOf, old(sent))
      ensures sent == old(sent) + PlanBytes(NumPlan(magnitude, showMinus && negative))
      ensures pointFlag == (decimal == 2)
    {
      ghost var t0, s0 := trace, sent;
      var rounds := if showMinus && negative then Digits - 1 else Digits;
      NumberDigits(magnitude, rounds);
      ghost var plan := DigitWrites(magnitude, rounds);
      NumPlanEnd(magnitude, showMinus && negative, plan);
      if showMinus && negative {
        PutStep(plan, t0, s0, 0, '-' as int);
      }
      if decimal == 2 {
        Point(true);
      } else {
        Point(false);
      }
    }

    /** displayNum's loop: rounds digits from the right, each the last digit left or blank once none is. */
    method NumberDigits(magnitude: nat, rounds: nat)
      requires rounds <= Digits
      modifies this`trace, this`sent
      ensures trace == old(trace) + PlanEvents(DigitWrites(magnitude, rounds), pointFlag, cmdDispCtrl, ackOf, old(sent))
      ensures sent == old(sent) + PlanBytes(DigitWrites(magnitude, rounds))
    {
      ghost var t0, s0 := trace, sent;
      ghost var plan: seq<Step> := [];
      var number := magnitude;
      var i := 0;
      while i < rounds
        invariant 0 <= i <= rounds
        invariant number == DropDigits(magnitude, i)
        invariant plan == DigitWrites(magnitude, i)
        invariant trace == t0 + PlanEvents(plan, pointFlag, cmdDispCtrl, ackOf, s0)
        invariant sent == s0 + PlanBytes(plan)
      {
        var j := Digits - i - 1;
        ghost var v: Int8;
        if number != 0 {
          PutStep(plan, t0, s0, j, number % 10);
          v := number % 10;
        } else {
          PutStep(plan, t0, s0, j, Blank);
          v := Blank;
        }
        var number' := number / 10;
        ghost var plan' := plan + [Put(j, v)];
        NumRound(magnitude, i, number, plan, j, v, number', plan');
        plan := plan';
        number := number';
        i := i + 1;
      }
    }

    /**
     * displayStr(str, loop_delay): the writes and delays of StrPlan. Characters are C chars,
     * which are signed bytes on this platform.
     */
    method DisplayStr(str: seq<Int8>, loopDelay: U16 := 500)
      modifies this`trace, this`sent
      ensures trace == old(trace) + PlanEvents(StrPlan(str, loopDelay), pointFlag, cmdDispCtrl, ackOf, old(sent))
      ensures sent == old(sent) + PlanBytes(StrPlan(str, loopDelay))
    {
      ghost var t0, s0 := trace, sent;
      StrLoop(str, loopDelay);
      ghost var plan := StrRounds(str, |str|, loopDelay);
      ghost var rounds := plan;
      if |str| < Digits {
        BlankWrites(plan, t0, s0, |str|);
        plan := plan + Blanking(|str|, Digits);
      }
      StrPlanEnd(str, loopDelay, rounds, plan);
    }

    /** displayStr's first loop: one round per character of the string. */
    method StrLoop(str: seq<Int8>, loopDelay: U16)
      modifies this`trace, this`sent
      ensures trace == old(trace) + PlanEvents(StrRounds(str, |str|, loopDelay), pointFlag, cmdDispCtrl, ackOf, old(sent))
      ensures sent == old(sent) + PlanBytes(StrRounds(str, |str|, loopDelay))
    {
      ghost var t0, s0 := trace, sent;
      assert t0 == t0 + PlanEvents(StrRounds(str, 0, loopDelay), pointFlag, cmdDispCtrl, ackOf, s0);
      var i := 0;
      while i < |str|
        invariant 0 <= i <= |str|
        invariant trace == t0 + PlanEvents(StrRounds(str, i, loopDelay), pointFlag, cmdDispCtrl, ackOf, s0)
        invariant sent == s0 + PlanBytes(StrRounds(str, i, loopDelay))
      {
        StrRoundWrites(StrRounds(str, i, loopDelay), t0, s0, str, i, loopDelay);
        StrRoundsSnoc(str, i, loopDelay, StrRounds(str, i, loopDelay));
        i := i + 1;
      }
    }

    /** Round i of displayStr's first loop: character i to digit i, or a delay and the window ending at it. */
    method StrRoundWrites(ghost plan: seq<Step>, ghost t0: seq<Event>, ghost s0: nat, str: seq<Int8>, i: nat,
                          loopDelay: U16)
      requires i < |str|
      requires trace == t0 + PlanEvents(plan, pointFlag, cmdDispCtrl, ackOf, s0)
      requires sent == s0 + PlanBytes(plan)
      modifies this`trace, this`sent
      ensures trace == t0 + PlanEvents(plan + StrRound(str, i, loopDelay), pointFlag, cmdDispCtrl, ackOf, s0)
      ensures sent == s0 + PlanBytes(plan + StrRound(str, i, loopDelay))
    {
      if i + 1 > Digits {
        WaitStep(plan, t0, s0, loopDelay);
        WindowWrites(plan + [Wait(loopDelay)], t0, s0, str, i);
        Assoc(plan, [Wait(loopDelay)], Writes(str[i + 1 - Digits..i + 1], Digits));
      } else {
        PutStep(plan, t0, s0, i, str[i]);
      }
    }

    /** displayStr's inner loop in round i: the window of four characters ending at character i. */
    method WindowWrites(ghost plan: seq<Step>, ghost t0: seq<Event>, ghost s0: nat, str: seq<Int8>, i: nat)
      requires Digits <= i < |str|
      requires trace == t0 + PlanEvents(plan, pointFlag, cmdDispCtrl, ackOf, s0)
      requires sent == s0 + PlanBytes(plan)
      modifies this`trace, this`sent
      ensures trace == t0 + PlanEvents(plan + Writes(str[i + 1 - Digits..i + 1], Digits), pointFlag, cmdDispCtrl,
                                       ackOf, s0)
      ensures sent == s0 + PlanBytes(plan + Writes(str[i + 1 - Digits..i + 1], Digits))
    {
      ghost var window := str[i + 1 - Digits..i + 1];
      ghost var done := plan;
      assert Writes(window, 0) == [] && plan + [] == plan;
      var d := 0;
      while d < Digits
        invariant 0 <= d <= Digits
        invariant done == plan + Writes(window, d)
        invariant trace == t0 + PlanEvents(done, pointFlag, cmdDispCtrl, ackOf, s0)
        invariant sent == s0 + PlanBytes(done)
      {
        PutStep(done, t0, s0, d, str[d + i + 1 - Digits]);
        WindowStep(str, i, d, plan, done);
        done := done + [Put(d, str[d + i + 1 - Digits])];
        d := d + 1;
      }
    }

    /** displayStr's second loop: the blank argument to digits from..3. */
    method BlankWrites(ghost plan: seq<Step>, ghost t0: seq<Event>, ghost s0: nat, from: nat)
      requires from < Digits
      requires trace == t0 + PlanEvents(plan, pointFlag, cmdDispCtrl, ackOf, s0)
      requires sent == s0 + PlanBytes(plan)
      modifies this`trace, this`sent
      ensures trace == t0 + PlanEvents(plan + Blanking(from, Digits), pointFlag, cmdDispCtrl, ackOf, s0)
      ensures sent == s0 + PlanBytes(plan + Blanking(from, Digits))
    {
      ghost var done := plan;
      assert Blanking(from, from) == [] && plan + [] == plan;
      var i := from;
      while i < Digits
        invariant from <= i <= Digits
        invariant done == plan + Blanking(from, i)
        invariant trace == t0 + PlanEvents(done, pointFlag, cmdDispCtrl, ackOf, s0)
        invariant sent == s0 + PlanBytes(done)
      {
        PutStep(done, t0, s0, i, Blank);
        BlankingStep(from, i, plan, done);
        done := done + [Put(i, Blank)];
        i := i + 1;
      }
    }

    /** delay(ms) as a step of a plan: its event follows the plan's so far. */
    method WaitStep(ghost plan: seq<Step>, ghost t0: seq<Event>, ghost s0: nat, ms: U16)
      requires trace == t0 + PlanEvents(plan, pointFlag, cmdDispCtrl, ackOf, s0)
      requires sent == s0 + PlanBytes(plan)
      modifies this`trace
      ensures trace == t0 + PlanEvents(plan + [Wait(ms)], pointFlag, cmdDispCtrl, ackOf, s0)
      ensures sent == s0 + PlanBytes(plan + [Wait(ms)])
    {
      trace := trace + [Delay(ms)];
      StepEventsCases(Wait(ms), pointFlag, cmdDispCtrl, ackOf, sent);
      PlanStep(t0, old(trace), trace, plan, Wait(ms), pointFlag, cmdDispCtrl, ackOf, s0, sent);
    }
  }

  /** One round of writeByte's loop extends the bit rounds made so far. */
  lemma RoundStep(t0: seq<Event>, before: seq<Event>, t: seq<Event>, w: Int8, i: nat, bit: int)
    requires before == t0 + ShiftOutEvents(w, i)
    requires bit == Shr(w, i) % 2
    requires t == before + [Clk(Low)] + [Data(if bit != 0 then High else Low)] + [Clk(High)]
    ensures t == t0 + ShiftOutEvents(w, i + 1)
  {
    ShiftOutSnoc(w, i);
    ShrIsDiv(w, i);
  }

  /** The pin calls of writeByte, as made, are ByteEvents. */
  lemma AckSteps(t0: seq<Event>, shifted: seq<Event>, probed: seq<Event>, t: seq<Event>, w: Int8, sampled: Level)
    requires shifted == t0 + ShiftOutEvents(w, 8)
    requires probed == shifted + [Clk(Low), Data(High), Clk(High), DataMode(Input)] + [Bus.BitDelay] + [ReadData(sampled)]
    requires t == probed + (if sampled == Low then [DataMode(Output), Data(Low)] else [])
                  + [Bus.BitDelay] + [DataMode(Output)] + [Bus.BitDelay]
    ensures t == t0 + ByteEvents(w, sampled)
  {
    ByteEventsParts(w, sampled);
    var probe := [Clk(Low), Data(High), Clk(High), DataMode(Input), Bus.BitDelay, ReadData(sampled)];
    var answer := if sampled == Low then [DataMode(Output), Data(Low)] else [];
    var release := [Bus.BitDelay, DataMode(Output), Bus.BitDelay];
    assert probed == shifted + probe;
    assert t == shifted + probe + answer + release;
    assert AckEvents(sampled) == probe + answer + release;
    Assoc(shifted, probe + answer, release);
    Assoc(shifted, probe, answer);
    Assoc(t0, ShiftOutEvents(w, 8), AckEvents(sampled));
  }

  /** A plan carried out so far, followed by the events of one more step, is the longer plan carried out. */
  lemma PlanStep(t0: seq<Event>, before: seq<Event>, after: seq<Event>, plan: seq<Step>, st: Step,
                 pointOn: bool, ctrl: Byte, ackOf: nat -> Level, s0: nat, s: nat)
    requires before == t0 + PlanEvents(plan, pointOn, ctrl, ackOf, s0)
    requires s == s0 + PlanBytes(plan)
    requires after == before + StepEvents(st, pointOn, ctrl, ackOf, s)
    ensures after == t0 + PlanEvents(plan + [st], pointOn, ctrl, ackOf, s0)
    ensures s + StepBytes(st) == s0 + PlanBytes(plan + [st])
  {
    PlanEventsSnoc(plan, st, pointOn, ctrl, ackOf, s0);
    Assoc(t0, PlanEvents(plan, pointOn, ctrl, ackOf, s0), StepEvents(st, pointOn, ctrl, ackOf, s));
  }

  /** One more writeByte call extends the bytes written so far in a frame. */
  lemma TransferStep(ts: seq<Event>, before: seq<Event>, after: seq<Event>, xs: seq<Int8>, x: Int8, a: Level,
                     ackOf: nat -> Level, s0: nat, n: nat)
    requires n == s0 + |xs| && a == ackOf(n)
    requires before == ts + TransferEvents(xs, ackOf, s0)
    requires after == before + ByteEvents(x, a)
    ensures after == ts + TransferEvents(xs + [x], ackOf, s0)
  {
    TransferSnoc(xs, x, ackOf, s0, n);
    Assoc(ts, TransferEvents(xs, ackOf, s0), ByteEvents(x, a));
  }

  /** start(), all the bytes, stop(): the frame of those bytes. */
  lemma FrameSteps(t0: seq<Event>, ts: seq<Event>, tb: seq<Event>, t: seq<Event>, bytes: seq<Int8>,
                   ackOf: nat -> Level, s0: nat)
    requires ts == t0 + StartEvents()
    requires tb == ts + TransferEvents(bytes[..|bytes|], ackOf, s0)
    requires t == tb + StopEvents()
    ensures t == t0 + FrameEvents(bytes, ackOf, s0)
  {
    assert bytes[..|bytes|] == bytes;
    Assoc(t0, StartEvents() + TransferEvents(bytes, ackOf, s0), StopEvents());
    Assoc(t0, StartEvents(), TransferEvents(bytes, ackOf, s0));
  }

  /** Three frames sent one after another. */
  lemma ThreeChain(t0: seq<Event>, t1: seq<Event>, t2: seq<Event>, t: seq<Event>,
                   f0: seq<Int8>, f1: seq<Int8>, f2: seq<Int8>, ackOf: nat -> Level, s0: nat, s1: nat, s2: nat)
    requires s1 == s0 + |f0| && s2 == s1 + |f1|
    requires t1 == t0 + FrameEvents(f0, ackOf, s0)
    requires t2 == t1 + FrameEvents(f1, ackOf, s1)
    requires t == t2 + FrameEvents(f2, ackOf, s2)
    ensures t == t0 + FramesEvents([f0, f1, f2], ackOf, s0)
  {
    var e0, e1, e2 := FrameEvents(f0, ackOf, s0), FrameEvents(f1, ackOf, s1), FrameEvents(f2, ackOf, s2);
    ThreeFrames(f0, f1, f2, ackOf, s0, s1, s2);
    Assoc(t0, e0 + e1, e2);
    Assoc(t0, e0, e1);
  }
}
