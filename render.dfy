/**
 * What the rendering routines of TM1637.cpp write, as plans of steps: clearDisplay, displayNum
 * and displayStr only ever call the fixed-address display(bit_addr, disp_data) and delay.
 * A plan determines the frames on the bus and the argument each digit was last given.
 */
module Render {
  import opened Arith
  import opened Segments
  import opened Commands
  import opened Bus

  /** One call made by a rendering routine: display(pos, value), or delay(ms). */
  datatype Step = Put(pos: Byte, value: Int8) | Wait(ms: nat)

  // ---------------------------------------------------------------------------------------
  // The frames of the two display overloads.

  /** display(bit_addr, disp_data): data command, address and glyph, display control. */
  function PutFrames(pos: Byte, v: Int8, pointOn: bool, ctrl: Byte): (r: seq<seq<Int8>>)
    ensures |r| == 3 && |r[0]| == 1 && |r[1]| == 2 && |r[2]| == 1
  {
    [[AddrFixed], [ToInt8(FixedAddress(pos)), Coding(v, pointOn)], [ToInt8(ctrl)]]
  }

  /**
   * On the wire display(bit_addr, disp_data) is 0x44; then 0xc0 plus the low six bits of bit_addr
   * and the glyph, with bit 7 set exactly when the point is on; then the display-control byte.
   */
  lemma PutFramesBytes(pos: Byte, v: Int8, pointOn: bool, ctrl: Byte)
    ensures FramesBytes(PutFrames(pos, v, pointOn, ctrl))
            == [[0x44], [StartAddr + pos % 0x40, Glyph(v) + (if pointOn then 0x80 else 0)], [ctrl]]
  {
    var f := PutFrames(pos, v, pointOn, ctrl);
    assert ToBytes(f[0]) == [0x44];
    assert ToBytes(f[1]) == [StartAddr + pos % 0x40, Glyph(v) + (if pointOn then 0x80 else 0)];
    assert ToBytes(f[2]) == [ctrl];
  }

  /** display(disp_data[]): data command, start address and the four coded digits, display control. */
  function DisplayFrames(raw: seq<Int8>, pointOn: bool, addr: Byte, ctrl: Byte): (r: seq<seq<Int8>>)
    requires |raw| == Digits
    ensures |r| == 3 && |r[0]| == 1 && |r[1]| == 1 + Digits && |r[2]| == 1
  {
    [[AddrAuto], [ToInt8(addr)] + CodedAll(raw, pointOn), [ToInt8(ctrl)]]
  }

  /** The bytes of coded arguments are their glyphs, with bit 7 set exactly when the point is on. */
  lemma CodedBytes(raw: seq<Int8>, pointOn: bool)
    ensures ToBytes(CodedAll(raw, pointOn))
            == seq(|raw|, i requires 0 <= i < |raw| => Glyph(raw[i]) + if pointOn then 0x80 else 0)
  {
    var coded := CodedAll(raw, pointOn);
    var glyphs := seq(|raw|, i requires 0 <= i < |raw| => Glyph(raw[i]) + if pointOn then 0x80 else 0);
    assert forall i :: 0 <= i < |raw| ==> ToBytes(coded)[i] == glyphs[i];
  }

  /**
   * On the wire display(disp_data[]) is 0x40; then the start address and the four glyphs, each
   * with bit 7 set exactly when the point is on, in one frame; then the display-control byte.
   */
  lemma DisplayFramesBytes(raw: seq<Int8>, pointOn: bool, addr: Byte, ctrl: Byte)
    requires |raw| == Digits
    ensures FramesBytes(DisplayFrames(raw, pointOn, addr, ctrl))
            == [[0x40],
                [addr] + seq(Digits, i requires 0 <= i < Digits => Glyph(raw[i]) + if pointOn then 0x80 else 0),
                [ctrl]]
  {
    var f := DisplayFrames(raw, pointOn, addr, ctrl);
    var coded := CodedAll(raw, pointOn);
    CodedBytes(raw, pointOn);
    assert ToBytes(f[1]) == [addr] + ToBytes(coded);
    assert ToBytes(f[0]) == [0x40];
    assert ToBytes(f[2]) == [ctrl];
  }

  /** The frames of one step: none for a delay. */
  function StepFrames(st: Step, pointOn: bool, ctrl: Byte): seq<seq<Int8>>
  {
    match st
    case Put(pos, v) => PutFrames(pos, v, pointOn, ctrl)
    case Wait(_) => []
  }

  /** The number of writeByte calls a step makes. */
  function StepBytes(st: Step): nat
  {
    if st.Put? then 4 else 0
  }

  /** The events of one step, answered from the from-th byte on: the plan of that step alone. */
  function StepEvents(st: Step, pointOn: bool, ctrl: Byte, ackOf: nat -> Level, from: nat): seq<Event>
  {
    PlanEvents([st], pointOn, ctrl, ackOf, from)
  }

  /** The number of writeByte calls a plan makes. */
  function PlanBytes(plan: seq<Step>): nat
  {
    if |plan| == 0 then 0 else StepBytes(plan[0]) + PlanBytes(plan[1..])
  }

  /** The events of a plan carried out with a fixed point flag and display-control byte. */
  function PlanEvents(plan: seq<Step>, pointOn: bool, ctrl: Byte, ackOf: nat -> Level, from: nat): seq<Event>
    decreases |plan|, 1
  {
    if |plan| == 0 then [] else StepThenPlan(plan[0], plan[1..], pointOn, ctrl, ackOf, from)
  }

  /** The events of one step, followed by those of the rest of the plan: a delay is one event. */
  function StepThenPlan(st: Step, rest: seq<Step>, pointOn: bool, ctrl: Byte, ackOf: nat -> Level, from: nat)
    : seq<Event>
    decreases |rest| + 1, 0
  {
    (match st
     case Put(pos, v) => FramesEvents(PutFrames(pos, v, pointOn, ctrl), ackOf, from)
     case Wait(ms) => [Delay(ms)])
    + PlanEvents(rest, pointOn, ctrl, ackOf, from + StepBytes(st))
  }

  /** A write's events are its three frames; a delay's, the delay alone. */
  lemma StepEventsCases(st: Step, pointOn: bool, ctrl: Byte, ackOf: nat -> Level, from: nat)
    ensures st.Put? ==> StepEvents(st, pointOn, ctrl, ackOf, from)
                        == FramesEvents(PutFrames(st.pos, st.value, pointOn, ctrl), ackOf, from)
    ensures st.Wait? ==> StepEvents(st, pointOn, ctrl, ackOf, from) == [Delay(st.ms)]
  {
    var none: seq<Step> := [];
    assert [st][1..] == none;
    assert StepEvents(st, pointOn, ctrl, ackOf, from) == StepThenPlan(st, none, pointOn, ctrl, ackOf, from);
    assert PlanEvents(none, pointOn, ctrl, ackOf, from + StepBytes(st)) == [];
  }

  /** The frames of a plan, in order. */
  function PlanFrames(plan: seq<Step>, pointOn: bool, ctrl: Byte): seq<seq<Int8>>
  {
    if |plan| == 0 then [] else StepFrames(plan[0], pointOn, ctrl) + PlanFrames(plan[1..], pointOn, ctrl)
  }

  /** A frame in front of more frames is sent first. */
  lemma FramesPrepend(f: seq<Int8>, rest: seq<seq<Int8>>, ackOf: nat -> Level, from: nat, next: nat)
    requires next == from + |f|
    ensures FramesEvents([f] + rest, ackOf, from) == FrameEvents(f, ackOf, from) + FramesEvents(rest, ackOf, next)
  {
    var fs := [f] + rest;
    assert |fs| != 0 && fs[0] == f && fs[1..] == rest;
  }

  /** Three frames on the bus are the three frames one after another. */
  lemma ThreeFrames(f0: seq<Int8>, f1: seq<Int8>, f2: seq<Int8>, ackOf: nat -> Level, s0: nat, s1: nat, s2: nat)
    requires s1 == s0 + |f0| && s2 == s1 + |f1|
    ensures FramesEvents([f0, f1, f2], ackOf, s0)
            == FrameEvents(f0, ackOf, s0) + FrameEvents(f1, ackOf, s1) + FrameEvents(f2, ackOf, s2)
  {
    var e0, e1, e2 := FrameEvents(f0, ackOf, s0), FrameEvents(f1, ackOf, s1), FrameEvents(f2, ackOf, s2);
    var none: seq<seq<Int8>> := [];
    assert [f0, f1, f2] == [f0] + ([f1] + ([f2] + none));
    FramesPrepend(f2, none, ackOf, s2, s2 + |f2|);
    assert FramesEvents([f2] + none, ackOf, s2) == e2 + [];
    FramesPrepend(f1, [f2] + none, ackOf, s1, s2);
    FramesPrepend(f0, [f1] + ([f2] + none), ackOf, s0, s1);
    assert e1 + (e2 + []) == e1 + e2;
    Assoc(e0, e1, e2);
  }

  /** Carrying out a + b is carrying out a, then b from the byte count a leaves. */
  lemma {:induction false} PlanEventsConcat(a: seq<Step>, b: seq<Step>, pointOn: bool, ctrl: Byte,
                                             ackOf: nat -> Level, from: nat, to: nat)
    requires to == from + PlanBytes(a)
    ensures PlanEvents(a + b, pointOn, ctrl, ackOf, from)
            == PlanEvents(a, pointOn, ctrl, ackOf, from) + PlanEvents(b, pointOn, ctrl, ackOf, to)
    decreases |a|
  {
    if |a| == 0 {
      EmptyConcat(a, b);
    } else {
      var next := from + StepBytes(a[0]);
      PlanEventsCons(a, b, pointOn, ctrl, ackOf, from);
      PlanEventsFirst(a, pointOn, ctrl, ackOf, from);
      PlanEventsConcat(a[1..], b, pointOn, ctrl, ackOf, next, to);
      Assoc(StepEvents(a[0], pointOn, ctrl, ackOf, from), PlanEvents(a[1..], pointOn, ctrl, ackOf, next),
            PlanEvents(b, pointOn, ctrl, ackOf, to));
    }
  }

  /** Carrying out a + b with a non-empty: the first step of a, then the rest of a + b. */
  lemma PlanEventsCons(a: seq<Step>, b: seq<Step>, pointOn: bool, ctrl: Byte, ackOf: nat -> Level, from: nat)
    requires |a| != 0
    ensures PlanEvents(a + b, pointOn, ctrl, ackOf, from)
            == StepEvents(a[0], pointOn, ctrl, ackOf, from)
               + PlanEvents(a[1..] + b, pointOn, ctrl, ackOf, from + StepBytes(a[0]))
    ensures PlanBytes(a + b) == StepBytes(a[0]) + PlanBytes(a[1..] + b)
  {
    ConsSplit(a, b);
    PlanEventsFirst(a + b, pointOn, ctrl, ackOf, from);
  }

  /** A plan's events are those of its first step, then those of the rest. */
  lemma PlanEventsFirst(plan: seq<Step>, pointOn: bool, ctrl: Byte, ackOf: nat -> Level, from: nat)
    requires |plan| != 0
    ensures PlanEvents(plan, pointOn, ctrl, ackOf, from)
            == StepEvents(plan[0], pointOn, ctrl, ackOf, from)
               + PlanEvents(plan[1..], pointOn, ctrl, ackOf, from + StepBytes(plan[0]))
  {
    StepEventsCases(plan[0], pointOn, ctrl, ackOf, from);
    assert PlanEvents(plan, pointOn, ctrl, ackOf, from) == StepThenPlan(plan[0], plan[1..], pointOn, ctrl, ackOf, from);
  }

  /** Byte counts add up over concatenated plans. */
  lemma {:induction false} PlanBytesConcat(a: seq<Step>, b: seq<Step>)
    ensures PlanBytes(a + b) == PlanBytes(a) + PlanBytes(b)
    decreases |a|
  {
    if |a| == 0 {
      EmptyConcat(a, b);
    } else {
      ConsSplit(a, b);
      PlanBytesConcat(a[1..], b);
    }
  }

  /** One more step at the end of a plan adds its events at the end. */
  lemma PlanEventsSnoc(a: seq<Step>, st: Step, pointOn: bool, ctrl: Byte, ackOf: nat -> Level, from: nat)
    ensures PlanEvents(a + [st], pointOn, ctrl, ackOf, from)
            == PlanEvents(a, pointOn, ctrl, ackOf, from) + StepEvents(st, pointOn, ctrl, ackOf, from + PlanBytes(a))
    ensures PlanBytes(a + [st]) == PlanBytes(a) + StepBytes(st)
  {
    var to := from + PlanBytes(a);
    PlanEventsConcat(a, [st], pointOn, ctrl, ackOf, from, to);
    PlanBytesConcat(a, [st]);
    PlanBytesSingle(st);
  }

  lemma PlanBytesSingle(st: Step)
    ensures PlanBytes([st]) == StepBytes(st)
  {
    assert [st][1..] == [];
  }

  /** Bit patterns of concatenated frame lists concatenate. */
  lemma FramesBytesConcat(a: seq<seq<Int8>>, b: seq<seq<Int8>>)
    ensures FramesBytes(a + b) == FramesBytes(a) + FramesBytes(b)
  {
  }

  /**
   * Whatever the display answers, a receiver reading the bus sees exactly the frames of the
   * plan: the delays between frames carry no bytes.
   */
  lemma {:induction false} PlanRoundTrip(plan: seq<Step>, pointOn: bool, ctrl: Byte, ackOf: nat -> Level, from: nat)
    ensures DecodeFrames(PlanEvents(plan, pointOn, ctrl, ackOf, from))
            == Some(FramesBytes(PlanFrames(plan, pointOn, ctrl)))
  {
    if plan != [] {
      var st := plan[0];
      var rest := PlanEvents(plan[1..], pointOn, ctrl, ackOf, from + StepBytes(st));
      var restFrames := PlanFrames(plan[1..], pointOn, ctrl);
      assert DecodeFrames(rest) == Some(FramesBytes(restFrames)) by {
        PlanRoundTrip(plan[1..], pointOn, ctrl, ackOf, from + StepBytes(st));
      }
      var stepFrames := StepFrames(st, pointOn, ctrl);
      PlanEventsFirst(plan, pointOn, ctrl, ackOf, from);
      StepThen(st, pointOn, ctrl, ackOf, from, rest, FramesBytes(restFrames));
      FramesBytesConcat(stepFrames, restFrames);
      assert PlanFrames(plan, pointOn, ctrl) == stepFrames + restFrames;
    } else {
      assert FramesBytes([]) == [];
    }
  }

  /** One step in front of events that read back as frames fs reads back as its frames, then fs. */
  lemma StepThen(st: Step, pointOn: bool, ctrl: Byte, ackOf: nat -> Level, from: nat,
                 rest: seq<Event>, fs: seq<seq<Byte>>)
    requires DecodeFrames(rest) == Some(fs)
    ensures DecodeFrames(StepEvents(st, pointOn, ctrl, ackOf, from) + rest)
            == Some(FramesBytes(StepFrames(st, pointOn, ctrl)) + fs)
  {
    StepEventsCases(st, pointOn, ctrl, ackOf, from);
    match st
    case Put(pos, v) =>
      DecodeFramesThen(PutFrames(pos, v, pointOn, ctrl), ackOf, from, rest);
    case Wait(ms) =>
      var ev := [Delay(ms)] + rest;
      assert ev[1..] == rest;
      assert FramesBytes(StepFrames(st, pointOn, ctrl)) + fs == fs;
  }

  // ---------------------------------------------------------------------------------------
  // What the digits were last given.

  /**
   * The effect of one step on the four digits: a write reaches digit FixedAddress(pos) - 0xc0
   * when that is one of the four; a delay changes nothing.
   */
  function Show(st: Step, screen: seq<Int8>): (r: seq<Int8>)
    requires |screen| == Digits
    ensures |r| == Digits
  {
    match st
    case Wait(_) => screen
    case Put(pos, v) =>
      var a := FixedAddress(pos) - StartAddr;
      if a < Digits then screen[a := v] else screen
  }

  /** A write to one of the four digits sets that digit alone. */
  lemma ShowDigit(pos: Byte, v: Int8, screen: seq<Int8>)
    requires pos < Digits && |screen| == Digits
    ensures Show(Put(pos, v), screen) == screen[pos := v]
  {
    DigitAddresses(pos);
  }

  /** The argument each digit was last given after a plan, starting from screen. */
  function Shown(plan: seq<Step>, screen: seq<Int8>): (r: seq<Int8>)
    requires |screen| == Digits
    ensures |r| == Digits
    decreases |plan|
  {
    if |plan| == 0 then screen else Shown(plan[1..], Show(plan[0], screen))
  }

  /** Carrying out a + b shows what b leaves after a. */
  lemma {:induction false} ShownConcat(a: seq<Step>, b: seq<Step>, screen: seq<Int8>)
    requires |screen| == Digits
    ensures Shown(a + b, screen) == Shown(b, Shown(a, screen))
    decreases |a|
  {
    if a != [] {
      assert (a + b)[0] == a[0];
      assert (a + b)[1..] == a[1..] + b;
      ShownConcat(a[1..], b, Show(a[0], screen));
    } else {
      assert a + b == b;
    }
  }

  /** One more step at the end of a plan acts on what the plan left. */
  lemma ShownSnoc(a: seq<Step>, st: Step, screen: seq<Int8>)
    requires |screen| == Digits
    ensures Shown(a + [st], screen) == Show(st, Shown(a, screen))
  {
    ShownConcat(a, [st], screen);
    assert [st][1..] == [];
  }

  /** display(k, vals[k]) for k = 0, 1, ..., d - 1, the loop shape of displayStr and clearDisplay. */
  function Writes(vals: seq<Int8>, d: nat): (plan: seq<Step>)
    requires d <= |vals| && d <= Digits
    ensures |plan| == d
  {
    seq(d, k requires 0 <= k < d => Put(k, vals[k]))
  }

  /** One more write in the Writes loop. */
  lemma WritesSnoc(vals: seq<Int8>, d: nat)
    requires d < |vals| && d < Digits
    ensures Writes(vals, d + 1) == Writes(vals, d) + [Put(d, vals[d])]
  {
  }

  /** Writing the first d values to the first d digits leaves the other digits as they were. */
  lemma {:induction false} WritesShown(vals: seq<Int8>, d: nat, screen: seq<Int8>)
    requires d <= |vals| && d <= Digits && |screen| == Digits
    ensures Shown(Writes(vals, d), screen) == vals[..d] + screen[d..]
  {
    if d == 0 {
      assert Writes(vals, 0) == [];
    } else {
      WritesSnoc(vals, d - 1);
      ShownSnoc(Writes(vals, d - 1), Put(d - 1, vals[d - 1]), screen);
      WritesShown(vals, d - 1, screen);
      ShowDigit(d - 1, vals[d - 1], Shown(Writes(vals, d - 1), screen));
      SpliceStep(vals, screen, d);
    }
  }

  /** Overwriting the first element after a prefix of a extends the prefix by one. */
  lemma SpliceStep<T>(a: seq<T>, b: seq<T>, d: nat)
    requires 0 < d <= |a| && d <= |b|
    ensures (a[..d - 1] + b[d - 1..])[d - 1 := a[d - 1]] == a[..d] + b[d..]
  {
    assert a[..d] == a[..d - 1] + [a[d - 1]];
  }

  /** Four writes to digits 0..3 show exactly those four values, whatever was shown before. */
  lemma FullWrite(vals: seq<Int8>, screen: seq<Int8>)
    requires |vals| == Digits && |screen| == Digits
    ensures Shown(Writes(vals, Digits), screen) == vals
  {
    WritesShown(vals, Digits, screen);
    assert vals[..Digits] + screen[Digits..] == vals;
  }

  /** The number of display calls in a plan. */
  function Puts(plan: seq<Step>): nat
  {
    if |plan| == 0 then 0 else (if plan[0].Put? then 1 else 0) + Puts(plan[1..])
  }

  /** The number of delay calls in a plan. */
  function Waits(plan: seq<Step>): nat
  {
    if |plan| == 0 then 0 else (if plan[0].Wait? then 1 else 0) + Waits(plan[1..])
  }

  /** Delay and write counts add up over concatenated plans. */
  lemma {:induction false} CountsConcat(a: seq<Step>, b: seq<Step>)
    ensures Waits(a + b) == Waits(a) + Waits(b)
    ensures Puts(a + b) == Puts(a) + Puts(b)
  {
    if a != [] {
      assert (a + b)[0] == a[0];
      assert (a + b)[1..] == a[1..] + b;
      CountsConcat(a[1..], b);
    } else {
      assert a + b == b;
    }
  }

  /** Each write is three frames and four bytes on the bus; a delay is neither. */
  lemma {:induction false} PlanShape(plan: seq<Step>, pointOn: bool, ctrl: Byte)
    ensures |PlanFrames(plan, pointOn, ctrl)| == 3 * Puts(plan)
    ensures PlanBytes(plan) == 4 * Puts(plan)
  {
    if plan != [] {
      PlanShape(plan[1..], pointOn, ctrl);
    }
  }

  // ---------------------------------------------------------------------------------------
  // clearDisplay.

  /** clearDisplay: the blank argument to digits 0, 1, 2, 3 in that order. */
  function ClearPlan(): (r: seq<Step>)
    ensures |r| == Digits
  {
    Writes(Blanks(Digits), Digits)
  }

  /** n blank arguments. */
  function Blanks(n: nat): (r: seq<Int8>)
    ensures |r| == n
  {
    seq(n, _ => Blank)
  }

  /** After clearDisplay every digit holds the blank argument, which lights at most the point. */
  lemma ClearShown(screen: seq<Int8>, pointOn: bool)
    requires |screen| == Digits
    ensures Shown(ClearPlan(), screen) == [Blank, Blank, Blank, Blank]
    ensures ClearPlan() == [Put(0, Blank), Put(1, Blank), Put(2, Blank), Put(3, Blank)]
    ensures ToByte(Coding(Blank, pointOn)) == if pointOn then 0x80 else 0
  {
    FullWrite(Blanks(Digits), screen);
    BlankSentinel(pointOn);
  }

  /** clearDisplay's four calls, appended one at a time, are ClearPlan. */
  lemma ClearPlanSteps(p0: seq<Step>, p1: seq<Step>, p2: seq<Step>, p3: seq<Step>, p4: seq<Step>)
    requires p0 == [] && p1 == p0 + [Put(0, Blank)] && p2 == p1 + [Put(1, Blank)]
    requires p3 == p2 + [Put(2, Blank)] && p4 == p3 + [Put(3, Blank)]
    ensures p4 == ClearPlan()
  {
    ClearShown(Blanks(Digits), false);
  }

  // ---------------------------------------------------------------------------------------
  // displayNum, from the integer magnitude on.

  /** 10^i. */
  function Ten(i: nat): (r: nat)
    ensures r > 0
  {
    Pow(10, i)
  }

  /** displayNum's number after i rounds of number /= 10. */
  function DropDigits(n: nat, i: nat): nat
  {
    if i == 0 then n else DropDigits(n, i - 1) / 10
  }

  /** Dividing by ten i times is dividing by 10^i: the rounds drop the last i decimal digits. */
  lemma {:induction false} DropDigitsIsDiv(n: nat, i: nat)
    ensures DropDigits(n, i) == n / Ten(i)
  {
    if i == 0 {
      DivModUnique(n, 1, n, 0);
    } else {
      DropDigitsIsDiv(n, i - 1);
      DivModNested(n, Ten(i - 1), 10);
      assert Ten(i - 1) * 10 == Ten(i);
    }
  }

  /** What displayNum gives the i-th digit from the right: the digit while the magnitude lasts, then blank. */
  function DigitArg(n: nat, i: nat): (v: Int8)
    ensures v == Blank || 0 <= v < 10
  {
    var m := DropDigits(n, i);
    if m != 0 then m % 10 else Blank
  }

  /** displayNum's loop for k rounds: digit 3 - i gets DigitArg(n, i). */
  function DigitWrites(n: nat, k: nat): (plan: seq<Step>)
    requires k <= Digits
    ensures |plan| == k
  {
    if k == 0 then [] else DigitWrites(n, k - 1) + [Put(Digits - k, DigitArg(n, k - 1))]
  }

  /** The number of digit rounds: one digit is given up for the sign. */
  function DigitRounds(minus: bool): (k: nat)
    ensures 0 < k <= Digits
    ensures k == Digits <==> !minus
  {
    if minus then Digits - 1 else Digits
  }

  /** displayNum's writes: the digits from the right, then the sign into digit 0 when minus. */
  function NumPlan(n: nat, minus: bool): (r: seq<Step>)
    ensures |r| == Digits
  {
    DigitWrites(n, DigitRounds(minus)) + if minus then [Put(0, '-' as int)] else []
  }

  /** After the digit rounds, the sign write when minus completes NumPlan. */
  lemma NumPlanEnd(n: nat, minus: bool, plan: seq<Step>)
    requires plan == DigitWrites(n, DigitRounds(minus))
    ensures minus ==> plan + [Put(0, '-' as int)] == NumPlan(n, true)
    ensures !minus ==> plan == NumPlan(n, false)
  {
    if !minus {
      assert plan + [] == plan;
    }
  }

  /** The digits displayNum leaves: the sign in digit 0 when minus, DigitArg(n, 3 - p) elsewhere. */
  function NumScreen(n: nat, minus: bool): (r: seq<Int8>)
    ensures |r| == Digits
  {
    seq(Digits, p requires 0 <= p < Digits => if minus && p == 0 then '-' as int else DigitArg(n, Digits - 1 - p))
  }

  /** A digit is blank exactly when the magnitude has run out; otherwise it is that decimal digit. */
  lemma DigitArgBlankIff(n: nat, i: nat)
    ensures DigitArg(n, i) == Blank <==> n < Ten(i)
    ensures n >= Ten(i) ==> DigitArg(n, i) == (n / Ten(i)) % 10
  {
    DropDigitsIsDiv(n, i);
    DivZeroIff(n, Ten(i));
  }

  /** One more round of displayNum's loop. */
  lemma DigitWritesSnoc(n: nat, k: nat)
    requires k < Digits
    ensures DigitWrites(n, k + 1) == DigitWrites(n, k) + [Put(Digits - 1 - k, DigitArg(n, k))]
  {
  }

  /**
   * Round i of displayNum's loop, with number the magnitude divided by 10^i: it writes
   * DigitArg(n, i) to digit 3 - i, and leaves the magnitude divided by 10^(i + 1).
   */
  lemma NumRound(n: nat, i: nat, number: nat, plan: seq<Step>, j: Byte, v: Int8, number': nat, plan': seq<Step>)
    requires i < Digits && number == DropDigits(n, i) && plan == DigitWrites(n, i)
    requires j == Digits - 1 - i && v == if number != 0 then number % 10 else Blank
    requires number' == number / 10 && plan' == plan + [Put(j, v)]
    ensures plan' == DigitWrites(n, i + 1)
    ensures number' == DropDigits(n, i + 1)
  {
    DigitWritesSnoc(n, i);
  }

  /** After k rounds digits 3, 2, ..., 4 - k hold the digit arguments; the others are untouched. */
  lemma {:induction false} DigitWritesShown(n: nat, k: nat, screen: seq<Int8>)
    requires k <= Digits && |screen| == Digits
    ensures forall p :: 0 <= p < Digits ==>
              Shown(DigitWrites(n, k), screen)[p]
              == if p < Digits - k then screen[p] else DigitArg(n, Digits - 1 - p)
  {
    if k == 0 {
      assert DigitWrites(n, 0) == [];
    } else {
      DigitWritesSnoc(n, k - 1);
      ShownSnoc(DigitWrites(n, k - 1), Put(Digits - 1 - (k - 1), DigitArg(n, k - 1)), screen);
      DigitWritesShown(n, k - 1, screen);
      ShowDigit(Digits - k, DigitArg(n, k - 1), Shown(DigitWrites(n, k - 1), screen));
    }
  }

  /** Whatever was shown before, displayNum leaves exactly NumScreen. */
  lemma NumShown(n: nat, minus: bool, screen: seq<Int8>)
    requires |screen| == Digits
    ensures Shown(NumPlan(n, minus), screen) == NumScreen(n, minus)
  {
    var k := DigitRounds(minus);
    var digits := DigitWrites(n, k);
    DigitWritesShown(n, k, screen);
    var mid := Shown(digits, screen);
    if minus {
      ShownSnoc(digits, Put(0, '-' as int), screen);
      ShowDigit(0, '-' as int, mid);
      NumScreenDigits(n, true, mid[0 := '-' as int]);
    } else {
      assert NumPlan(n, false) == digits by {
        assert digits + [] == digits;
      }
      NumScreenDigits(n, false, mid);
    }
  }

  /** Four digits that agree with NumScreen one by one are NumScreen. */
  lemma NumScreenDigits(n: nat, minus: bool, shown: seq<Int8>)
    requires |shown| == Digits
    requires forall p :: 0 <= p < Digits ==>
               shown[p] == if minus && p == 0 then '-' as int else DigitArg(n, Digits - 1 - p)
    ensures shown == NumScreen(n, minus)
  {
  }

  /** The value of a digit argument when read as a numeral; blank reads as zero. */
  function DigitValue(v: Int8): int
  {
    if v == Blank then 0 else v
  }

  /** The number the rightmost j digits read as, digit 3 the units. */
  function Reading(screen: seq<Int8>, j: nat): int
    requires |screen| == Digits && j <= Digits
  {
    if j == 0 then 0 else Reading(screen, j - 1) + DigitValue(screen[Digits - j]) * Ten(j - 1)
  }

  /** The rightmost j digit positions of NumScreen read as the last j decimal digits of n. */
  lemma {:induction false} NumScreenReading(n: nat, minus: bool, j: nat)
    requires j <= DigitRounds(minus)
    ensures Reading(NumScreen(n, minus), j) == n % Ten(j)
  {
    if j == 0 {
      DivModUnique(n, 1, n, 0);
    } else {
      NumScreenReading(n, minus, j - 1);
      var t := Ten(j - 1);
      DivModNested(n, t, 10);
      assert t * 10 == Ten(j);
      DigitArgBlankIff(n, j - 1);
      if n < t {
        DivModUnique(n, t, 0, n);
      }
      assert DigitValue(NumScreen(n, minus)[Digits - j]) == (n / t) % 10;
    }
  }

  /**
   * displayNum shows the last digits of the magnitude, three with a sign and four without: the
   * digits read as n % 10^k, the leading digits are blank exactly where the magnitude has run out,
   * and a magnitude with at most k digits reads back as itself.
   */
  lemma NumReadsBack(n: nat, minus: bool, screen: seq<Int8>)
    requires |screen| == Digits
    ensures Reading(Shown(NumPlan(n, minus), screen), DigitRounds(minus)) == n % Ten(DigitRounds(minus))
    ensures n < Ten(DigitRounds(minus)) ==>
              Reading(Shown(NumPlan(n, minus), screen), DigitRounds(minus)) == n
    ensures forall i :: 0 <= i < DigitRounds(minus) ==>
              (Shown(NumPlan(n, minus), screen)[Digits - 1 - i] == Blank <==> n < Ten(i))
    ensures minus ==> Shown(NumPlan(n, minus), screen)[0] == '-' as int
  {
    NumShown(n, minus, screen);
    var k := DigitRounds(minus);
    NumScreenReading(n, minus, k);
    if n < Ten(k) {
      DivModUnique(n, Ten(k), 0, n);
    }
    forall i | 0 <= i < k
      ensures NumScreen(n, minus)[Digits - 1 - i] == Blank <==> n < Ten(i)
    {
      DigitArgBlankIff(n, i);
    }
  }

  // ---------------------------------------------------------------------------------------
  // displayStr.

  /**
   * Round i of displayStr's outer loop: the first four characters go straight to digits 0..3;
   * every later round waits, then writes the window ending at character i.
   */
  function StrRound(s: seq<Int8>, i: nat, loopDelay: nat): (r: seq<Step>)
    requires i < |s|
    ensures |r| == if i < Digits then 1 else 1 + Digits
  {
    if i + 1 > Digits then [Wait(loopDelay)] + Writes(s[i + 1 - Digits..i + 1], Digits)
    else [Put(i, s[i])]
  }

  /** The first i rounds of displayStr's outer loop. */
  function StrRounds(s: seq<Int8>, i: nat, loopDelay: nat): (r: seq<Step>)
    requires i <= |s|
    ensures i <= Digits ==> |r| == i
  {
    if i == 0 then [] else StrRounds(s, i - 1, loopDelay) + StrRound(s, i - 1, loopDelay)
  }

  /** One more round of the first loop extends the rounds made so far. */
  lemma StrRoundsSnoc(s: seq<Int8>, i: nat, loopDelay: nat, plan: seq<Step>)
    requires i < |s| && plan == StrRounds(s, i, loopDelay)
    ensures plan + StrRound(s, i, loopDelay) == StrRounds(s, i + 1, loopDelay)
  {
  }

  /** The blank argument to digits from..upto - 1, in order. */
  function Blanking(from: nat, upto: nat): (plan: seq<Step>)
    requires from <= upto <= Digits
    ensures |plan| == upto - from
  {
    seq(upto - from, k requires 0 <= k < upto - from => Put(from + k, Blank))
  }

  lemma BlankingSnoc(from: nat, upto: nat)
    requires from <= upto < Digits
    ensures Blanking(from, upto + 1) == Blanking(from, upto) + [Put(upto, Blank)]
  {
  }

  /** A write in displayStr's inner loop extends the window written so far. */
  lemma WindowStep(s: seq<Int8>, i: nat, d: nat, base: seq<Step>, plan: seq<Step>)
    requires Digits - 1 <= i < |s| && d < Digits
    requires plan == base + Writes(s[i + 1 - Digits..i + 1], d)
    ensures plan + [Put(d, s[d + i + 1 - Digits])] == base + Writes(s[i + 1 - Digits..i + 1], d + 1)
  {
    var window := s[i + 1 - Digits..i + 1];
    WritesSnoc(window, d);
    assert window[d] == s[d + i + 1 - Digits];
  }

  /** A write in displayStr's second loop extends the blanks written so far. */
  lemma BlankingStep(from: nat, upto: nat, rounds: seq<Step>, plan: seq<Step>)
    requires from <= upto < Digits
    requires plan == rounds + Blanking(from, upto)
    ensures plan + [Put(upto, Blank)] == rounds + Blanking(from, upto + 1)
  {
    BlankingSnoc(from, upto);
  }

  /** The rounds of displayStr's first loop, then the blanks of its second loop, are its plan. */
  lemma StrPlanEnd(s: seq<Int8>, loopDelay: nat, rounds: seq<Step>, plan: seq<Step>)
    requires rounds == StrRounds(s, |s|, loopDelay)
    requires |s| < Digits ==> plan == rounds + Blanking(|s|, Digits)
    requires |s| >= Digits ==> plan == rounds
    ensures plan == StrPlan(s, loopDelay)
  {
    if |s| >= Digits {
      assert rounds + [] == rounds;
    }
  }

  /** displayStr's second loop: the blank argument to digits from..3, nothing when from >= 4. */
  function BlankFill(from: nat): (r: seq<Step>)
    ensures |r| == if from < Digits then Digits - from else 0
  {
    if from < Digits then Blanking(from, Digits) else []
  }

  /** displayStr(s, loop_delay). */
  function StrPlan(s: seq<Int8>, loopDelay: nat): (r: seq<Step>)
    ensures |s| <= Digits ==> |r| == Digits
  {
    StrRounds(s, |s|, loopDelay) + BlankFill(|s|)
  }

  /** While the string fits, the rounds write character k to digit k. */
  lemma {:induction false} StrRoundsHead(s: seq<Int8>, i: nat, loopDelay: nat)
    requires i <= |s| && i <= Digits
    ensures StrRounds(s, i, loopDelay) == Writes(s, i)
  {
    if i > 0 {
      StrRoundsHead(s, i - 1, loopDelay);
      WritesSnoc(s, i - 1);
    }
  }

  /** After k >= 4 rounds the four digits show characters k - 4..k - 1, whatever was shown before. */
  lemma {:induction false} StrWindowShown(s: seq<Int8>, k: nat, loopDelay: nat, screen: seq<Int8>)
    requires Digits <= k <= |s| && |screen| == Digits
    ensures Shown(StrRounds(s, k, loopDelay), screen) == s[k - Digits..k]
  {
    if k == Digits {
      StrRoundsHead(s, Digits, loopDelay);
      FullWrite(s[..Digits], screen);
      assert Writes(s, Digits) == Writes(s[..Digits], Digits);
    } else {
      var before := StrRounds(s, k - 1, loopDelay);
      var window := s[k - Digits..k];
      assert StrRounds(s, k, loopDelay) == before + ([Wait(loopDelay)] + Writes(window, Digits));
      ShownConcat(before, [Wait(loopDelay)] + Writes(window, Digits), screen);
      ShownConcat([Wait(loopDelay)], Writes(window, Digits), Shown(before, screen));
      assert [Wait(loopDelay)][1..] == [];
      FullWrite(window, Shown([Wait(loopDelay)], Shown(before, screen)));
    }
  }

  /** Every round from the fifth character on calls delay exactly once; none before. */
  lemma {:induction false} StrRoundsWaits(s: seq<Int8>, i: nat, loopDelay: nat)
    requires i <= |s|
    ensures Waits(StrRounds(s, i, loopDelay)) == if i > Digits then i - Digits else 0
  {
    if i > 0 {
      StrRoundsWaits(s, i - 1, loopDelay);
      CountsConcat(StrRounds(s, i - 1, loopDelay), StrRound(s, i - 1, loopDelay));
      var r := StrRound(s, i - 1, loopDelay);
      if i > Digits {
        assert r == [Wait(loopDelay)] + Writes(s[i - Digits..i], Digits);
        CountsConcat([Wait(loopDelay)], Writes(s[i - Digits..i], Digits));
        WritesHaveNoWaits(s[i - Digits..i], Digits);
        assert [Wait(loopDelay)][1..] == [];
      } else {
        assert r[1..] == [];
      }
    }
  }

  /** The Writes loop never calls delay. */
  lemma {:induction false} WritesHaveNoWaits(vals: seq<Int8>, d: nat)
    requires d <= |vals| && d <= Digits
    ensures Waits(Writes(vals, d)) == 0
  {
    if d > 0 {
      WritesSnoc(vals, d - 1);
      WritesHaveNoWaits(vals, d - 1);
      CountsConcat(Writes(vals, d - 1), [Put(d - 1, vals[d - 1])]);
      assert [Put(d - 1, vals[d - 1])][1..] == [];
    }
  }

  /** A string of four or more leaves the rounds alone; a shorter one pads with blanks. */
  lemma StrPlanShape(s: seq<Int8>, loopDelay: nat)
    ensures |s| >= Digits ==> StrPlan(s, loopDelay) == StrRounds(s, |s|, loopDelay)
    ensures |s| < Digits ==> StrPlan(s, loopDelay) == Writes(s + Blanks(Digits - |s|), Digits)
  {
    var rounds := StrRounds(s, |s|, loopDelay);
    if |s| >= Digits {
      assert BlankFill(|s|) == [];
      assert rounds + [] == rounds;
    } else {
      StrRoundsHead(s, |s|, loopDelay);
    }
  }

  /**
   * displayStr ends showing the last four characters of a long string, or the string followed by
   * blanks for a short one, whatever was shown before.
   */
  lemma StrShown(s: seq<Int8>, loopDelay: nat, screen: seq<Int8>)
    requires |screen| == Digits
    ensures Shown(StrPlan(s, loopDelay), screen)
            == if |s| >= Digits then s[|s| - Digits..] else s + Blanks(Digits - |s|)
  {
    StrPlanShape(s, loopDelay);
    if |s| >= Digits {
      StrLastWindow(s, loopDelay, screen, StrRounds(s, |s|, loopDelay));
    } else {
      FullWrite(s + Blanks(Digits - |s|), screen);
    }
  }

  /** After the last round the digits show the last four characters. */
  lemma StrLastWindow(s: seq<Int8>, loopDelay: nat, screen: seq<Int8>, rounds: seq<Step>)
    requires Digits <= |s| && |screen| == Digits
    requires rounds == StrRounds(s, |s|, loopDelay)
    ensures Shown(rounds, screen) == s[|s| - Digits..]
  {
    StrWindowShown(s, |s|, loopDelay, screen);
    assert s[|s| - Digits..|s|] == s[|s| - Digits..];
  }

  /** displayStr calls delay once per character beyond the fourth, and never for a short string. */
  lemma StrWaits(s: seq<Int8>, loopDelay: nat)
    ensures Waits(StrPlan(s, loopDelay)) == if |s| > Digits then |s| - Digits else 0
  {
    StrPlanShape(s, loopDelay);
    if |s| >= Digits {
      StrRoundsWaits(s, |s|, loopDelay);
    } else {
      WritesHaveNoWaits(s + Blanks(Digits - |s|), Digits);
    }
  }

  /**
   * displayStr only writes to digits 0..3, and only characters of the string, or the blank
   * argument when the string is shorter than four.
   */
  lemma StrWritesFromString(s: seq<Int8>, loopDelay: nat)
    ensures forall st :: st in StrPlan(s, loopDelay) && st.Put? ==>
              st.pos < Digits && (st.value in s || (|s| < Digits && st.value == Blank))
  {
    StrRoundsFromString(s, |s|, loopDelay);
  }

  /** The first i rounds of displayStr write characters of the string to digits 0..3. */
  lemma {:induction false} StrRoundsFromString(s: seq<Int8>, i: nat, loopDelay: nat)
    requires i <= |s|
    ensures forall st :: st in StrRounds(s, i, loopDelay) && st.Put? ==> st.pos < Digits && st.value in s
  {
    if i > 0 {
      StrRoundsFromString(s, i - 1, loopDelay);
      StrRoundFromString(s, i - 1, loopDelay);
    }
  }

  /** One round of displayStr writes characters of the string to digits 0..3. */
  lemma StrRoundFromString(s: seq<Int8>, i: nat, loopDelay: nat)
    requires i < |s|
    ensures forall st :: st in StrRound(s, i, loopDelay) && st.Put? ==> st.pos < Digits && st.value in s
  {
    if i + 1 > Digits {
      var window := s[i + 1 - Digits..i + 1];
      WritesFrom(window, Digits);
      assert forall v :: v in window ==> v in s;
    }
  }

  /** Every step of Writes(vals, d) puts one of vals to a digit below d. */
  lemma WritesFrom(vals: seq<Int8>, d: nat)
    requires d <= |vals| && d <= Digits
    ensures forall st :: st in Writes(vals, d) ==> st.Put? && st.pos < d && st.value in vals
  {
    forall st | st in Writes(vals, d)
      ensures st.Put? && st.pos < d && st.value in vals
    {
      var k :| 0 <= k < d && Writes(vals, d)[k] == st;
    }
  }
}
