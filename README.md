# TM1637 four-digit display driver in Dafny

This project models the Seeed TM1637 Arduino driver (`TM1637.cpp`, `TM1637.h`) and proves what
it puts on its two-wire bus and what it leaves on the four digits.

The model has six modules, one per file:

- `Arith` (arith.dfy): powers, division and the bitwise or of natural numbers, with the lemmas
  the other modules need.
- `Segments` (segments.dfy): `int8_t` and `uint8_t` as `Int8` and `Byte`, the character table
  `char2segments`, the numeral table `tube_tab`, and `coding` for one argument.
- `Commands` (commands.dfy): the header's command bytes and brightness constants, `DIGITS`, the
  display-control byte that `set` computes, and the fixed-address command `bit_addr | 0xc0`.
- `Bus` (bus.dfy): every pin call as an `Event`. It gives the events of `start`, `stop` and
  `writeByte`, and the frames built from them. It also has a receiver that reads bytes and
  frames back out of the events, and the pin levels the events leave behind. The receiver
  relies on `writeByte`'s fixed layout: it reads the data event of each three-event bit round
  and does not look at the clock events. A separate lemma shows that, in `writeByte`'s events,
  each of those data events is the level on the data line at its round's rising clock edge.
- `Render` (render.dfy): what `clearDisplay`, `displayNum` and `displayStr` do, as plans. A plan
  is a list of `Step`s, each one call to `display(bit_addr, disp_data)` or one call to
  `delay(ms)`. `PlanEvents` gives a plan's events on the bus. `Shown` gives the argument each
  digit was last given.
- `Driver` (driver.dfy): the class `TM1637`. Its fields are the source's configuration fields
  (`cmdSetData`, `cmdSetAddr`, `cmdDispCtrl`, `pointFlag`), plus two fields that record
  behaviour: `trace` holds every pin call made so far and `sent` counts the `writeByte` calls.
  The members of the C++ class that drive the pins or change the fields are methods. Each
  method's `ensures` gives the exact new `trace` in terms of the functions of `Bus` and
  `Render`. `coding(int8_t)` and `char2segments` only compute a value, so they are the functions
  `Segments.Coding` and `Segments.Char2Segments`. `Coding` takes the point flag as a parameter
  instead of reading the field.

The display's acknowledge bit is hardware input. The object is constructed with an oracle
`ackOf`, and the n-th byte written is answered with `ackOf(n)`. `WriteByte` itself takes the
sampled level as a parameter. Every round-trip lemma holds whatever the oracle answers.

Behaviour of the code that is easy to misread:

- `displayNum` converts `fabs(num) * pow(10, decimal)` to `int`, which truncates; it does not
  round. The model starts from that integer magnitude.
- Each round of `displayStr` for a string longer than four writes the four-character window
  that ends at character i (i = 4, 5, ...). The first window starts at index 1. No window runs
  off either end of the string, and no slot is blanked during scrolling.
- A string of four or fewer characters is written one digit at a time with the fixed-address
  `display`, followed by the blank argument 0x7f for each remaining digit.
- Lower-case letters are not in `char2segments`, so they render as blank, not as a glyph shared
  with the upper-case letter.
- The constructor initialises none of the configuration fields; the model leaves them
  arbitrary.
- `set` stores `cmd_set_data`, but no display function reads it, although the comment on `set`
  (TM1637.h:68, TM1637.cpp:254) says the settings take effect the next time it displays.
  `display(disp_data[])` always sends the auto-increment command 0x40 and
  `display(bit_addr, disp_data)` always sends 0x44.

## Model

| member | source | states |
|---|---|---|
| `Segments.Char2Segments` | TM1637.cpp:49-84 | the character table: every glyph is below 0x80, and a glyph is lit (nonzero) exactly for '_', '^', '-', '*' and 'A'..'Z'; negative chars, lower-case letters, punctuation and control codes give 0 |
| `Segments.CodedAll` | TM1637.cpp:268-272 | coding of every element: same length, each byte the element's glyph plus 0x80 exactly when the point is on |
| `Segments.Glyph` | TM1637.cpp:275-283 | whatever coding resolves to before the point bit (from `tube_tab` or the character table) lights only bits 0-6 |
| `Segments.Coding` | TM1637.cpp:274-287 | the bit pattern of the `int8_t` result is the glyph plus 0x80 exactly when the point is on (the wrap of the `int8_t` sum is explicit) |
| `Segments.TubeTab` | TM1637.cpp:87-91 | the numeral table `tube_tab`: sixteen glyphs for 0-9 and A, b, C, d, E, F, each lighting some segment with the point off, no two alike; `CodingResolution` and `HexLettersAsValues` state how coding uses it |
| `Segments.CodingResolution` | TM1637.cpp:275-283 | the resolution order: 0x7f is blank; else 0..15 use `tube_tab`; else '0'..'9' use `tube_tab[v - 48]`; else the character table |
| `Segments.DigitCharsAsValues` | TM1637.cpp:279-280 | the characters '0'..'9' code exactly as the values 0..9 |
| `Segments.HexLettersAsValues` | TM1637.cpp:56-61 | the letters 'A'..'F' of the character table code exactly as the values 10..15 of `tube_tab` |
| `Segments.PointOnlyBit7` | TM1637.cpp:284 | with the point off, bit 7 is clear; with it on, the byte is the point-off byte with bit 7 set |
| `Segments.BlankSentinel` | TM1637.cpp:275-276 | the blank argument codes as 0x00, or 0x80 with the point on |
| `Segments.UnlistedRendersBlank` | TM1637.cpp:82-83 | every argument that is not a numeral value 0..15, not a digit character and not a character with a lit glyph codes as blank (with only the point bit): negative values, lower-case letters, punctuation, codes 16..31 |
| `Commands.DispCtrl` | TM1637.cpp:259 | 0x88 + brightness in a `uint8_t`: below 0x78 it is 0x88 + brightness (0x88..0x8f for 0..7); from 0x78 on it wraps to brightness - 0x78 |
| `Commands.FixedAddress` | TM1637.cpp:189 | `bit_addr \| 0xc0` is 0xc0 plus the low six bits of `bit_addr`, which is not range-checked |
| `Commands.DigitAddresses` | TM1637.h:76 | positions 0..3 address 0xc0..0xc3, one to one |
| `Commands.DefaultSettings` | TM1637.h:68 | the default brightness gives 0x8a; darkest and brightest give 0x88 and 0x8f |
| `Bus.StartEvents` | TM1637.cpp:139-144 | start(): from any pin state, the data line falls while the clock is HIGH (the start condition) |
| `Bus.StopEvents` | TM1637.cpp:147-152 | stop(): from any pin state, the data line rises while the clock is HIGH (the stop condition) |
| `Bus.ShiftOutEvents` | TM1637.cpp:105-116 | the first loop of writeByte: three events per round; `Bus.ByteBitOrder` gives each round's content |
| `Bus.AckEvents` | TM1637.cpp:118-133 | the acknowledge phase reads the level the display drives, and drives the data line LOW exactly when that level is LOW |
| `Bus.ByteEvents` | TM1637.cpp:104-136 | writeByte's events: 24 events of bit rounds, then the acknowledge phase |
| `Bus.ShrIsDiv` | TM1637.cpp:114 | n shifts `wr_data >>= 1` divide by 2^n, rounding toward minus infinity |
| `Bus.ByteEventsParts` | TM1637.cpp:104-136 | writeByte's events are the eight bit rounds, then the acknowledge phase |
| `Bus.ByteBitOrder` | TM1637.cpp:105-116 | round i is clk LOW, data = bit i, clk HIGH: bytes go out least significant bit first |
| `Bus.ByteRoundTrip` | TM1637.cpp:105-116 | reading the data event of each of the eight three-event rounds recovers the byte's 8-bit pattern, whatever the acknowledge |
| `Bus.RisingEdgeHoldsBit` | TM1637.cpp:105-116 | event 3i + 2 of writeByte raises the clock, and just before it the clock is LOW and the data line holds bit i, from any prior pin state: the bit is on the line at its rising edge |
| `Bus.TransferEvents` | TM1637.cpp:168-172 | consecutive writeByte calls, the n-th byte since construction answered by the oracle's n-th level; `TransferLength` and `FramesRoundTrip` state its length and read-back |
| `Bus.TransferLength` | TM1637.cpp:168-172 | a transfer takes 33 events per byte plus 2 for each byte the display answered LOW (`LowAnswers`), so between 33 and 35 per byte |
| `Bus.FrameEvents` | TM1637.cpp:164-177 | one command frame: start(), its bytes with no stop between them, stop(); `FrameBrackets` and `FramesRoundTrip` state its shape and read-back |
| `Bus.FrameBrackets` | TM1637.cpp:164-177 | a frame begins with start()'s four events, ends with stop()'s four, and holds 33 to 35 events per byte between them |
| `Bus.FramesRoundTrip` | TM1637.cpp:139-152 | frames sent with start and stop read back as exactly their bytes |
| `Bus.StartStopLevels` | TM1637.cpp:139-152 | start leaves both lines low and stop leaves both high; neither changes the data pin's mode |
| `Bus.ByteLeavesOutput` | TM1637.cpp:118-133 | writeByte always leaves the data pin in OUTPUT mode and the clock high |
| `Bus.FrameLeavesIdle` | TM1637.cpp:185-194 | every command frame leaves both lines high with the data pin an output |
| `Render.PutFrames` | TM1637.cpp:181-195 | display(bit_addr, disp_data) as three frames of one, two and one bytes; their bytes are `Render.PutFramesBytes` |
| `Render.DisplayFrames` | TM1637.cpp:155-178 | display(disp_data[]) as three frames, the second holding the address and the four digits; their bytes are `Render.DisplayFramesBytes` |
| `Render.PutFramesBytes` | TM1637.cpp:181-195 | display(bit_addr, d) sends [0x44], [0xc0 + bit_addr mod 0x40, glyph with the point bit], [cmd_disp_ctrl] |
| `Render.DisplayFramesBytes` | TM1637.cpp:155-178 | display(arr) sends [0x40], [cmd_set_addr and the four coded digits in one frame], [cmd_disp_ctrl] |
| `Render.PlanShape` | TM1637.cpp:185-194 | each display call of a plan is three frames and four bytes; a delay is neither |
| `Render.PlanRoundTrip` | TM1637.cpp:229-245 | whatever the display answers, a receiver sees exactly the frames of the plan; delays carry no bytes |
| `Render.PlanEventsConcat` | TM1637.cpp:247-252 | calls made one after another put their events on the bus one after another |
| `Render.ClearPlan` | TM1637.cpp:247-252 | clearDisplay makes four display calls; `Render.ClearShown` gives them |
| `Render.ClearShown` | TM1637.cpp:247-252 | clearDisplay writes the blank argument to digits 0, 1, 2, 3 in that order, leaving every digit blank |
| `Render.DigitArg` | TM1637.cpp:209-213 | what the loop passes for the i-th digit from the right: the blank argument or a decimal digit 0..9 |
| `Render.DigitWrites` | TM1637.cpp:206-216 | k rounds of displayNum's loop make k display calls; `Render.DigitWritesShown` and `Render.NumShown` give their effect |
| `Render.DigitRounds` | TM1637.cpp:206 | the digit loop's bound `DIGITS - (show_minus && num < 0 ? 1 : 0)`: between 1 and 4, and 4 exactly when no sign is shown; `NumReadsBack` states what the rounds display |
| `Render.NumPlan` | TM1637.cpp:206-220 | displayNum makes exactly four display calls, with or without the sign |
| `Render.DropDigitsIsDiv` | TM1637.cpp:215 | after i rounds of `number /= 10` the number is the magnitude divided by 10^i |
| `Render.DigitArgBlankIff` | TM1637.cpp:209-213 | digit i from the right is blank exactly when the magnitude is below 10^i, and otherwise is decimal digit i |
| `Render.NumShown` | TM1637.cpp:206-220 | displayNum leaves NumScreen: the sign in digit 0 when shown, DigitArg elsewhere |
| `Render.NumReadsBack` | TM1637.cpp:199-227 | the numeral digits read as the magnitude mod 10^k, and as the magnitude itself when it has at most k digits (k is 3 with a sign, else 4); leading blanks mark exactly where the magnitude ran out; the sign is in digit 0 |
| `Render.StrRound` | TM1637.cpp:231-238 | one round of displayStr's first loop: one display call while i < 4, otherwise a delay and four display calls |
| `Render.StrRounds` | TM1637.cpp:230-239 | the first i rounds make i calls while i <= 4 |
| `Render.BlankFill` | TM1637.cpp:242-244 | the second loop makes 4 - length calls for a short string and none otherwise |
| `Render.StrPlan` | TM1637.cpp:229-245 | displayStr on a string of at most four characters makes exactly four display calls |
| `Render.StrRoundsHead` | TM1637.cpp:236-237 | while the string fits, round k writes character k to digit k |
| `Render.StrWindowShown` | TM1637.cpp:231-235 | after k >= 4 rounds the digits show characters k - 4..k - 1 |
| `Render.StrShown` | TM1637.cpp:229-245 | displayStr ends showing the last four characters of a long string, or a short string followed by blanks |
| `Render.StrWaits` | TM1637.cpp:231-232 | displayStr calls delay once per character beyond the fourth, and never for a short string |
| `Render.StrWritesFromString` | TM1637.cpp:230-243 | displayStr only writes to digits 0..3, and only characters of the string, or the blank argument when the string is short |
| `Driver.TM1637.constructor` | TM1637.cpp:93-98 | records the pins, sets both to OUTPUT and starts the byte count at 0; it constrains none of the configuration fields |
| `Driver.TM1637.BitDelay` | TM1637.cpp:289-291 | one fixed pause event |
| `Driver.TM1637.Start` | TM1637.cpp:139-144 | appends clk HIGH, data HIGH, data LOW, clk LOW |
| `Driver.TM1637.Stop` | TM1637.cpp:147-152 | appends clk LOW, data LOW, clk HIGH, data HIGH |
| `Driver.TM1637.WriteByte` | TM1637.cpp:104-136 | appends exactly ByteEvents: the eight bit rounds of the shifted argument, then the acknowledge phase, which drives the data line LOW only when the sampled level is LOW; returns 0 for LOW and 1 for HIGH |
| `Driver.TM1637.CodeDigits` | TM1637.cpp:268-272 | codes the first four array elements in place with the current point flag; later elements are unchanged |
| `Driver.TM1637.Display` | TM1637.cpp:155-178 | appends exactly the three frames of DisplayFrames from a coded local copy; the caller's array is not written |
| `Driver.TM1637.DisplayAt` | TM1637.cpp:181-195 | appends exactly the three frames of PutFrames, four bytes |
| `Driver.TM1637.Frame` | TM1637.cpp:185-187 | start, one writeByte per byte with no stop between, stop |
| `Driver.TM1637.ThreeCommands` | TM1637.cpp:185-194 | the data command, the address command with its data, and the display control, as three frames |
| `Driver.TM1637.PutStep` | TM1637.cpp:181-195 | when the trace so far ends with the events of a plan, one display(bit_addr, disp_data) call leaves it ending with the events of that plan plus this write, and counts its bytes |
| `Driver.TM1637.WaitStep` | TM1637.cpp:232 | when the trace so far ends with the events of a plan, one delay(loop_delay) call leaves it ending with the events of that plan plus this delay |
| `Driver.TM1637.ClearDisplay` | TM1637.cpp:247-252 | appends the events of ClearPlan with the current point flag and display control |
| `Driver.TM1637.Init` | TM1637.cpp:100-102 | init is clearDisplay |
| `Driver.TM1637.Set` | TM1637.cpp:255-260 | stores the three commands (the display control as DispCtrl of the brightness), changes nothing else, and puts nothing on the bus |
| `Driver.TM1637.Point` | TM1637.cpp:264-266 | stores the point flag, changes nothing else, and puts nothing on the bus |
| `Driver.TM1637.DisplayNum` | TM1637.cpp:199-227 | appends the events of NumPlan using the point flag as it was before the call; afterwards the flag is on exactly when decimal is 2 |
| `Driver.TM1637.NumberDigits` | TM1637.cpp:206-216 | the digit loop appends the events of its digit writes |
| `Driver.TM1637.DisplayStr` | TM1637.cpp:229-245 | appends the events of StrPlan: the writes and delays of both loops |
| `Driver.TM1637.StrLoop` | TM1637.cpp:230-239 | the first loop of displayStr appends the events of StrRounds over the whole string, one round per character, and counts their bytes |
| `Driver.TM1637.StrRoundWrites` | TM1637.cpp:231-238 | one round of the first loop: character i to digit i, or a delay and the window ending at character i |
| `Driver.TM1637.WindowWrites` | TM1637.cpp:233-235 | the inner loop writes the window ending at character i to digits 0..3 |
| `Driver.TM1637.BlankWrites` | TM1637.cpp:242-244 | the second loop writes the blank argument to the digits from the string's length to 3 |

## Left out

- Float arithmetic in `displayNum` (`fabs`, `pow` and the conversion to `int`) is not modelled.
  `DisplayNum` takes the integer magnitude and a `negative` flag instead. The 16-bit `int`
  overflow for large magnitudes is left out with it.
- Pin-level timing and electrical effects are not modelled. `bitDelay`'s 50 µs and `delay`'s
  milliseconds are recorded only as events.
- The physical pin numbers are recorded by the constructor but are not carried by the events.
  Each event names the clock or data line directly.
- The value the display drives in the acknowledge slot comes from an oracle supplied at
  construction. No caller of `writeByte` looks at its result.
- C-string mechanics (`strlen`, the NUL terminator) are not modelled. `DisplayStr` takes a
  sequence of signed chars.
- What the chip lights for a given segment byte is not modelled. `Shown` tracks the argument
  each digit was last given; the segment byte sent for it is stated by `PutFramesBytes`.
- Some methods do not exist in the source as separate functions: `NumberDigits`,
  `StrLoop`, `StrRoundWrites`, `WindowWrites`, `BlankWrites`, `ThreeCommands`, `Frame`, `PutStep`
  and `WaitStep`. They factor out loops and call sequences that the source writes inline, and they
  make the same calls in the same order.
