# BaseStation display core in Dafny

BaseStation drives a three-digit seven-segment display with three status LEDs (red, green,
blue) from a Raspberry Pi. Four GPIO pins feed a 32-bit shift-register chain: data, clock,
latch and an active-low output enable. This project models the display core of that program
and proves properties of the model:

- `Extensions` (`extensions.dfy`): the decimal helpers `Pow`, `NumIntegerDigits`,
  `NumFractionalDigits` and `GetDigit`, and `WriteByte`, which clocks a byte out most
  significant bit first.
- `DisplayCharacters` (`displaycharacters.dfy`): a glyph is a segment byte. Bit 0 is the
  decimal point. There is a digit table and a symbol table with a case fallback and a `'?'`
  fallback.
- `DisplayFrames` (`displayframes.dfy`): an immutable frame of three glyphs, slot 0 the
  rightmost, plus the three LEDs. It covers the copy-style updates, text layout (`GetString`,
  `FromString`) and decimal layout (`FromDecimal`: range check, digit counts, half-to-even
  rounding, digit loops, sign).
- `BusyFrameIterators` (`busyframeiterators.dfy`): the "busy" animation, one lit segment
  running round the outline of the display, and its endless enumerator.
- `LedDrivers` (`leddrivers.dfy`): the pin driver. It is a class whose GPIO controller is
  the ordered trace of pin operations it issues. Functions read that trace the way the
  hardware does: open pins, levels, the bits clocked into the register and the bits latched
  onto its outputs.
- `DisplayDrivers` (`displaydrivers.dfy`): `ShowFrame` shifts the three glyph bytes (slot 0
  first), five padding zeros and the Green, Blue and Red LED bits, then latches. It is proved
  to publish exactly the frame's 32-bit image, and that image is proved to determine the frame.
- `Decimals` (`decimals.dfy`): the part of .NET `decimal` the core relies on. A value is
  `Decimal(mantissa, scale)` = mantissa / 10^scale. It covers `Math.Floor`, `Math.Abs`,
  comparison, negation and `Math.Round` (half to even).
- `Wrappers` (`wrappers.dfy`): `Option`, `Result` and the exception kinds the core throws.
  Each exception becomes an `Err` value.

Behaviour of the code worth knowing, which the model reproduces:

- The busy animation has 8 + (3 − 2) · 2 = 10 steps per round (BusyFrameIterator.cs:60).
- After the five padding bits, the LED bits go Green, Blue, Red (DisplayDriver.cs:30-32).
- At start-up the enable pin is driven High, which disables the output (LedDriver.cs:34).
  The start-up test in `LedDriverTest.cs` (lines 46-48) expects it driven Low instead.
- Digits are not keys of the symbol table. `FromSymbol('1')` shows `'?'`
  (`DisplayCharacters.DigitSymbolsAreUnknown`).
- A value whose rounding carries into a new integer digit keeps the digit count taken before
  rounding. So 9.996 is shown as "0.00" (`DisplayFrames.DecimalRoundingCarry`). The model
  reproduces this rather than correcting it.
- `WithCharacter(3, c)` passes the source's index guard and then fails on the three-element
  array. The model gives `IndexOutOfRange` for it, as distinct from the guard's
  `ArgumentOutOfRange`.

## Model

| member | source | states |
|---|---|---|
| Extensions.Pow | BaseStation/Extensions.cs:33-46 | a negative exponent is rejected with ArgumentOutOfRange; otherwise the result is value^exponent (mantissa and scale both raised) |
| Extensions.PowerOfTen | BaseStation/Extensions.cs:33-46 | 10 raised by the repeated multiplication equals 10^n |
| Extensions.NumIntegerDigits | BaseStation/Extensions.cs:48-61 | the loop returns the digit count of floor(\|value\|), at least 1 |
| Extensions.IntegerDigitsBounds | BaseStation/Extensions.cs:48-61 | the count k is pinned down by 10^(k-1) <= floor(\|value\|) < 10^k (k > 1), and floor(\|value\|) < 10 when k = 1 |
| Extensions.DigitCountUnique | BaseStation/Extensions.cs:48-61 | any k with 10^(k-1) <= n < 10^k is the digit count of n, so the count is the only such k |
| Extensions.IntegerDigitsOfPowers | BaseStation.Test/DecimalTest.cs:37-47 | 10^k has k+1 integer digits and 10^k - 1 has k |
| Extensions.IntegerDigitsExamples | BaseStation.Test/DecimalTest.cs:7-35 | 0, 9, 10, 9.9 and 9.999999999999999999999999999 have 1, 1, 2, 1 and 1 integer digits |
| Extensions.NumFractionalDigits | BaseStation/Extensions.cs:63-90 | the digit-by-digit loop with its zero run returns the fractional digit count (trailing zeros ignored) |
| Extensions.FractionalDigitsLeast | BaseStation/Extensions.cs:63-90 | the fractional digit count is the least k for which \|value\| · 10^k is an integer |
| Extensions.TrimmedScaleLeast | BaseStation/Extensions.cs:63-90 | the scale left after dropping trailing zeros is the least power of ten that makes the value integral |
| Extensions.TrimmedScaleOfFraction | BaseStation/Extensions.cs:65-66 | subtracting the integer part does not change the fractional digit count |
| Extensions.ShiftOutFirstDigit | BaseStation/Extensions.cs:71-86 | one loop step (times ten, drop the integer part) lowers the remaining count by one while the fraction is not zero |
| Extensions.TrimmedScaleOfZero | BaseStation/Extensions.cs:71 | a zero fraction has no fractional digits, so the loop stops |
| Extensions.FractionalDigitsExamples | BaseStation.Test/DecimalTest.cs:49-83 | 0, 1, 0.1, 0.10, 0.01 and 0.1001 have 0, 0, 1, 1, 2 and 4 fractional digits |
| Extensions.GetDigit | BaseStation/Extensions.cs:99-109 | a digit is between -9 and 9, and not negative for a non-negative value |
| Extensions.IntegerDigitsReassemble | BaseStation/Extensions.cs:101-104 | the digits at places 0 .. k-1, weighted by their place values, give floor(value) mod 10^k |
| Extensions.IntegerPartFromDigits | BaseStation/Extensions.cs:101-104 | all the integer digits together give back floor(value) |
| Extensions.DigitsBeyondIntegerPart | BaseStation/Extensions.cs:101-104 | every digit left of the most significant one is zero |
| Extensions.FractionDigitsReassemble | BaseStation/Extensions.cs:105-108 | the first k fractional digits read as one integer are floor(fraction · 10^k) |
| Extensions.DigitsBeyondFraction | BaseStation/Extensions.cs:105-108 | every digit right of the last significant fractional digit is zero |
| Extensions.GetDigitExamples | BaseStation.Test/DecimalTest.cs:85-143 | the digits of 0, 1, 10, 0.1 and 0.01 at places on both sides of the point |
| Extensions.ByteBitsRoundTrip | BaseStation/Extensions.cs:14-23 | the eight bits a byte puts out, most significant first, reassemble the byte |
| Extensions.ByteBitsInjective | BaseStation/Extensions.cs:14-23 | two different bytes never put out the same bits |
| Extensions.ShiftStep | BaseStation/Extensions.cs:18-19 | testing 0x80 and shifting left by one reads bit i and leaves bits i+1 .. 7 on top |
| Extensions.WriteBitValue | BaseStation/Extensions.cs:25-28 | true writes High and false writes Low, and nothing else is issued |
| Extensions.WriteByte | BaseStation/Extensions.cs:14-23 | the driver issues the writes of the byte's eight bits, most significant first; with distinct pins exactly those bits are shifted into the register |
| DisplayCharacters.FromRaw | BaseStation/DisplayCharacter.cs:76-77 | the glyph of a raw byte keeps the byte unchanged |
| DisplayCharacters.Dotify | BaseStation/DisplayCharacter.cs:104-107 | with dot the result is value with bit 0 set and the other bits kept; without dot it is value |
| DisplayCharacters.DotifyIdempotent | BaseStation/DisplayCharacter.cs:104-107 | dotifying twice is dotifying once, and a dot already set is never cleared |
| DisplayCharacters.FromDigit | BaseStation/DisplayCharacter.cs:82-89 | a digit outside 0 .. 9 is rejected with ArgumentOutOfRange; otherwise the point is lit exactly when asked for |
| DisplayCharacters.DigitDotBit | BaseStation/DisplayCharacter.cs:12-24 | no digit pattern lights the point; the dotted digit differs from the plain one in bit 0 alone |
| DisplayCharacters.DigitPatternsDistinct | BaseStation/DisplayCharacter.cs:12-24 | the ten digit patterns are pairwise different |
| DisplayCharacters.DigitRoundTrip | BaseStation/DisplayCharacter.cs:82-89 | the digit and the point can be read back from every digit glyph |
| DisplayCharacters.SymbolPattern | BaseStation/DisplayCharacter.cs:94-102 | the pattern comes from the table: the symbol's own entry when there is one, '?' when neither the symbol nor its upper or lower case is a key |
| DisplayCharacters.FromSymbol | BaseStation/DisplayCharacter.cs:94-102 | the glyph is the looked-up pattern, with the point lit when asked for or when the pattern lights it |
| DisplayCharacters.SymbolDot | BaseStation/DisplayCharacter.cs:94-102 | asking for the point only sets bit 0 of whatever the lookup found |
| DisplayCharacters.SymbolCaseFallback | BaseStation/DisplayCharacter.cs:96-98 | a letter whose other case has no entry shows the entry of the case that has one |
| DisplayCharacters.UnknownSymbol | BaseStation/DisplayCharacter.cs:101 | a symbol found in no case shows the '?' pattern |
| DisplayCharacters.ExactCaseWins | BaseStation/DisplayCharacter.cs:96 | 'c' and 'C', both keys, each show their own entry |
| DisplayCharacters.LowerCaseFallsBackToUpper | BaseStation/DisplayCharacter.cs:97 | 'a', known only as 'A', shows the 'A' entry |
| DisplayCharacters.UpperCaseFallsBackToLower | BaseStation/DisplayCharacter.cs:98 | 'B', known only as 'b', shows the 'b' entry |
| DisplayCharacters.DigitSymbolsAreUnknown | BaseStation/DisplayCharacter.cs:26-67 | digits are not symbol-table keys, so a digit symbol shows as '?' |
| DisplayCharacters.UnknownSymbolExample | BaseStation/DisplayCharacter.cs:101 | '#' with its point shows the '?' pattern with the point lit (0xB5) |
| DisplayCharacters.MinusGlyph | BaseStation/DisplayCharacter.cs:26-67 | '-' lights the middle segment alone |
| DisplayCharacters.BlankAndPointGlyphs | BaseStation/DisplayCharacter.cs:28-29 | ' ' is the blank glyph, '.' lights only the point, and the blank and full glyphs are 0 and 0xFF |
| DisplayFrames.Create | BaseStation/DisplayFrame.cs:45-63 | anything but three characters is rejected; otherwise the glyphs are kept and every LED is stored, false unless the map sets it |
| DisplayFrames.CreateWithoutStatus | BaseStation/DisplayFrame.cs:37-43 | the same, with every LED off |
| DisplayFrames.Filled | BaseStation/DisplayFrame.cs:33-35 | one glyph in every slot and one state for every LED |
| DisplayFrames.New | BaseStation/DisplayFrame.cs:30-31 | the default frame is blank with every LED off |
| DisplayFrames.FullFrame | BaseStation/DisplayFrame.cs:24-28 | the full frame lights every segment and every LED |
| DisplayFrames.EmptyAndFullFrames | BaseStation/DisplayFrame.cs:24-31 | the blank and full frames hold bytes 0 and 0xFF; a frame of three blanks is the empty frame |
| DisplayFrames.WithStatus | BaseStation/DisplayFrame.cs:65-73 | the copy sets one LED and keeps the glyphs and the other LEDs |
| DisplayFrames.WithStatusRestores | BaseStation/DisplayFrame.cs:65-73 | setting an LED and then setting it back restores the frame |
| DisplayFrames.WithCharacter | BaseStation/DisplayFrame.cs:75-84 | an index outside 0 .. 3 is rejected with ArgumentOutOfRange and index 3 fails on the array; otherwise one slot is replaced and everything else is kept |
| DisplayFrames.WithCharacterOwnGlyph | BaseStation/DisplayFrame.cs:75-84 | putting a slot's own glyph back changes nothing |
| DisplayFrames.WithPushedCharacter | BaseStation/DisplayFrame.cs:91-113 | from the left the glyph enters slot 2 and the others move towards slot 0; from the right it enters slot 0; the LEDs are kept |
| DisplayFrames.ThreePushesReplaceAll | BaseStation/DisplayFrame.cs:91-113 | three pushes from one side replace the whole display, in push order, and keep the LEDs |
| DisplayFrames.GetString | BaseStation/DisplayFrame.cs:121-136 | the loop produces the text layout: one glyph per character, and a following '.' folds into an unlit point |
| DisplayFrames.LayoutFrom | BaseStation/DisplayFrame.cs:125-134 | one loop step from position i: the glyph made there, and whether the next '.' is taken |
| DisplayFrames.GetDisplayedStringLength | BaseStation/DisplayFrame.cs:119 | the slot count is between half the string length and the length, and equals the length without '.' |
| DisplayFrames.LayoutLength | BaseStation/DisplayFrame.cs:121-136 | every glyph takes one or two characters |
| DisplayFrames.LayoutWithoutPoints | BaseStation/DisplayFrame.cs:121-136 | without '.', character i becomes glyph i |
| DisplayFrames.PadLeft | BaseStation/DisplayFrame.cs:140 | spaces are added in front up to the width and the string is kept at the end |
| DisplayFrames.FromString | BaseStation/DisplayFrame.cs:138-143 | the padded layout is accepted exactly when it has at least three glyphs; every LED is off |
| DisplayFrames.FromStringKeepsLastGlyphs | BaseStation/DisplayFrame.cs:138-143 | the frame holds the last three glyphs, the last one in slot 0 |
| DisplayFrames.FromStringWithoutPoints | BaseStation/DisplayFrame.cs:138-143 | a string without '.' shows its last three characters, blank-padded on the left |
| DisplayFrames.FromStringTooShort | BaseStation/DisplayFrame.cs:138-143 | "1.2" folds into two glyphs and is rejected |
| DisplayFrames.PointsStayApart | BaseStation/DisplayFrame.cs:127-131 | a lit point never takes a following '.', so "..." takes three glyphs |
| DisplayFrames.RangeCheck | BaseStation/DisplayFrame.cs:21-22 | the bounds computed with Pow are -999 and 999 |
| DisplayFrames.RangeBoundsIntegerDigits | BaseStation/DisplayFrame.cs:147-155 | a value in range has at most three integer digits |
| DisplayFrames.DecimalLayoutOf | BaseStation/DisplayFrame.cs:150-162 | the sign, the integer digit count of \|value\| and at most its fractional digit count, three digits in all |
| DisplayFrames.PlaceDigits | BaseStation/DisplayFrame.cs:164-177 | the two loops put the glyph of the digit of each place into its slot, with the point on the units digit when there is a fraction |
| DisplayFrames.SignStep | BaseStation/DisplayFrame.cs:179-190 | the sign goes to the LED when every slot holds a digit, else to a minus glyph in the next slot |
| DisplayFrames.FromDecimal | BaseStation/DisplayFrame.cs:145-193 | a value outside -999 .. 999 is rejected with ArgumentOutOfRange; otherwise the result is the decimal frame of the value |
| DisplayFrames.DecimalFrameSlot | BaseStation/DisplayFrame.cs:164-190 | each digit slot reads back as the digit of its place; the point sits exactly on the units digit of a value with a fraction; the minus sign is exactly in the slot after the digits of a negative value |
| DisplayFrames.DecimalFrameLeds | BaseStation/DisplayFrame.cs:179-190 | only the sign LED can be lit, exactly for a negative value that fills every slot |
| DisplayFrames.SignShownOnce | BaseStation/DisplayFrame.cs:179-190 | a value is negative exactly when its sign is shown, and the sign is never shown both ways |
| DisplayFrames.SignAndBlankAreNoDigits | BaseStation/DisplayFrame.cs:179-190 | neither the minus glyph nor a blank reads as a digit or lights the point |
| DisplayFrames.DigitsFitExactly | BaseStation/DisplayFrame.cs:153-177 | when the digits fit, the shown value is \|value\| unrounded and no non-zero digit falls outside the slots |
| DisplayFrames.DigitsRounded | BaseStation/DisplayFrame.cs:157-162 | when they do not fit, every slot holds a digit and the shown value is \|value\| rounded half to even to the places left |
| DisplayFrames.ZeroShowsOneDigit | BaseStation.Test/DisplayFrameTest.cs:8-53 | zero at any scale shows a single 0 with no sign and no point |
| DisplayFrames.NegativeMirrorsPositive | BaseStation/DisplayFrame.cs:150-190 | the negation of a value has the same layout apart from the sign and the same digit glyphs |
| DisplayFrames.NegateInRange | BaseStation/DisplayFrame.cs:21-22 | the display range is symmetric |
| DisplayFrames.FittingLayout | BaseStation/DisplayFrame.cs:153-155 | when the digit counts fit, the layout is \|value\| with those counts |
| DisplayFrames.DecimalPositiveOneIntegralOneFractional | BaseStation.Test/DisplayFrameTest.cs:55-64 | 1.2 shows blank, "1.", "2" with no LED |
| DisplayFrames.DecimalPositiveOneIntegralTwoFractionals | BaseStation.Test/DisplayFrameTest.cs:66-75 | 1.23 shows "1.", "2", "3" |
| DisplayFrames.DecimalPositiveTwoIntegralZeroFractionals | BaseStation.Test/DisplayFrameTest.cs:77-86 | 12 shows blank, "1", "2" |
| DisplayFrames.DecimalPositiveTwoIntegralOneFractional | BaseStation.Test/DisplayFrameTest.cs:88-97 | 12.3 shows "1", "2.", "3" |
| DisplayFrames.DecimalPositiveThreeIntegral | BaseStation.Test/DisplayFrameTest.cs:99-108 | 123 shows "1", "2", "3" |
| DisplayFrames.DecimalPositiveZeroAndOneFractional | BaseStation.Test/DisplayFrameTest.cs:110-119 | 0.2 shows blank, "0.", "2" |
| DisplayFrames.DecimalPositiveZeroAndTwoFractionals | BaseStation.Test/DisplayFrameTest.cs:121-130 | 0.23 shows "0.", "2", "3" |
| DisplayFrames.DecimalNegativeOneIntegralOneFractional | BaseStation.Test/DisplayFrameTest.cs:132-141 | -1.2 shows "-", "1.", "2" with no LED |
| DisplayFrames.DecimalNegativeOneIntegralTwoFractionals | BaseStation.Test/DisplayFrameTest.cs:143-152 | -1.23 shows "1.", "2", "3" and lights the blue LED |
| DisplayFrames.DecimalNegativeTwoIntegralZeroFractionals | BaseStation.Test/DisplayFrameTest.cs:154-163 | -12 shows "-", "1", "2" |
| DisplayFrames.DecimalNegativeTwoIntegralOneFractional | BaseStation.Test/DisplayFrameTest.cs:165-174 | -12.3 shows "1", "2.", "3" and lights the blue LED |
| DisplayFrames.DecimalNegativeThreeIntegral | BaseStation.Test/DisplayFrameTest.cs:176-185 | -123 shows "1", "2", "3" and lights the blue LED |
| DisplayFrames.DecimalNegativeZeroAndOneFractional | BaseStation.Test/DisplayFrameTest.cs:187-196 | -0.2 shows "-", "0.", "2" |
| DisplayFrames.DecimalNegativeZeroAndTwoFractionals | BaseStation.Test/DisplayFrameTest.cs:198-207 | -0.23 shows "0.", "2", "3" and lights the blue LED |
| DisplayFrames.DecimalRoundingCarry | BaseStation/DisplayFrame.cs:153-177 | 9.996 keeps one integer digit, rounds to 10.00 and shows "0.", "0", "0" |
| BusyFrameIterators.GetValueAndCharacterIndex | BaseStation/BusyFrameIterator.cs:13-55 | fewer than 6 positions or an index outside the round is rejected with ArgumentOutOfRange; otherwise exactly one of segments 1 to 6 is lit |
| BusyFrameIterators.StepTable | BaseStation/BusyFrameIterator.cs:13-60 | the ten steps of the three-slot round: bottoms of slots 0, 1, 2, the left side of slot 2, the tops of slots 2, 1, 0, the right side of slot 0 |
| BusyFrameIterators.DivTowardZero | BaseStation/BusyFrameIterator.cs:21 | C# integer division truncates towards zero |
| BusyFrameIterators.ReflectionLeavesWiderDisplay | BaseStation/BusyFrameIterator.cs:49-52 | with 12 positions, step 9 is sent to slot -1 |
| BusyFrameIterators.ReflectedValueAndCharacterIndex | BaseStation/BusyFrameIterator.cs:13-55 | the corrected mapping has the same error cases and lights exactly one segment |
| BusyFrameIterators.ReflectedSlotsInRange | BaseStation/BusyFrameIterator.cs:21-52 | with the corrected reflection, every step of an even-sized round names a slot between 0 and numCharacters - 1 |
| BusyFrameIterators.ReflectionsAgreeOnThreeSlots | BaseStation/BusyFrameIterator.cs:49-52 | on the three-slot display the written and corrected reflections agree on every step |
| BusyFrameIterators.StepSlotInRange | BaseStation/BusyFrameIterator.cs:64-66 | every step of the three-slot round, mapped as written, names a slot of the display, so WithCharacter succeeds |
| BusyFrameIterators.StepFrameShape | BaseStation/BusyFrameIterator.cs:64-66 | every frame lights one segment of one slot, never the point and no LED, and leaves the other slots blank |
| BusyFrameIterators.StepFramesDistinct | BaseStation/BusyFrameIterator.cs:57-72 | the ten frames of a round are pairwise different |
| BusyFrameIterators.BusyFrameEnumerator.constructor | BaseStation/BusyFrameIterator.cs:59 | the enumeration starts at step 0 |
| BusyFrameIterators.BusyFrameEnumerator.MoveNext | BaseStation/BusyFrameIterator.cs:62-71 | the n-th call yields the frame of step n mod 10, wrapping after the last |
| BusyFrameIterators.GetEnumerator | BaseStation/BusyFrameIterator.cs:57-60 | every enumeration starts afresh at step 0 |
| BusyFrameIterators.FramesRepeat | BaseStation/BusyFrameIterator.cs:68-70 | the animation repeats every ten frames |
| LedDrivers.BitsTraceAppend | BaseStation/LedDriver.cs:46-54 | writing two runs of bits issues their operations one after the other |
| LedDrivers.WriteBitShiftsIn | BaseStation/LedDriver.cs:46-54 | with distinct pins, one bit write shifts exactly that bit into the register and leaves the outputs alone |
| LedDrivers.BitsShiftIn | BaseStation/LedDriver.cs:46-54 | a run of bit writes shifts exactly those bits in, in order, and leaves the outputs alone |
| LedDrivers.LatchPublishes | BaseStation/LedDriver.cs:56-62 | a latch pulse drives the last 32 bits shifted in onto the outputs and shifts nothing |
| LedDrivers.SetUpOpensPins | BaseStation/LedDriver.cs:28-35 | set-up opens the four pins, touches no other pin and leaves the output disabled |
| LedDrivers.TearDownClosesPins | BaseStation/LedDriver.cs:37-44 | tear-down disables the output and closes the four pins, touching no other pin |
| LedDrivers.OutputEnabledIsActiveLow | BaseStation/LedDriver.cs:64-68 | enabling drives the enable pin Low and disabling drives it High |
| LedDrivers.LedDriver.constructor | BaseStation/LedDriver.cs:15-26 | after construction the four pins are open, the output is disabled and the driver is not disposed |
| LedDrivers.LedDriver.SetUpController | BaseStation/LedDriver.cs:28-35 | opens the four pins as outputs and disables the output |
| LedDrivers.LedDriver.TearDownController | BaseStation/LedDriver.cs:37-44 | disables the output and closes the four pins |
| LedDrivers.LedDriver.WriteBit | BaseStation/LedDriver.cs:46-54 | drives the data pin and pulses the clock; with distinct pins that bit is shifted in |
| LedDrivers.LedDriver.Latch | BaseStation/LedDriver.cs:56-62 | pulses the latch; with distinct pins the last 32 shifted bits become the outputs |
| LedDrivers.LedDriver.SetOutputEnabled | BaseStation/LedDriver.cs:64-68 | the output is enabled afterwards exactly when asked for |
| LedDrivers.LedDriver.PulseWait | BaseStation/LedDriver.cs:70-73 | one settle delay and no pin operation |
| LedDrivers.LedDriver.Dispose | BaseStation/LedDriver.cs:85-89 | the pins are torn down once; a second dispose issues nothing |
| LedDrivers.LedDriver.DisposeCore | BaseStation/LedDriver.cs:91-101 | only an explicit dispose touches the pins, and only the first time |
| LedDrivers.LedDriver.Finalize | BaseStation/LedDriver.cs:79-83 | the finalizer issues no pin operation |
| LedDrivers.NewLedDriver | BaseStation/LedDriver.cs:15-26 | a null factory, null settings or a factory yielding null is rejected with ArgumentNull before any pin is touched; otherwise the pins are set up |
| LedDrivers.NewDefaultLedDriver | BaseStation/LedDriver.cs:11-13 | the same, with the default settings |
| LedDrivers.DefaultPinsDistinct | BaseStation/LedDriverSettings.cs:7-10 | the default pins are 22, 23, 24 and 25, four different pins |
| DisplayDrivers.FrameBitsLayout | BaseStation/DisplayDriver.cs:16-35 | a frame's image is 32 bits: the glyph bytes slot by slot, five zeros, then Green, Blue, Red |
| DisplayDrivers.FrameBitsRoundTrip | BaseStation/DisplayDriver.cs:16-35 | reading a frame's image back gives the frame |
| DisplayDrivers.FrameBitsInjective | BaseStation/DisplayDriver.cs:16-35 | different frames never give the same image |
| DisplayDrivers.GlyphsRoundTrip | BaseStation/DisplayDriver.cs:20-23 | the glyphs read back from the image are the frame's glyphs |
| DisplayDrivers.LedsRoundTrip | BaseStation/DisplayDriver.cs:30-32 | the LEDs read back from the image are the frame's LEDs |
| DisplayDrivers.BlankFrameBits | BaseStation/DisplayDriver.cs:37-40 | the blank frame switches every output off |
| DisplayDrivers.FrameLatched | BaseStation/DisplayDriver.cs:20-34 | shifting a frame's image and pulsing the latch publishes exactly that image |
| DisplayDrivers.DisplayDriver.constructor | BaseStation/DisplayDriver.cs:10-14 | the display driver keeps the LED driver it is given |
| DisplayDrivers.DisplayDriver.ShowFrame | BaseStation/DisplayDriver.cs:16-35 | a missing frame is rejected with ArgumentNull and no pin is touched; otherwise the image is shifted and latched, and with distinct pins the outputs are exactly the frame's image |
| DisplayDrivers.DisplayDriver.ShiftGlyphs | BaseStation/DisplayDriver.cs:20-23 | writes every glyph byte, slot 0 first |
| DisplayDrivers.DisplayDriver.ShiftPadding | BaseStation/DisplayDriver.cs:25-28 | writes five zeros |
| DisplayDrivers.DisplayDriver.ShiftStatus | BaseStation/DisplayDriver.cs:30-32 | writes the Green, Blue and Red LEDs |
| DisplayDrivers.DisplayDriver.ClearDisplay | BaseStation/DisplayDriver.cs:37-40 | shows the blank frame, and with distinct pins every output is off |
| DisplayDrivers.NewDisplayDriver | BaseStation/DisplayDriver.cs:10-14 | a null LED driver is rejected with ArgumentNull |
| Decimals.Round | BaseStation/DisplayFrame.cs:157-162 | a value with at most the requested places is unchanged; otherwise the result has exactly that scale and is the nearest value, ties to even |
| Decimals.RoundHalfEvenError | BaseStation/DisplayFrame.cs:157-162 | rounding up when the remainder is over half (or exactly half with an odd quotient) is within half a unit, ties to even |

## Left out

- `DisplayLoopController`, `IDisplayLoop`, `StaticDisplayLoop`, `BusyDisplayLoop`, `Program`, `Helpers`, `GpioControllerWrapper` and `IGpioController` are not part of this model. They cover the display loops, tasks, cancellation, the program entry, enum enumeration and the wrapper over System.Device.Gpio. `ToDisplayLoop` (Extensions.cs) is left out with them.
- Concurrency and timing: `PulseWait` waits a few microseconds in the source. The model records it as a `Wait` event in the pin trace and takes no clock.
- LedDrivers.LedDriver: the GPIO controller is modelled as the trace of pin operations the driver issues, read back through functions that mimic the register chain. Reads from the pins, and failures thrown by the GPIO library, are not modelled.
- Decimals: .NET `decimal` is modelled as an unbounded mantissa and scale. The 96-bit mantissa, the scale limit of 28, overflow in `Pow` and negative zero are not modelled. Negative zero collapses into zero, which the source shows the same way.
- DisplayCharacters.ToUpper: `char.ToUpperInvariant` and `char.ToLowerInvariant` are modelled on the ASCII letters only; every other character is its own upper and lower case in the model. Non-ASCII characters whose invariant case mapping lands on an ASCII key are therefore lost: U+212A KELVIN SIGN lowers to 'k' and U+017F LATIN SMALL LETTER LONG S uppercases to 'S', so the source shows the 'k' and 'S' glyphs for them where `SymbolPattern` gives '?'. The same holds for DisplayCharacters.ToLower and DisplayCharacters.SymbolPattern.
- DisplayFrames.GetString, DisplayFrames.PadLeft and DisplayFrames.FromString: a C# string is a sequence of UTF-16 code units, while a Dafny `string` is a sequence of Unicode scalar values. A character outside the Basic Multilingual Plane is two code units in the source, so it takes two '?' glyphs and two units of `PadLeft` width; in the model it is one character, one glyph and one unit. For example, "😀" gives ' ', '?', '?' in the source and ' ', ' ', '?' in the model.
- `ThrowIfNull` is modelled where a null changes the result: `ShowFrame`, `NewLedDriver` and `NewDisplayDriver`. Elsewhere Dafny values cannot be null: the frame constructor's collections and `GetString`/`FromString` strings.
- DisplayFrames.WithStatus: the `Enum.IsDefined` check cannot fail for a Dafny `StatusLed`, so the model has no error case for it.
- The one-argument overloads `FromDigit(digit)` and `FromSymbol(symbol)` are the two-argument forms with `dot` false, and are not separate members.
- BusyFrameIterators.MoveNext: `GetValueAndCharacterIndex` is general, but the enumerator is modelled for the three-slot display (10 positions) only. Wider displays are covered only by the Findings pair below.
- LedDrivers.LedDriver.Finalize: the `Debug.Assert` in the finalizer is not modelled.

## Findings

| source | as written | input that shows it | evidently intended | confidence | as-written member | corrected member |
|---|---|---|---|---|---|---|
| BaseStation/BusyFrameIterator.cs:51 | the top half is reflected to slot `half - index + 2` | 12 positions (a four-slot display), index 9: slot -1, which `WithCharacter` rejects | slot `totalPositions - 3 - index`, which runs from numCharacters - 1 down to 0 and agrees with the written form for 10 positions | medium, not executed | BusyFrameIterators.ReflectionLeavesWiderDisplay | BusyFrameIterators.ReflectedSlotsInRange |
