/**
 * BaseStation/DisplayFrame.cs: what the display shows at one moment — three glyphs, slot 0
 * the rightmost, and the three status LEDs — together with the ways of building one:
 * copy-style updates, text layout and decimal layout.
 */
module DisplayFrames {
  import opened Wrappers
  import opened Decimals
  import opened Extensions
  import opened DisplayCharacters

  datatype StatusLed = Red | Green | Blue

  /** The number of glyph slots. */
  const CharacterCount := 3

  /** An immutable frame; every frame the constructors hand out satisfies `Valid`. */
  datatype DisplayFrame = DisplayFrame(characters: seq<DisplayCharacter>, statusLeds: map<StatusLed, bool>)
  {
    predicate Valid() {
      |characters| == CharacterCount && forall s: StatusLed :: s in statusLeds
    }
  }

  /** A map naming the three LEDs is total. */
  lemma AllLedsPresent(m: map<StatusLed, bool>)
    requires Red in m && Green in m && Blue in m
    ensures forall s: StatusLed :: s in m
  {
    forall s: StatusLed
      ensures s in m
    {
      assert s == Red || s == Green || s == Blue;
    }
  }

  /** The status map a constructor stores: every LED, false unless the given map says otherwise. */
  function TotalStatus(statusLeds: map<StatusLed, bool>): (r: map<StatusLed, bool>)
    ensures forall s :: s in r
    ensures forall s :: s in statusLeds ==> r[s] == statusLeds[s]
    ensures forall s :: s !in statusLeds ==> !r[s]
  {
    var r := map[Red := Red in statusLeds && statusLeds[Red],
                 Green := Green in statusLeds && statusLeds[Green],
                 Blue := Blue in statusLeds && statusLeds[Blue]];
    AllLedsPresent(r);
    r
  }

  /** `new DisplayFrame(characters, statusLeds)`: anything but exactly three characters is rejected. */
  function Create(characters: seq<DisplayCharacter>, statusLeds: map<StatusLed, bool>): (r: Result<DisplayFrame>)
    ensures r.Err? <==> |characters| != CharacterCount
    ensures r.Err? ==> r.error == InvalidArgument
    ensures r.Ok? ==> r.value.Valid() && r.value.characters == characters
    ensures r.Ok? ==> forall s :: r.value.statusLeds[s] == (s in statusLeds && statusLeds[s])
  {
    if |characters| != CharacterCount then Err(InvalidArgument)
    else Ok(DisplayFrame(characters, TotalStatus(statusLeds)))
  }

  /** `new DisplayFrame(characters)`: every LED off. */
  function CreateWithoutStatus(characters: seq<DisplayCharacter>): (r: Result<DisplayFrame>)
    ensures r.Err? <==> |characters| != CharacterCount
    ensures r.Ok? ==> r.value.Valid() && r.value.characters == characters
    ensures r.Ok? ==> forall s :: !r.value.statusLeds[s]
  {
    Create(characters, map[])
  }

  /** The private constructor: one glyph in every slot, one state for every LED. */
  function Filled(c: DisplayCharacter, status: bool): (f: DisplayFrame)
    ensures f.Valid()
    ensures forall j :: 0 <= j < CharacterCount ==> f.characters[j] == c
    ensures forall s :: f.statusLeds[s] == status
  {
    var leds := map[Red := status, Green := status, Blue := status];
    AllLedsPresent(leds);
    DisplayFrame([c, c, c], leds)
  }

  /** `new DisplayFrame()` and `DisplayFrame.Empty`: blank, every LED off. */
  function New(): (f: DisplayFrame)
    ensures f.Valid()
    ensures forall j :: 0 <= j < CharacterCount ==> f.characters[j] == Empty
    ensures forall s :: !f.statusLeds[s]
  {
    Filled(DisplayCharacters.Empty, false)
  }

  /** `DisplayFrame.Full`: every segment and every LED lit. */
  function FullFrame(): (f: DisplayFrame)
    ensures f.Valid()
    ensures forall j :: 0 <= j < CharacterCount ==> f.characters[j] == Full
    ensures forall s :: f.statusLeds[s]
  {
    Filled(DisplayCharacters.Full, true)
  }

  /** A copy with one LED set; the glyphs and the other LEDs are kept. */
  function WithStatus(frame: DisplayFrame, status: StatusLed, value: bool): (r: DisplayFrame)
    requires frame.Valid()
    ensures r.Valid() && r.characters == frame.characters
    ensures r.statusLeds[status] == value
    ensures forall s :: s != status ==> r.statusLeds[s] == frame.statusLeds[s]
  {
    DisplayFrame(frame.characters, frame.statusLeds[status := value])
  }

  /**
   * A copy with one slot replaced. The guard admits index 3, which then fails on the
   * three-element array: that failure is the `IndexOutOfRange` error.
   */
  function WithCharacter(frame: DisplayFrame, index: int, character: DisplayCharacter): (r: Result<DisplayFrame>)
    requires frame.Valid()
    ensures r.Ok? <==> 0 <= index < CharacterCount
    ensures (index < 0 || index > CharacterCount) ==> r == Err(ArgumentOutOfRange)
    ensures index == CharacterCount ==> r == Err(IndexOutOfRange)
    ensures r.Ok? ==> r.value.Valid() && r.value.statusLeds == frame.statusLeds
    ensures r.Ok? ==> r.value.characters[index] == character
    ensures r.Ok? ==> forall j :: 0 <= j < CharacterCount && j != index ==> r.value.characters[j] == frame.characters[j]
  {
    if index < 0 || index > CharacterCount then Err(ArgumentOutOfRange)
    else if index == CharacterCount then Err(IndexOutOfRange)
    else Ok(DisplayFrame(frame.characters[index := character], frame.statusLeds))
  }

  /**
   * A copy with one glyph pushed in at one end and the glyph at the other end pushed out:
   * from the left it enters at slot 2 and the others move towards slot 0; from the right
   * it enters at slot 0 and the others move towards slot 2.
   */
  function WithPushedCharacter(frame: DisplayFrame, character: DisplayCharacter, pushFromLeft: bool): (r: DisplayFrame)
    requires frame.Valid()
    ensures r.Valid() && r.statusLeds == frame.statusLeds
    ensures pushFromLeft ==>
      r.characters[2] == character && forall j :: 0 <= j < 2 ==> r.characters[j] == frame.characters[j + 1]
    ensures !pushFromLeft ==>
      r.characters[0] == character && forall j :: 0 < j < 3 ==> r.characters[j] == frame.characters[j - 1]
  {
    if pushFromLeft then DisplayFrame([frame.characters[1], frame.characters[2], character], frame.statusLeds)
    else DisplayFrame([character, frame.characters[0], frame.characters[1]], frame.statusLeds)
  }

  /** Three pushes from the same side replace the whole display and keep the LEDs. */
  lemma ThreePushesReplaceAll(frame: DisplayFrame, a: DisplayCharacter, b: DisplayCharacter, c: DisplayCharacter)
    requires frame.Valid()
    ensures var f := WithPushedCharacter(WithPushedCharacter(WithPushedCharacter(frame, a, true), b, true), c, true);
      f.characters == [a, b, c] && f.statusLeds == frame.statusLeds
    ensures var f := WithPushedCharacter(WithPushedCharacter(WithPushedCharacter(frame, a, false), b, false), c, false);
      f.characters == [c, b, a] && f.statusLeds == frame.statusLeds
  {
  }

  /** Setting an LED and setting it back restores the frame. */
  lemma WithStatusRestores(frame: DisplayFrame, status: StatusLed, value: bool)
    requires frame.Valid()
    ensures WithStatus(WithStatus(frame, status, value), status, frame.statusLeds[status]) == frame
  {
    var r := WithStatus(WithStatus(frame, status, value), status, frame.statusLeds[status]);
    assert r.statusLeds == frame.statusLeds;
  }

  /** Replacing a slot with the glyph it already holds changes nothing. */
  lemma WithCharacterOwnGlyph(frame: DisplayFrame, index: int)
    requires frame.Valid() && 0 <= index < CharacterCount
    ensures WithCharacter(frame, index, frame.characters[index]) == Ok(frame)
  {
    assert frame.characters[index := frame.characters[index]] == frame.characters;
  }

  lemma EmptyAndFullFrames()
    ensures New() == Filled(DisplayCharacters.Empty, false)
    ensures New().characters == [DisplayCharacter(0), DisplayCharacter(0), DisplayCharacter(0)]
    ensures FullFrame().characters == [DisplayCharacter(0xFF), DisplayCharacter(0xFF), DisplayCharacter(0xFF)]
    ensures CreateWithoutStatus([Empty, Empty, Empty]) == Ok(New())
  {
    assert TotalStatus(map[]) == New().statusLeds;
  }

  // ---------------------------------------------------------------------------------------
  // Text

  /**
   * The glyphs a string takes: one per character, except that a glyph without a lit point
   * takes a directly following '.' as its point.
   */
  function Layout(str: string): seq<DisplayCharacter>
    decreases |str|
  {
    if str == [] then []
    else
      var current := FromSymbol(str[0], false);
      if |str| > 1 && str[1] == '.' && !HasDot(current) then [WithDot(current)] + Layout(str[2..])
      else [current] + Layout(str[1..])
  }

  /** One step of the layout from position i: the glyph made there and where the next one starts. */
  lemma LayoutFrom(str: string, i: nat)
    requires i < |str|
    ensures var current := FromSymbol(str[i], false);
      Layout(str[i..]) == if i < |str| - 1 && str[i + 1] == '.' && !HasDot(current)
                          then [WithDot(current)] + Layout(str[i + 2..])
                          else [current] + Layout(str[i + 1..])
  {
    var rest := str[i..];
    assert rest[0] == str[i];
    assert |rest| > 1 ==> rest[1] == str[i + 1] && rest[2..] == str[i + 2..];
    assert rest[1..] == str[i + 1..];
  }

  /** `GetString(str)`: the index skips a '.' that has been folded into the previous glyph. */
  method GetString(str: string) returns (glyphs: seq<DisplayCharacter>)
    ensures glyphs == Layout(str)
  {
    glyphs := [];
    var i := 0;
    assert str[0..] == str;
    while i < |str|
      invariant 0 <= i <= |str|
      invariant glyphs + Layout(str[i..]) == Layout(str)
    {
      var current := FromSymbol(str[i], false);
      LayoutFrom(str, i);
      if i < |str| - 1 && str[i + 1] == '.' && !HasDot(current) {
        current := WithDot(current);
        i := i + 1;
      }
      glyphs := glyphs + [current];
      i := i + 1;
    }
    assert str[i..] == [];
  }

  /** `GetDisplayedStringLength(str)`: how many slots the string needs. */
  method GetDisplayedStringLength(str: string) returns (n: int)
    ensures n == |Layout(str)|
    ensures n <= |str| && |str| <= 2 * n
    ensures '.' !in str ==> n == |str|
  {
    var glyphs := GetString(str);
    n := |glyphs|;
    LayoutLength(str);
  }

  /** Every glyph takes one or two characters, and two only when the second is a '.'. */
  lemma {:induction false} LayoutLength(str: string)
    ensures |Layout(str)| <= |str| <= 2 * |Layout(str)|
    ensures '.' !in str ==> |Layout(str)| == |str|
    decreases |str|
  {
    if str != [] {
      var current := FromSymbol(str[0], false);
      if |str| > 1 && str[1] == '.' && !HasDot(current) {
        LayoutLength(str[2..]);
      } else {
        LayoutLength(str[1..]);
        assert '.' !in str ==> '.' !in str[1..];
      }
    }
  }

  /** Without any '.', each character becomes its own glyph. */
  lemma {:induction false} LayoutWithoutPoints(str: string)
    requires '.' !in str
    ensures |Layout(str)| == |str|
    ensures forall i :: 0 <= i < |str| ==> Layout(str)[i] == FromSymbol(str[i], false)
    decreases |str|
  {
    if str != [] {
      assert '.' !in str[1..];
      LayoutWithoutPoints(str[1..]);
    }
  }

  /** `str.PadLeft(width)`: spaces in front up to the width. */
  function PadLeft(str: string, width: nat): (r: string)
    ensures |r| == if |str| >= width then |str| else width
    ensures r[|r| - |str|..] == str
    ensures forall i :: 0 <= i < |r| - |str| ==> r[i] == ' '
  {
    if |str| >= width then str else seq(width - |str|, _ => ' ') + str
  }

  function Reverse<T>(s: seq<T>): (r: seq<T>)
    ensures |r| == |s|
    ensures forall i :: 0 <= i < |s| ==> r[i] == s[|s| - 1 - i]
  {
    if s == [] then [] else Reverse(s[1..]) + [s[0]]
  }

  /**
   * `DisplayFrame.FromString(str)`: lay out the string padded to three characters and keep
   * its last three glyphs, the last one in slot 0; fewer than three glyphs are rejected.
   */
  function FromString(str: string): (r: Result<DisplayFrame>)
    ensures var glyphs := Layout(PadLeft(str, CharacterCount));
      && (r.Ok? <==> |glyphs| >= CharacterCount)
      && (r.Err? ==> r.error == InvalidArgument)
      && (r.Ok? ==> r.value.Valid())
      && (r.Ok? ==> forall s :: !r.value.statusLeds[s])
  {
    var reversed := Reverse(Layout(PadLeft(str, CharacterCount)));
    CreateWithoutStatus(if |reversed| <= CharacterCount then reversed else reversed[..CharacterCount])
  }

  /** The frame keeps the last three glyphs of the layout, the very last one in slot 0. */
  lemma FromStringKeepsLastGlyphs(str: string, glyphs: seq<DisplayCharacter>)
    requires glyphs == Layout(PadLeft(str, CharacterCount)) && FromString(str).Ok?
    ensures forall i :: 0 <= i < CharacterCount ==> FromString(str).value.characters[i] == glyphs[|glyphs| - 1 - i]
  {
    var reversed := Reverse(glyphs);
    var kept := if |reversed| <= CharacterCount then reversed else reversed[..CharacterCount];
    var characters := FromString(str).value.characters;
    assert characters == kept;
    forall i | 0 <= i < CharacterCount
      ensures characters[i] == glyphs[|glyphs| - 1 - i]
    {
      assert kept[i] == reversed[i];
    }
  }

  /** A string without '.' shows its last three characters, padded with blanks on the left. */
  lemma FromStringWithoutPoints(str: string)
    requires '.' !in str
    ensures FromString(str).Ok?
    ensures forall i :: 0 <= i < CharacterCount ==>
      FromString(str).value.characters[i] == if i < |str| then FromSymbol(str[|str| - 1 - i], false) else Empty
  {
    var padded := PadLeft(str, CharacterCount);
    assert forall i :: 0 <= i < |padded| - |str| ==> padded[i] != '.';
    assert forall i :: |padded| - |str| <= i < |padded| ==> padded[i] == str[i - (|padded| - |str|)];
    assert '.' !in padded;
    LayoutWithoutPoints(padded);
    FromStringKeepsLastGlyphs(str, Layout(padded));
    BlankAndPointGlyphs();
  }

  /** "1.2" folds into two glyphs, so it cannot fill the display. */
  lemma FromStringTooShort()
    ensures Layout("1.2") == [WithDot(FromSymbol('1', false)), FromSymbol('2', false)]
    ensures FromString("1.2") == Err(InvalidArgument)
  {
    DigitSymbolsAreUnknown('1', false);
    assert !HasDot(FromSymbol('1', false));
    assert "1.2"[1] == '.';
    assert "1.2"[2..] == "2";
    assert "2"[1..] == [];
    assert PadLeft("1.2", CharacterCount) == "1.2";
  }

  /** A lit point never absorbs a following '.', so "..." takes three glyphs. */
  lemma PointsStayApart()
    ensures Layout("...") == [FromSymbol('.', false), FromSymbol('.', false), FromSymbol('.', false)]
  {
    assert "..."[1..] == "..";
    assert ".."[1..] == ".";
    assert "."[1..] == [];
    BlankAndPointGlyphs();
  }

  // ---------------------------------------------------------------------------------------
  // Decimals

  /** 10^3 - 1, the largest value three digits can show. */
  const MaxDecimalValue := Decimal(Pow10(CharacterCount) - 1, 0)

  const MinDecimalValue := Negate(MaxDecimalValue)

  predicate InDisplayRange(value: Decimal) {
    !Less(value, MinDecimalValue) && !Less(MaxDecimalValue, value)
  }

  /** A value in range has at most three digits before the point. */
  lemma RangeBoundsIntegerDigits(value: Decimal)
    requires InDisplayRange(value)
    ensures IntegerDigits(Abs(value)) <= CharacterCount
  {
    var a := Abs(value);
    var p := Pow10(a.scale);
    assert MaxDecimalValue == Decimal(999, 0) && MinDecimalValue == Decimal(-999, 0);
    assert a.mantissa <= 999 * p;
    var n := Floor(a);
    FloorBounds(a);
    assert n <= 999 by {
      assert n * p <= 999 * p;
      PositiveProduct(n - 999, p);
      assert (n - 999) * p == n * p - 999 * p;
    }
    DigitCountAtMost(n, CharacterCount);
  }

  /**
   * How a value is laid out: its sign, the non-negative value whose digits are shown, the
   * number of digits before the point and the number after it. When all digits do not fit,
   * |value| is rounded half-to-even to the places left after the integer digits.
   */
  datatype DecimalLayout = DecimalLayout(negative: bool, shown: Decimal, integerDigits: nat, fractionalDigits: nat)
  {
    function TotalDigits(): nat {
      integerDigits + fractionalDigits
    }
  }

  function DecimalLayoutOf(value: Decimal): (l: DecimalLayout)
    requires InDisplayRange(value)
    ensures l.shown.mantissa >= 0 && 1 <= l.integerDigits && l.TotalDigits() <= CharacterCount
    ensures l.negative == IsNegative(value) && l.integerDigits == IntegerDigits(Abs(value))
    ensures l.fractionalDigits <= FractionalDigits(Abs(value))
  {
    var a := Abs(value);
    var integerDigits := IntegerDigits(a);
    var fractionalDigits := FractionalDigits(a);
    RangeBoundsIntegerDigits(value);
    DigitCountBounds(Floor(a));
    if integerDigits + fractionalDigits > CharacterCount then
      DecimalLayout(IsNegative(value), Round(a, CharacterCount - integerDigits), integerDigits, CharacterCount - integerDigits)
    else
      DecimalLayout(IsNegative(value), a, integerDigits, fractionalDigits)
  }

  /**
   * The glyph in slot j: the digit of place j - F of the shown value in the first T slots,
   * with the point after the units digit when there is a fraction; then the minus sign, if
   * the value is negative and a slot is left for it; blank elsewhere.
   */
  function DecimalSlot(l: DecimalLayout, j: int): DisplayCharacter
    requires l.shown.mantissa >= 0
  {
    if 0 <= j < l.TotalDigits() then
      DigitGlyph(GetDigit(l.shown, j - l.fractionalDigits), j == l.fractionalDigits && l.fractionalDigits > 0)
    else if j == l.TotalDigits() && l.negative && l.TotalDigits() < CharacterCount then FromSymbol('-', false)
    else Empty
  }

  /** The sign goes to the given LED only when every slot holds a digit. */
  predicate SignOnLed(l: DecimalLayout) {
    l.negative && l.TotalDigits() == CharacterCount
  }

  /** Every LED off, except the sign LED when the sign is lit. */
  function SignLeds(signLed: StatusLed, lit: bool): (m: map<StatusLed, bool>)
    ensures m == if lit then New().statusLeds[signLed := true] else New().statusLeds
  {
    var m := map[Red := signLed == Red && lit, Green := signLed == Green && lit, Blue := signLed == Blue && lit];
    assert m.Keys == New().statusLeds.Keys;
    m
  }

  /** The frame `FromDecimal` builds for a value in range. */
  function DecimalFrame(value: Decimal, signLed: StatusLed): DisplayFrame
    requires InDisplayRange(value)
  {
    var l := DecimalLayoutOf(value);
    DisplayFrame([DecimalSlot(l, 0), DecimalSlot(l, 1), DecimalSlot(l, 2)], SignLeds(signLed, SignOnLed(l)))
  }

  /** Slots lo .. hi-1 hold their glyphs of the layout; the others are still blank. */
  predicate PlacedFrom(frame: DisplayFrame, l: DecimalLayout, lo: int, hi: int)
    requires l.shown.mantissa >= 0
  {
    && frame.Valid() && frame.statusLeds == New().statusLeds
    && forall j :: 0 <= j < CharacterCount ==>
         frame.characters[j] == if lo <= j < hi then DecimalSlot(l, j) else Empty
  }

  /** Writing the glyph of the slot just below the placed ones extends them by one. */
  lemma PlaceBelow(frame: DisplayFrame, l: DecimalLayout, lo: int, hi: int)
    requires l.shown.mantissa >= 0 && 0 < lo <= hi <= CharacterCount && PlacedFrom(frame, l, lo, hi)
    ensures WithCharacter(frame, lo - 1, DecimalSlot(l, lo - 1)).Ok?
    ensures PlacedFrom(WithCharacter(frame, lo - 1, DecimalSlot(l, lo - 1)).value, l, lo - 1, hi)
  {
  }

  /** The slot the i-th integer digit loop step writes, counted from the most significant digit. */
  lemma IntegerDigitSlot(l: DecimalLayout, v: Decimal, integerDigits: int, totalDigits: int, i: int, dot: bool)
    requires l.shown.mantissa >= 0 && 0 <= i < l.integerDigits
    requires v == l.shown && integerDigits == l.integerDigits && totalDigits == l.TotalDigits()
    requires dot == (i == l.integerDigits - 1 && l.fractionalDigits > 0)
    ensures FromDigit(GetDigit(v, integerDigits - i - 1), dot) == Ok(DecimalSlot(l, totalDigits - i - 1))
  {
  }

  /** The slot the i-th fractional digit loop step writes. */
  lemma FractionalDigitSlot(l: DecimalLayout, v: Decimal, fractionalDigits: int, i: int)
    requires l.shown.mantissa >= 0 && 0 <= i < l.fractionalDigits
    requires v == l.shown && fractionalDigits == l.fractionalDigits
    ensures FromDigit(GetDigit(v, -i - 1), false) == Ok(DecimalSlot(l, fractionalDigits - i - 1))
  {
  }

  /** Once every digit is placed, the sign step completes the decimal frame. */
  lemma SignStep(value: Decimal, signLed: StatusLed, frame: DisplayFrame)
    requires InDisplayRange(value)
    requires PlacedFrom(frame, DecimalLayoutOf(value), 0, DecimalLayoutOf(value).TotalDigits())
    ensures var l := DecimalLayoutOf(value);
      && (!l.negative ==> frame == DecimalFrame(value, signLed))
      && (SignOnLed(l) ==> WithStatus(frame, signLed, true) == DecimalFrame(value, signLed))
      && (l.negative && l.TotalDigits() < CharacterCount ==>
            WithCharacter(frame, l.TotalDigits(), FromSymbol('-', false)).Ok?
            && WithCharacter(frame, l.TotalDigits(), FromSymbol('-', false)).value == DecimalFrame(value, signLed))
  {
    var l := DecimalLayoutOf(value);
    var expected := DecimalFrame(value, signLed);
    assert expected.characters == [DecimalSlot(l, 0), DecimalSlot(l, 1), DecimalSlot(l, 2)];
    if !l.negative {
      assert frame.characters == expected.characters;
    } else if SignOnLed(l) {
      assert frame.characters == expected.characters;
    } else {
      var t := l.TotalDigits();
      assert WithCharacter(frame, t, FromSymbol('-', false)).value.characters == expected.characters;
    }
  }

  /** The bounds `FromDecimal` computes are -999 and 999. */
  lemma RangeCheck(value: Decimal, power: Decimal)
    requires power.mantissa == Power(10, CharacterCount) && Pow10(power.scale) == Power(Pow10(0), CharacterCount)
    ensures var maxValue := SubtractInt(power, 1);
      (Less(value, Negate(maxValue)) || Less(maxValue, value)) <==> !InDisplayRange(value)
  {
    assert power.mantissa == 1000;
    assert power.scale == 0;
  }

  /** The two digit loops of `FromDecimal`: integer digits from the top slot down, then the fraction. */
  method PlaceDigits(v: Decimal, integerDigits: int, fractionalDigits: int, ghost l: DecimalLayout) returns (frame: DisplayFrame)
    requires v.mantissa >= 0 && 0 <= integerDigits && 0 <= fractionalDigits
    requires integerDigits + fractionalDigits <= CharacterCount
    requires l.shown == v && l.integerDigits == integerDigits && l.fractionalDigits == fractionalDigits
    ensures PlacedFrom(frame, l, 0, l.TotalDigits())
  {
    frame := New();
    var totalDigits := integerDigits + fractionalDigits;
    for i := 0 to integerDigits
      invariant PlacedFrom(frame, l, totalDigits - i, totalDigits)
    {
      var index := totalDigits - i - 1;
      var dot := (i == integerDigits - 1) && (fractionalDigits > 0);
      var character := FromDigit(GetDigit(v, integerDigits - i - 1), dot);
      IntegerDigitSlot(l, v, integerDigits, totalDigits, i, dot);
      assert character == Ok(DecimalSlot(l, index));
      PlaceBelow(frame, l, index + 1, totalDigits);
      var next := WithCharacter(frame, index, character.value);
      frame := next.value;
    }
    for i := 0 to fractionalDigits
      invariant PlacedFrom(frame, l, fractionalDigits - i, totalDigits)
    {
      var character := FromDigit(GetDigit(v, -i - 1), false);
      FractionalDigitSlot(l, v, fractionalDigits, i);
      assert character.value == DecimalSlot(l, fractionalDigits - i - 1);
      PlaceBelow(frame, l, fractionalDigits - i, totalDigits);
      var next := WithCharacter(frame, fractionalDigits - i - 1, character.value);
      frame := next.value;
    }
  }

  /**
   * `DisplayFrame.FromDecimal(value, signLed)`: range check, digit counts, rounding when the
   * digits do not fit, then the integer digits, the fractional digits and the sign.
   */
  method FromDecimal(value: Decimal, signLed: StatusLed) returns (r: Result<DisplayFrame>)
    ensures r.Err? <==> !InDisplayRange(value)
    ensures r.Err? ==> r.error == ArgumentOutOfRange
    ensures r.Ok? ==> InDisplayRange(value) && r.value == DecimalFrame(value, signLed)
  {
    var power := Pow(Decimal(10, 0), CharacterCount);
    RangeCheck(value, power.value);
    var maxValue := SubtractInt(power.value, 1);
    var minValue := Negate(maxValue);
    if Less(value, minValue) || Less(maxValue, value) {
      return Err(ArgumentOutOfRange);
    }
    var sign := Less(value, Decimal(0, 0));
    var v := Abs(value);
    assert Abs(v) == v;
    var integerDigits := NumIntegerDigits(v);
    var fractionalDigits := NumFractionalDigits(v);
    var totalDigits := integerDigits + fractionalDigits;
    RangeBoundsIntegerDigits(value);
    if totalDigits > CharacterCount {
      v := Round(v, CharacterCount - integerDigits);
      totalDigits := CharacterCount;
      fractionalDigits := totalDigits - integerDigits;
    }
    ghost var l := DecimalLayout(sign, v, integerDigits, fractionalDigits);
    var frame := PlaceDigits(v, integerDigits, fractionalDigits, l);
    assert l == DecimalLayoutOf(value);
    SignStep(value, signLed, frame);
    if sign {
      if totalDigits == CharacterCount {
        frame := WithStatus(frame, signLed, true);
      } else {
        var character := FromSymbol('-', false);
        var next := WithCharacter(frame, totalDigits, character);
        frame := next.value;
      }
    }
    return Ok(frame);
  }

  // ---------------------------------------------------------------------------------------
  // What a decimal frame shows

  /** Neither the minus sign nor a blank reads as a digit, and neither lights the point. */
  lemma SignAndBlankAreNoDigits()
    ensures DecodeDigit(FromSymbol('-', false)) == None && DecodeDigit(Empty) == None
    ensures !HasDot(FromSymbol('-', false)) && !HasDot(Empty)
    ensures FromSymbol('-', false) != Empty
  {
    MinusGlyph();
    assert 0x80 !in DigitValues && 0x00 !in DigitValues;
  }

  /**
   * Slot j of a decimal frame: below the digit total it reads back as the digit of place
   * j - F of the shown value, with the point exactly on the units digit of a value with a
   * fraction; the minus sign sits exactly in the slot after the digits of a negative value.
   */
  lemma DecimalFrameSlot(value: Decimal, signLed: StatusLed, j: int)
    requires InDisplayRange(value) && 0 <= j < CharacterCount
    ensures var l := DecimalLayoutOf(value);
      var c := DecimalFrame(value, signLed).characters[j];
      && (j < l.TotalDigits() ==>
            DecodeDigit(c) == Some((GetDigit(l.shown, j - l.fractionalDigits), j == l.fractionalDigits && l.fractionalDigits > 0)))
      && (j >= l.TotalDigits() ==> DecodeDigit(c) == None)
      && (HasDot(c) <==> j == l.fractionalDigits && l.fractionalDigits > 0)
      && (c == FromSymbol('-', false) <==> j == l.TotalDigits() && IsNegative(value))
  {
    var l := DecimalLayoutOf(value);
    var c := DecimalFrame(value, signLed).characters[j];
    assert c == DecimalSlot(l, j);
    SignAndBlankAreNoDigits();
    if j < l.TotalDigits() {
      var dot := j == l.fractionalDigits && l.fractionalDigits > 0;
      DigitRoundTrip(GetDigit(l.shown, j - l.fractionalDigits), dot);
    }
  }

  /** Only the sign LED can be lit, and it is lit exactly for a negative value that fills every slot. */
  lemma DecimalFrameLeds(value: Decimal, signLed: StatusLed)
    requires InDisplayRange(value)
    ensures var f := DecimalFrame(value, signLed);
      && f.statusLeds[signLed] == (IsNegative(value) && DecimalLayoutOf(value).TotalDigits() == CharacterCount)
      && forall s :: s != signLed ==> !f.statusLeds[s]
  {
  }

  /** A negative value shows its sign exactly once: on the LED or as a minus glyph, never both. */
  lemma SignShownOnce(value: Decimal, signLed: StatusLed)
    requires InDisplayRange(value)
    ensures var f := DecimalFrame(value, signLed);
      && (IsNegative(value) <==> f.statusLeds[signLed] || FromSymbol('-', false) in f.characters)
      && !(f.statusLeds[signLed] && FromSymbol('-', false) in f.characters)
  {
    var f := DecimalFrame(value, signLed);
    DecimalFrameLeds(value, signLed);
    DecimalFrameSlot(value, signLed, 0);
    DecimalFrameSlot(value, signLed, 1);
    DecimalFrameSlot(value, signLed, 2);
    assert f.characters == [f.characters[0], f.characters[1], f.characters[2]];
  }

  /**
   * When the digits fit, nothing is rounded: the shown value is |value|, and every digit of
   * |value| outside the displayed places is zero.
   */
  lemma DigitsFitExactly(value: Decimal)
    requires InDisplayRange(value) && IntegerDigits(value) + FractionalDigits(value) <= CharacterCount
    ensures var l := DecimalLayoutOf(value);
      && l.shown == Abs(value) && l.fractionalDigits == FractionalDigits(value)
      && (forall i :: i >= l.integerDigits ==> GetDigit(l.shown, i) == 0)
      && (forall i :: i < -(l.fractionalDigits as int) ==> GetDigit(l.shown, i) == 0)
  {
    var a := Abs(value);
    assert Abs(a) == a;
    var l := DecimalLayoutOf(value);
    forall i | i >= l.integerDigits
      ensures GetDigit(l.shown, i) == 0
    {
      DigitsBeyondIntegerPart(a, i);
    }
    forall i | i < -(l.fractionalDigits as int)
      ensures GetDigit(l.shown, i) == 0
    {
      DigitsBeyondFraction(a, -i);
    }
  }

  /**
   * When the digits do not fit, every slot holds a digit and the shown value is |value|
   * rounded half-to-even to the places left after the integer digits.
   */
  lemma DigitsRounded(value: Decimal)
    requires InDisplayRange(value) && IntegerDigits(value) + FractionalDigits(value) > CharacterCount
    ensures var l := DecimalLayoutOf(value);
      && l.TotalDigits() == CharacterCount
      && l.shown.scale == l.fractionalDigits
      && RoundedFrom(l.shown.mantissa, Abs(value).mantissa, Pow10(value.scale - l.fractionalDigits))
  {
    var a := Abs(value);
    assert Abs(a) == a;
  }

  lemma ZeroLayout(scale: nat)
    ensures InDisplayRange(Decimal(0, scale))
    ensures DecimalLayoutOf(Decimal(0, scale)) == DecimalLayout(false, Decimal(0, scale), 1, 0)
  {
    var z := Decimal(0, scale);
    assert MaxDecimalValue == Decimal(999, 0) && MinDecimalValue == Decimal(-999, 0);
    TrimmedScaleOfZero(scale);
    assert Abs(z) == z && Floor(z) == 0;
  }

  /** Zero at any scale shows a single 0 and no sign, whatever trailing zeros it carries. */
  lemma ZeroShowsOneDigit(scale: nat, signLed: StatusLed)
    ensures InDisplayRange(Decimal(0, scale))
    ensures DecimalFrame(Decimal(0, scale), signLed) == DisplayFrame([DigitGlyph(0, false), Empty, Empty], New().statusLeds)
  {
    var z := Decimal(0, scale);
    ZeroLayout(scale);
    var l := DecimalLayout(false, z, 1, 0);
    assert GetDigit(z, 0) == 0;
    assert DecimalSlot(l, 0) == DigitGlyph(0, false);
    assert DecimalSlot(l, 1) == Empty && DecimalSlot(l, 2) == Empty;
  }

  /** The display range is symmetric. */
  lemma NegateInRange(value: Decimal)
    requires InDisplayRange(value)
    ensures InDisplayRange(Negate(value))
  {
    assert MaxDecimalValue == Decimal(999, 0) && MinDecimalValue == Decimal(-999, 0);
    var p := Pow10(value.scale);
    assert Less(value, MinDecimalValue) == (value.mantissa < -999 * p);
    assert Less(MaxDecimalValue, value) == (999 * p < value.mantissa);
    assert Less(Negate(value), MinDecimalValue) == (-value.mantissa < -999 * p);
    assert Less(MaxDecimalValue, Negate(value)) == (999 * p < -value.mantissa);
  }

  /** A negative value is laid out like its magnitude; only the sign is added. */
  lemma NegativeMirrorsPositive(value: Decimal, signLed: StatusLed)
    requires InDisplayRange(value)
    ensures InDisplayRange(Negate(value))
    ensures DecimalLayoutOf(Negate(value)) == DecimalLayoutOf(value).(negative := IsNegative(Negate(value)))
    ensures forall j :: 0 <= j < DecimalLayoutOf(value).TotalDigits() ==>
      DecimalFrame(Negate(value), signLed).characters[j] == DecimalFrame(value, signLed).characters[j]
  {
    NegateInRange(value);
    var n := Negate(value);
    assert Abs(n) == Abs(value);
    assert IntegerDigits(Abs(n)) == IntegerDigits(Abs(value));
    assert FractionalDigits(Abs(n)) == FractionalDigits(Abs(value));
    var l, l' := DecimalLayoutOf(value), DecimalLayoutOf(n);
    assert l' == l.(negative := IsNegative(n));
    forall j | 0 <= j < l.TotalDigits()
      ensures DecimalFrame(n, signLed).characters[j] == DecimalFrame(value, signLed).characters[j]
    {
      assert DecimalSlot(l', j) == DecimalSlot(l, j);
    }
  }

  // ---------------------------------------------------------------------------------------
  // Worked decimal frames, with the Blue LED as the sign LED: digits right-aligned, the point
  // after the units digit, and for a negative value a minus glyph in the free slot or, when
  // all three slots hold digits, the sign LED.

  /** The frame with the given glyphs, left to right, and LEDs. */
  function Showing(left: DisplayCharacter, middle: DisplayCharacter, right: DisplayCharacter, blue: bool): DisplayFrame {
    DisplayFrame([right, middle, left], if blue then New().statusLeds[Blue := true] else New().statusLeds)
  }

  /** A value in range whose digits fit is laid out as its magnitude with its own digit counts. */
  lemma FittingLayout(value: Decimal, integerDigits: nat, fractionalDigits: nat)
    requires InDisplayRange(value) && integerDigits + fractionalDigits <= CharacterCount
    requires IntegerDigits(Abs(value)) == integerDigits && FractionalDigits(Abs(value)) == fractionalDigits
    ensures DecimalLayoutOf(value) == DecimalLayout(IsNegative(value), Abs(value), integerDigits, fractionalDigits)
  {
    assert Abs(Abs(value)) == Abs(value);
  }

  /** Values within three places of magnitude are in the display range. */
  lemma SmallValuesInRange(value: Decimal)
    requires -999 <= value.mantissa <= 999
    ensures InDisplayRange(value)
  {
    assert MaxDecimalValue == Decimal(999, 0) && MinDecimalValue == Decimal(-999, 0);
    assert Pow10(value.scale) >= 1;
  }

  /** A slot below the digit total holds the glyph of its digit. */
  lemma DigitSlot(l: DecimalLayout, j: int)
    requires l.shown.mantissa >= 0 && 0 <= j < l.TotalDigits()
    ensures DecimalSlot(l, j) == DigitGlyph(GetDigit(l.shown, j - l.fractionalDigits), j == l.fractionalDigits && l.fractionalDigits > 0)
  {
  }

  /** The digits of the magnitudes in the worked examples below. */
  lemma WorkedExampleDigits()
    ensures GetDigit(Decimal(12, 1), -1) == 2 && GetDigit(Decimal(12, 1), 0) == 1 && GetDigit(Decimal(123, 2), -2) == 3
    ensures GetDigit(Decimal(123, 2), -1) == 2 && GetDigit(Decimal(123, 2), 0) == 1 && GetDigit(Decimal(12, 0), 0) == 2
    ensures GetDigit(Decimal(12, 0), 1) == 1 && GetDigit(Decimal(123, 1), -1) == 3 && GetDigit(Decimal(123, 1), 0) == 2
    ensures GetDigit(Decimal(123, 1), 1) == 1 && GetDigit(Decimal(123, 0), 0) == 3 && GetDigit(Decimal(123, 0), 1) == 2
    ensures GetDigit(Decimal(123, 0), 2) == 1 && GetDigit(Decimal(2, 1), -1) == 2 && GetDigit(Decimal(2, 1), 0) == 0
    ensures GetDigit(Decimal(23, 2), -2) == 3 && GetDigit(Decimal(23, 2), -1) == 2 && GetDigit(Decimal(23, 2), 0) == 0
    ensures GetDigit(Decimal(1000, 2), -2) == 0 && GetDigit(Decimal(1000, 2), -1) == 0 && GetDigit(Decimal(1000, 2), 0) == 0
  {
    assert Pow10(1) == 10 && Pow10(2) == 100;
  }

  /** The frame of a laid-out value, read left to right, with Blue as the sign LED. */
  lemma LaidOutFrame(value: Decimal, l: DecimalLayout)
    requires InDisplayRange(value) && DecimalLayoutOf(value) == l
    ensures DecimalFrame(value, Blue) == Showing(DecimalSlot(l, 2), DecimalSlot(l, 1), DecimalSlot(l, 0), SignOnLed(l))
  {
  }

  /** 1.2 */
  lemma DecimalPositiveOneIntegralOneFractional()
    ensures DecimalFrame(Decimal(12, 1), Blue) == Showing(Empty, DigitGlyph(1, true), DigitGlyph(2, false), false)
  {
    var l := DecimalLayout(false, Decimal(12, 1), 1, 1);
    SmallValuesInRange(Decimal(12, 1));
    assert IntegerDigits(Decimal(12, 1)) == 1 by { assert Pow10(1) == 10; assert Floor(Decimal(12, 1)) == 1; }
    assert FractionalDigits(Decimal(12, 1)) == 1;
    FittingLayout(Decimal(12, 1), 1, 1);
    WorkedExampleDigits();
    LaidOutFrame(Decimal(12, 1), l);
    DigitSlot(l, 0);
    DigitSlot(l, 1);
    assert DecimalSlot(l, 2) == Empty;
  }

  /** 1.23 */
  lemma DecimalPositiveOneIntegralTwoFractionals()
    ensures DecimalFrame(Decimal(123, 2), Blue) == Showing(DigitGlyph(1, true), DigitGlyph(2, false), DigitGlyph(3, false), false)
  {
    var l := DecimalLayout(false, Decimal(123, 2), 1, 2);
    SmallValuesInRange(Decimal(123, 2));
    assert IntegerDigits(Decimal(123, 2)) == 1 by { assert Pow10(2) == 100; assert Floor(Decimal(123, 2)) == 1; }
    assert FractionalDigits(Decimal(123, 2)) == 2;
    FittingLayout(Decimal(123, 2), 1, 2);
    WorkedExampleDigits();
    LaidOutFrame(Decimal(123, 2), l);
    DigitSlot(l, 0);
    DigitSlot(l, 1);
    DigitSlot(l, 2);
  }

  /** 12 */
  lemma DecimalPositiveTwoIntegralZeroFractionals()
    ensures DecimalFrame(Decimal(12, 0), Blue) == Showing(Empty, DigitGlyph(1, false), DigitGlyph(2, false), false)
  {
    var l := DecimalLayout(false, Decimal(12, 0), 2, 0);
    SmallValuesInRange(Decimal(12, 0));
    assert IntegerDigits(Decimal(12, 0)) == 2 by { assert Pow10(0) == 1; assert Floor(Decimal(12, 0)) == 12; }
    assert FractionalDigits(Decimal(12, 0)) == 0;
    FittingLayout(Decimal(12, 0), 2, 0);
    WorkedExampleDigits();
    LaidOutFrame(Decimal(12, 0), l);
    DigitSlot(l, 0);
    DigitSlot(l, 1);
    assert DecimalSlot(l, 2) == Empty;
  }

  /** 12.3 */
  lemma DecimalPositiveTwoIntegralOneFractional()
    ensures DecimalFrame(Decimal(123, 1), Blue) == Showing(DigitGlyph(1, false), DigitGlyph(2, true), DigitGlyph(3, false), false)
  {
    var l := DecimalLayout(false, Decimal(123, 1), 2, 1);
    SmallValuesInRange(Decimal(123, 1));
    assert IntegerDigits(Decimal(123, 1)) == 2 by { assert Pow10(1) == 10; assert Floor(Decimal(123, 1)) == 12; }
    assert FractionalDigits(Decimal(123, 1)) == 1;
    FittingLayout(Decimal(123, 1), 2, 1);
    WorkedExampleDigits();
    LaidOutFrame(Decimal(123, 1), l);
    DigitSlot(l, 0);
    DigitSlot(l, 1);
    DigitSlot(l, 2);
  }

  /** 123 */
  lemma DecimalPositiveThreeIntegral()
    ensures DecimalFrame(Decimal(123, 0), Blue) == Showing(DigitGlyph(1, false), DigitGlyph(2, false), DigitGlyph(3, false), false)
  {
    var l := DecimalLayout(false, Decimal(123, 0), 3, 0);
    SmallValuesInRange(Decimal(123, 0));
    assert IntegerDigits(Decimal(123, 0)) == 3 by { assert Pow10(0) == 1; assert Floor(Decimal(123, 0)) == 123; }
    assert FractionalDigits(Decimal(123, 0)) == 0;
    FittingLayout(Decimal(123, 0), 3, 0);
    WorkedExampleDigits();
    LaidOutFrame(Decimal(123, 0), l);
    DigitSlot(l, 0);
    DigitSlot(l, 1);
    DigitSlot(l, 2);
  }

  /** 0.2 */
  lemma DecimalPositiveZeroAndOneFractional()
    ensures DecimalFrame(Decimal(2, 1), Blue) == Showing(Empty, DigitGlyph(0, true), DigitGlyph(2, false), false)
  {
    var l := DecimalLayout(false, Decimal(2, 1), 1, 1);
    SmallValuesInRange(Decimal(2, 1));
    assert IntegerDigits(Decimal(2, 1)) == 1 by { assert Pow10(1) == 10; assert Floor(Decimal(2, 1)) == 0; }
    assert FractionalDigits(Decimal(2, 1)) == 1;
    FittingLayout(Decimal(2, 1), 1, 1);
    WorkedExampleDigits();
    LaidOutFrame(Decimal(2, 1), l);
    DigitSlot(l, 0);
    DigitSlot(l, 1);
    assert DecimalSlot(l, 2) == Empty;
  }

  /** 0.23 */
  lemma DecimalPositiveZeroAndTwoFractionals()
    ensures DecimalFrame(Decimal(23, 2), Blue) == Showing(DigitGlyph(0, true), DigitGlyph(2, false), DigitGlyph(3, false), false)
  {
    var l := DecimalLayout(false, Decimal(23, 2), 1, 2);
    SmallValuesInRange(Decimal(23, 2));
    assert IntegerDigits(Decimal(23, 2)) == 1 by { assert Pow10(2) == 100; assert Floor(Decimal(23, 2)) == 0; }
    assert FractionalDigits(Decimal(23, 2)) == 2;
    FittingLayout(Decimal(23, 2), 1, 2);
    WorkedExampleDigits();
    LaidOutFrame(Decimal(23, 2), l);
    DigitSlot(l, 0);
    DigitSlot(l, 1);
    DigitSlot(l, 2);
  }

  /** -1.2 */
  lemma DecimalNegativeOneIntegralOneFractional()
    ensures DecimalFrame(Decimal(-12, 1), Blue) == Showing(FromSymbol('-', false), DigitGlyph(1, true), DigitGlyph(2, false), false)
  {
    var l := DecimalLayout(true, Decimal(12, 1), 1, 1);
    SmallValuesInRange(Decimal(-12, 1));
    assert IntegerDigits(Decimal(12, 1)) == 1 by { assert Pow10(1) == 10; assert Floor(Decimal(12, 1)) == 1; }
    assert FractionalDigits(Decimal(12, 1)) == 1;
    FittingLayout(Decimal(-12, 1), 1, 1);
    WorkedExampleDigits();
    LaidOutFrame(Decimal(-12, 1), l);
    DigitSlot(l, 0);
    DigitSlot(l, 1);
    assert DecimalSlot(l, 2) == FromSymbol('-', false);
  }

  /** -1.23 */
  lemma DecimalNegativeOneIntegralTwoFractionals()
    ensures DecimalFrame(Decimal(-123, 2), Blue) == Showing(DigitGlyph(1, true), DigitGlyph(2, false), DigitGlyph(3, false), true)
  {
    var l := DecimalLayout(true, Decimal(123, 2), 1, 2);
    SmallValuesInRange(Decimal(-123, 2));
    assert IntegerDigits(Decimal(123, 2)) == 1 by { assert Pow10(2) == 100; assert Floor(Decimal(123, 2)) == 1; }
    assert FractionalDigits(Decimal(123, 2)) == 2;
    FittingLayout(Decimal(-123, 2), 1, 2);
    WorkedExampleDigits();
    LaidOutFrame(Decimal(-123, 2), l);
    DigitSlot(l, 0);
    DigitSlot(l, 1);
    DigitSlot(l, 2);
  }

  /** -12 */
  lemma DecimalNegativeTwoIntegralZeroFractionals()
    ensures DecimalFrame(Decimal(-12, 0), Blue) == Showing(FromSymbol('-', false), DigitGlyph(1, false), DigitGlyph(2, false), false)
  {
    var l := DecimalLayout(true, Decimal(12, 0), 2, 0);
    SmallValuesInRange(Decimal(-12, 0));
    assert IntegerDigits(Decimal(12, 0)) == 2 by { assert Pow10(0) == 1; assert Floor(Decimal(12, 0)) == 12; }
    assert FractionalDigits(Decimal(12, 0)) == 0;
    FittingLayout(Decimal(-12, 0), 2, 0);
    WorkedExampleDigits();
    LaidOutFrame(Decimal(-12, 0), l);
    DigitSlot(l, 0);
    DigitSlot(l, 1);
    assert DecimalSlot(l, 2) == FromSymbol('-', false);
  }

  /** -12.3 */
  lemma DecimalNegativeTwoIntegralOneFractional()
    ensures DecimalFrame(Decimal(-123, 1), Blue) == Showing(DigitGlyph(1, false), DigitGlyph(2, true), DigitGlyph(3, false), true)
  {
    var l := DecimalLayout(true, Decimal(123, 1), 2, 1);
    SmallValuesInRange(Decimal(-123, 1));
    assert IntegerDigits(Decimal(123, 1)) == 2 by { assert Pow10(1) == 10; assert Floor(Decimal(123, 1)) == 12; }
    assert FractionalDigits(Decimal(123, 1)) == 1;
    FittingLayout(Decimal(-123, 1), 2, 1);
    WorkedExampleDigits();
    LaidOutFrame(Decimal(-123, 1), l);
    DigitSlot(l, 0);
    DigitSlot(l, 1);
    DigitSlot(l, 2);
  }

  /** -123 */
  lemma DecimalNegativeThreeIntegral()
    ensures DecimalFrame(Decimal(-123, 0), Blue) == Showing(DigitGlyph(1, false), DigitGlyph(2, false), DigitGlyph(3, false), true)
  {
    var l := DecimalLayout(true, Decimal(123, 0), 3, 0);
    SmallValuesInRange(Decimal(-123, 0));
    assert IntegerDigits(Decimal(123, 0)) == 3 by { assert Pow10(0) == 1; assert Floor(Decimal(123, 0)) == 123; }
    assert FractionalDigits(Decimal(123, 0)) == 0;
    FittingLayout(Decimal(-123, 0), 3, 0);
    WorkedExampleDigits();
    LaidOutFrame(Decimal(-123, 0), l);
    DigitSlot(l, 0);
    DigitSlot(l, 1);
    DigitSlot(l, 2);
  }

  /** -0.2 */
  lemma DecimalNegativeZeroAndOneFractional()
    ensures DecimalFrame(Decimal(-2, 1), Blue) == Showing(FromSymbol('-', false), DigitGlyph(0, true), DigitGlyph(2, false), false)
  {
    var l := DecimalLayout(true, Decimal(2, 1), 1, 1);
    SmallValuesInRange(Decimal(-2, 1));
    assert IntegerDigits(Decimal(2, 1)) == 1 by { assert Pow10(1) == 10; assert Floor(Decimal(2, 1)) == 0; }
    assert FractionalDigits(Decimal(2, 1)) == 1;
    FittingLayout(Decimal(-2, 1), 1, 1);
    WorkedExampleDigits();
    LaidOutFrame(Decimal(-2, 1), l);
    DigitSlot(l, 0);
    DigitSlot(l, 1);
    assert DecimalSlot(l, 2) == FromSymbol('-', false);
  }

  /** -0.23 */
  lemma DecimalNegativeZeroAndTwoFractionals()
    ensures DecimalFrame(Decimal(-23, 2), Blue) == Showing(DigitGlyph(0, true), DigitGlyph(2, false), DigitGlyph(3, false), true)
  {
    var l := DecimalLayout(true, Decimal(23, 2), 1, 2);
    SmallValuesInRange(Decimal(-23, 2));
    assert IntegerDigits(Decimal(23, 2)) == 1 by { assert Pow10(2) == 100; assert Floor(Decimal(23, 2)) == 0; }
    assert FractionalDigits(Decimal(23, 2)) == 2;
    FittingLayout(Decimal(-23, 2), 1, 2);
    WorkedExampleDigits();
    LaidOutFrame(Decimal(-23, 2), l);
    DigitSlot(l, 0);
    DigitSlot(l, 1);
    DigitSlot(l, 2);
  }

  /** 9.996 has one integer digit, so it is rounded to two places: 10.00, one digit too many. */
  lemma RoundingCarryLayout()
    ensures InDisplayRange(Decimal(9996, 3))
    ensures DecimalLayoutOf(Decimal(9996, 3)) == DecimalLayout(false, Decimal(1000, 2), 1, 2)
  {
    var v := Decimal(9996, 3);
    assert Pow10(3) == 1000 && Pow10(1) == 10;
    assert MaxDecimalValue == Decimal(999, 0) && MinDecimalValue == Decimal(-999, 0);
    assert Abs(v) == v && Floor(v) == 9;
    assert FractionalDigits(v) == 3;
    assert RoundHalfEven(9996, 10) == 1000;
  }

  /**
   * 9.996: the layout counts one integer digit before rounding, so the carry into the tens
   * is lost and the display reads 0.00.
   */
  lemma DecimalRoundingCarry()
    ensures DecimalFrame(Decimal(9996, 3), Blue) == Showing(DigitGlyph(0, true), DigitGlyph(0, false), DigitGlyph(0, false), false)
  {
    var l := DecimalLayout(false, Decimal(1000, 2), 1, 2);
    RoundingCarryLayout();
    WorkedExampleDigits();
    LaidOutFrame(Decimal(9996, 3), l);
    DigitSlot(l, 0);
    DigitSlot(l, 1);
    DigitSlot(l, 2);
  }
}
