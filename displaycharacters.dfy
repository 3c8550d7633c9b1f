/**
 * BaseStation/DisplayCharacter.cs: one seven-segment glyph as the byte shifted out to the
 * display. Bit 0 is the decimal point; the other seven bits are segments.
 */
module DisplayCharacters {
  import opened Wrappers

  datatype DisplayCharacter = DisplayCharacter(value: bv8)

  /** Segment patterns of the digits 0 to 9, decimal point clear. */
  const DigitValues: seq<bv8> := [0x7E, 0x60, 0xB6, 0xF2, 0xE8, 0xBA, 0xDE, 0x70, 0xFE, 0xFA]

  /** Segment patterns of the symbols the display knows. */
  const SymbolValues: map<char, bv8> := map[
    ' ' := 0x00, '.' := 0x01, '_' := 0x02, '-' := 0x80, '?' := 0xB4, '!' := 0x61,
    'A' := 0xFC, 'b' := 0xCE, 'c' := 0x86, 'C' := 0x1E, 'd' := 0xE6, 'E' := 0x9E,
    'F' := 0x9C, 'g' := 0xFA, 'h' := 0xCC, 'H' := 0xEC, 'i' := 0x40, 'I' := 0x60,
    'J' := 0x66, 'k' := 0x8C, 'l' := 0x60, 'L' := 0x0E, 'm' := 0xE4, 'n' := 0xC4,
    'N' := 0x7C, 'o' := 0xC6, 'O' := 0x7E, 'P' := 0xBC, 'q' := 0xF8, 'r' := 0x84,
    'S' := 0xBA, 't' := 0x8E, 'u' := 0x46, 'U' := 0x6E, 'V' := 0xAC, 'w' := 0xE8,
    'x' := 0xEC, 'y' := 0xEA, 'Z' := 0xB6]

  const Empty := DisplayCharacter(0x00)

  const Full := DisplayCharacter(0xFF)

  function FromRaw(value: bv8): (c: DisplayCharacter)
    ensures c.value == value
  {
    DisplayCharacter(value)
  }

  /** Light the decimal point when asked to. */
  function Dotify(value: bv8, dot: bool): (r: bv8)
    ensures r & 0xFE == value & 0xFE
    ensures r & 0x01 == (if dot then 0x01 else value & 0x01)
    ensures !dot ==> r == value
  {
    if dot then value | 1 else value
  }

  predicate HasDot(c: DisplayCharacter) {
    c.value & 0x01 != 0
  }

  /** The same glyph with its decimal point lit. */
  function WithDot(c: DisplayCharacter): (r: DisplayCharacter)
    ensures HasDot(r)
    ensures r.value & 0xFE == c.value & 0xFE
  {
    DisplayCharacter(c.value | 1)
  }

  /** `DisplayCharacter.FromDigit(digit, dot)`: a digit outside 0 to 9 is rejected. */
  function FromDigit(digit: int, dot: bool): (r: Result<DisplayCharacter>)
    ensures r.Err? <==> digit < 0 || digit > 9
    ensures r.Err? ==> r.error == ArgumentOutOfRange
    ensures r.Ok? ==> HasDot(r.value) == dot
  {
    if digit < 0 || digit > 9 then Err(ArgumentOutOfRange)
    else Ok(DisplayCharacter(Dotify(DigitValues[digit], dot)))
  }

  /** The glyph `FromDigit` gives for a digit already known to be in range. */
  function DigitGlyph(digit: int, dot: bool): (c: DisplayCharacter)
    requires 0 <= digit <= 9
    ensures HasDot(c) == dot
  {
    FromDigit(digit, dot).value
  }

  // `char.ToUpperInvariant` and `char.ToLowerInvariant`, on the ASCII letters.

  function ToUpper(c: char): (r: char)
    ensures 'a' <= c <= 'z' ==> 'A' <= r <= 'Z'
    ensures !('a' <= c <= 'z') ==> r == c
  {
    if 'a' <= c <= 'z' then (c as int - 32) as char else c
  }

  function ToLower(c: char): (r: char)
    ensures 'A' <= c <= 'Z' ==> 'a' <= r <= 'z'
    ensures !('A' <= c <= 'Z') ==> r == c
  {
    if 'A' <= c <= 'Z' then (c as int + 32) as char else c
  }

  /** The table pattern a symbol resolves to: itself, its upper case, its lower case, else `'?'`. */
  function SymbolPattern(symbol: char): (v: bv8)
    ensures exists k :: k in SymbolValues && SymbolValues[k] == v
    ensures symbol in SymbolValues ==> v == SymbolValues[symbol]
    ensures symbol !in SymbolValues && ToUpper(symbol) !in SymbolValues && ToLower(symbol) !in SymbolValues
      ==> v == SymbolValues['?']
  {
    if symbol in SymbolValues then SymbolValues[symbol]
    else if ToUpper(symbol) in SymbolValues then SymbolValues[ToUpper(symbol)]
    else if ToLower(symbol) in SymbolValues then SymbolValues[ToLower(symbol)]
    else SymbolValues['?']
  }

  /** `DisplayCharacter.FromSymbol(symbol, dot)`: never fails; unknown symbols show as `'?'`. */
  function FromSymbol(symbol: char, dot: bool): (c: DisplayCharacter)
    ensures c.value & 0xFE == SymbolPattern(symbol) & 0xFE
    ensures HasDot(c) == (dot || SymbolPattern(symbol) & 0x01 != 0)
  {
    DisplayCharacter(Dotify(SymbolPattern(symbol), dot))
  }

  // ---------------------------------------------------------------------------------------
  // Properties

  /** No digit pattern lights the decimal point; a dotted digit differs from the plain one in bit 0 alone. */
  lemma DigitDotBit(digit: int)
    requires 0 <= digit <= 9
    ensures !HasDot(DigitGlyph(digit, false))
    ensures DigitGlyph(digit, true).value == DigitGlyph(digit, false).value | 1
  {
  }

  lemma DigitPatternsDistinct()
    ensures forall i, j :: 0 <= i < j < |DigitValues| ==> DigitValues[i] != DigitValues[j]
  {
  }

  /** The digit shown by a glyph, and whether its point is lit; None when it is not a digit glyph. */
  function DecodeDigit(c: DisplayCharacter): (r: Option<(int, bool)>)
    ensures r.Some? ==> 0 <= r.value.0 <= 9 && DigitGlyph(r.value.0, r.value.1) == c
  {
    var plain := c.value & 0xFE;
    if plain in DigitValues then
      var d := IndexOf(DigitValues, plain);
      Some((d, HasDot(c)))
    else None
  }

  function IndexOf(s: seq<bv8>, x: bv8): (i: nat)
    requires x in s
    ensures i < |s| && s[i] == x
    ensures forall j :: 0 <= j < i ==> s[j] != x
  {
    if s[0] == x then 0 else 1 + IndexOf(s[1..], x)
  }

  /** The digit and the point can be read back from every digit glyph. */
  lemma DigitRoundTrip(digit: int, dot: bool)
    requires 0 <= digit <= 9
    ensures DecodeDigit(DigitGlyph(digit, dot)) == Some((digit, dot))
  {
    var c := DigitGlyph(digit, dot);
    assert c.value & 0xFE == DigitValues[digit];
    DigitPatternsDistinct();
  }

  lemma DotifyIdempotent(value: bv8, dot: bool)
    ensures Dotify(Dotify(value, dot), dot) == Dotify(value, dot)
    ensures Dotify(Dotify(value, true), false) == Dotify(value, true)
  {
  }

  /** The point is ORed into every symbol, whichever way the lookup went. */
  lemma SymbolDot(symbol: char)
    ensures FromSymbol(symbol, true).value == FromSymbol(symbol, false).value | 1
    ensures HasDot(FromSymbol(symbol, true))
  {
  }

  /**
   * A letter whose other case has no entry shows the entry of the case that has one,
   * so the lookup is case-insensitive for such letters.
   */
  lemma SymbolCaseFallback(upper: char)
    requires 'A' <= upper <= 'Z'
    ensures var lower := ToLower(upper);
      && (upper in SymbolValues && lower !in SymbolValues
          ==> FromSymbol(lower, false) == FromSymbol(upper, false))
      && (lower in SymbolValues && upper !in SymbolValues
          ==> FromSymbol(upper, false) == FromSymbol(lower, false))
  {
    var lower := ToLower(upper);
    assert ToUpper(lower) == upper;
  }

  /** Symbols absent from the table in every case show the `'?'` pattern. */
  lemma UnknownSymbol(symbol: char)
    requires symbol !in SymbolValues && ToUpper(symbol) !in SymbolValues && ToLower(symbol) !in SymbolValues
    ensures FromSymbol(symbol, false) == FromSymbol('?', false)
  {
  }

  /** The characters the symbol table has an entry for. */
  predicate IsTableKey(k: char) {
    k == ' ' || k == '.' || k == '_' || k == '-' || k == '?' || k == '!' || k == 'A' || k == 'b'
    || k == 'c' || k == 'C' || k == 'd' || k == 'E' || k == 'F' || k == 'g' || k == 'h' || k == 'H'
    || k == 'i' || k == 'I' || k == 'J' || k == 'k' || k == 'l' || k == 'L' || k == 'm' || k == 'n'
    || k == 'N' || k == 'o' || k == 'O' || k == 'P' || k == 'q' || k == 'r' || k == 'S' || k == 't'
    || k == 'u' || k == 'U' || k == 'V' || k == 'w' || k == 'x' || k == 'y' || k == 'Z'
  }

  /** Every key of the table is one of the listed characters. */
  lemma TableKeys()
    ensures forall k :: k in SymbolValues ==> IsTableKey(k)
  {
  }

  /** The table has no digit characters, so a digit given as a symbol shows as `'?'`. */
  lemma DigitSymbolsAreUnknown(c: char, dot: bool)
    requires '0' <= c <= '9'
    ensures FromSymbol(c, dot) == FromSymbol('?', dot)
  {
    TableKeys();
    assert ToUpper(c) == c && ToLower(c) == c;
  }

  /** The minus sign lights the middle segment alone. */
  lemma MinusGlyph()
    ensures FromSymbol('-', false) == DisplayCharacter(0x80)
  {
  }

  lemma LowerCaseFallsBackToUpper()
    ensures FromSymbol('a', false).value == SymbolValues['A']
  {
    TableKeys();
    assert ToUpper('a') == 'A';
  }

  lemma UpperCaseFallsBackToLower()
    ensures FromSymbol('B', false).value == SymbolValues['b']
  {
    TableKeys();
    assert ToUpper('B') == 'B' && ToLower('B') == 'b';
  }

  lemma ExactCaseWins()
    ensures FromSymbol('c', false).value == SymbolValues['c']
    ensures FromSymbol('C', false).value == SymbolValues['C']
  {
  }

  lemma UnknownSymbolExample()
    ensures FromSymbol('#', true).value == 0xB5
  {
    TableKeys();
    assert ToUpper('#') == '#' && ToLower('#') == '#';
  }

  lemma BlankAndPointGlyphs()
    ensures FromSymbol(' ', false) == Empty
    ensures FromSymbol('.', false).value == 0x01
    ensures Empty.value == 0 && Full.value == 0xFF
  {
    assert ' ' in SymbolValues && '.' in SymbolValues;
    assert SymbolPattern(' ') == 0x00 && SymbolPattern('.') == 0x01;
  }
}
