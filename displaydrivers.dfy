/**
 * BaseStation/DisplayDriver.cs: puts a frame on the display by clocking 32 bits into the LED
 * driver's shift-register chain and pulsing the latch. The glyph bytes go first, slot 0 first,
 * each most significant bit first; then five padding zeros; then the Green, Blue and Red LEDs.
 */
module DisplayDrivers {
  import opened Wrappers
  import opened LedDrivers
  import opened Extensions
  import opened DisplayCharacters
  import opened DisplayFrames

  // ---------------------------------------------------------------------------------------
  // The bits of a frame

  /** The glyph bytes one after the other, each most significant bit first. */
  function CharacterBits(characters: seq<DisplayCharacter>): (bits: seq<bool>)
    ensures |bits| == 8 * |characters|
  {
    if characters == [] then []
    else CharacterBits(characters[..|characters| - 1]) + ByteBits(characters[|characters| - 1].value)
  }

  /** The number of unused register outputs between the glyphs and the LEDs. */
  const PaddingLength := 5

  /** The padding zeros. */
  function PaddingBits(): (bits: seq<bool>)
    ensures |bits| == PaddingLength && forall k :: 0 <= k < |bits| ==> !bits[k]
  {
    seq(PaddingLength, _ => false)
  }

  /** The LED bits, in the order the register chain expects them: Green, Blue, Red. */
  function StatusBits(frame: DisplayFrame): (bits: seq<bool>)
    requires frame.Valid()
    ensures |bits| == 3
  {
    [frame.statusLeds[Green], frame.statusLeds[Blue], frame.statusLeds[Red]]
  }

  /** Everything `ShowFrame` shifts into the register for a frame, in order. */
  function FrameBits(frame: DisplayFrame): (bits: seq<bool>)
    requires frame.Valid()
    ensures |bits| == RegisterLength
  {
    CharacterBits(frame.characters) + PaddingBits() + StatusBits(frame)
  }

  /** Three glyphs give their three bytes in slot order. */
  lemma CharacterBitsOfThree(c: seq<DisplayCharacter>)
    requires |c| == 3
    ensures CharacterBits(c) == ByteBits(c[0].value) + ByteBits(c[1].value) + ByteBits(c[2].value)
  {
    assert c[..|c| - 1] == c[..2];
    assert c[..2][..1] == c[..1];
    assert CharacterBits(c[..2]) == CharacterBits(c[..1]) + ByteBits(c[1].value);
    assert c[..1][..0] == [];
    assert CharacterBits(c[..1]) == ByteBits(c[0].value);
  }

  /** Bits 24 .. 28 of a frame are the padding zeros. */
  lemma FramePaddingBits(frame: DisplayFrame)
    requires frame.Valid()
    ensures forall k :: 24 <= k < 29 ==> !FrameBits(frame)[k]
  {
    assert FrameBits(frame)[24..29] == PaddingBits();
  }

  /** The last three bits of a frame are its Green, Blue and Red LEDs. */
  lemma FrameLedBits(frame: DisplayFrame)
    requires frame.Valid()
    ensures FrameBits(frame)[29] == frame.statusLeds[Green]
    ensures FrameBits(frame)[30] == frame.statusLeds[Blue]
    ensures FrameBits(frame)[31] == frame.statusLeds[Red]
  {
    assert FrameBits(frame)[29..] == StatusBits(frame);
  }

  lemma EightBitSlices(b0: seq<bool>, b1: seq<bool>, b2: seq<bool>, rest: seq<bool>)
    requires |b0| == |b1| == |b2| == 8
    ensures (b0 + b1 + b2 + rest)[0..8] == b0
    ensures (b0 + b1 + b2 + rest)[8..16] == b1
    ensures (b0 + b1 + b2 + rest)[16..24] == b2
  {
  }

  /** The first 24 bits of a frame: its glyph bytes in slot order. */
  lemma FrameGlyphBits(frame: DisplayFrame)
    requires frame.Valid()
    ensures forall k :: 0 <= k < CharacterCount ==> FrameBits(frame)[8 * k .. 8 * k + 8] == ByteBits(frame.characters[k].value)
  {
    var c := frame.characters;
    CharacterBitsOfThree(c);
    var rest := PaddingBits() + StatusBits(frame);
    var bits := FrameBits(frame);
    EightBitSlices(ByteBits(c[0].value), ByteBits(c[1].value), ByteBits(c[2].value), rest);
    assert bits == ByteBits(c[0].value) + ByteBits(c[1].value) + ByteBits(c[2].value) + rest;
    forall k | 0 <= k < CharacterCount
      ensures bits[8 * k .. 8 * k + 8] == ByteBits(c[k].value)
    {
      if k == 0 {
      } else if k == 1 {
      } else {
        assert k == 2;
      }
    }
  }

  /** A valid frame fills the register chain exactly, glyph by glyph, then padding, then LEDs. */
  lemma FrameBitsLayout(frame: DisplayFrame)
    requires frame.Valid()
    ensures |FrameBits(frame)| == RegisterLength
    ensures forall k :: 0 <= k < CharacterCount ==> FrameBits(frame)[8 * k .. 8 * k + 8] == ByteBits(frame.characters[k].value)
    ensures forall k :: 24 <= k < 29 ==> !FrameBits(frame)[k]
    ensures FrameBits(frame)[29] == frame.statusLeds[Green]
    ensures FrameBits(frame)[30] == frame.statusLeds[Blue]
    ensures FrameBits(frame)[31] == frame.statusLeds[Red]
  {
    FrameGlyphBits(frame);
    FramePaddingBits(frame);
    FrameLedBits(frame);
  }

  /** Reads a register image back as the frame it shows. */
  function FrameFromBits(bits: seq<bool>): (frame: DisplayFrame)
    requires |bits| == RegisterLength
    ensures frame.Valid()
  {
    var leds := map[Red := bits[31], Green := bits[29], Blue := bits[30]];
    AllLedsPresent(leds);
    DisplayFrame([DisplayCharacter(ByteFromBits(bits[0..8])),
                  DisplayCharacter(ByteFromBits(bits[8..16])),
                  DisplayCharacter(ByteFromBits(bits[16..24]))], leds)
  }

  lemma GlyphsRoundTrip(frame: DisplayFrame)
    requires frame.Valid()
    ensures FrameFromBits(FrameBits(frame)).characters == frame.characters
  {
    FrameGlyphBits(frame);
    var back := FrameFromBits(FrameBits(frame));
    forall k | 0 <= k < CharacterCount
      ensures back.characters[k] == frame.characters[k]
    {
      ByteBitsRoundTrip(frame.characters[k].value);
    }
  }

  lemma LedsRoundTrip(frame: DisplayFrame)
    requires frame.Valid()
    ensures FrameFromBits(FrameBits(frame)).statusLeds == frame.statusLeds
  {
    FrameLedBits(frame);
    var back := FrameFromBits(FrameBits(frame));
    forall s: StatusLed
      ensures back.statusLeds[s] == frame.statusLeds[s]
    {
      assert s == Red || s == Green || s == Blue;
    }
  }

  /** The register image determines the frame: reading it back gives the frame that was shown. */
  lemma FrameBitsRoundTrip(frame: DisplayFrame)
    requires frame.Valid()
    ensures FrameFromBits(FrameBits(frame)) == frame
  {
    GlyphsRoundTrip(frame);
    LedsRoundTrip(frame);
  }

  /** Two different valid frames never put the same bits in the register. */
  lemma FrameBitsInjective(a: DisplayFrame, b: DisplayFrame)
    requires a.Valid() && b.Valid()
    requires FrameBits(a) == FrameBits(b)
    ensures a == b
  {
    FrameBitsRoundTrip(a);
    FrameBitsRoundTrip(b);
  }

  /** The blank frame switches every register output off. */
  lemma BlankFrameBits()
    ensures FrameBits(New()) == seq(RegisterLength, _ => false)
  {
    var f := New();
    FrameBitsLayout(f);
    assert ByteBits(Empty.value) == seq(8, _ => false);
    forall k | 0 <= k < RegisterLength
      ensures !FrameBits(f)[k]
    {
      if k < 24 {
        var j := k / 8;
        assert FrameBits(f)[8 * j .. 8 * j + 8] == ByteBits(f.characters[j].value);
        assert FrameBits(f)[k] == FrameBits(f)[8 * j .. 8 * j + 8][k - 8 * j];
      }
    }
  }

  // ---------------------------------------------------------------------------------------
  // Emitting the bits

  lemma CharacterBitsSnoc(characters: seq<DisplayCharacter>, k: nat)
    requires k < |characters|
    ensures CharacterBits(characters[..k + 1]) == CharacterBits(characters[..k]) + ByteBits(characters[k].value)
  {
    assert characters[..k + 1][..k] == characters[..k];
  }

  lemma ZerosTrace(s: LedDriverSettings, n: nat)
    ensures BitsTrace(s, seq(n + 1, _ => false)) == BitsTrace(s, seq(n, _ => false)) + WriteBitTrace(s, Low)
  {
    assert seq(n + 1, _ => false)[..n] == seq(n, _ => false);
  }

  lemma ThreeBitsTrace(s: LedDriverSettings, a: bool, b: bool, c: bool)
    ensures BitsTrace(s, [a, b, c]) == WriteBitTrace(s, LevelOf(a)) + WriteBitTrace(s, LevelOf(b)) + WriteBitTrace(s, LevelOf(c))
  {
    assert [a, b, c][..2] == [a, b];
    assert [a, b][..1] == [a];
    assert [a][..0] == [];
    assert BitsTrace(s, [a]) == WriteBitTrace(s, LevelOf(a));
    assert BitsTrace(s, [a, b]) == BitsTrace(s, [a]) + WriteBitTrace(s, LevelOf(b));
  }

  /** The glyph, padding and LED parts of a frame's pin operations make up the whole. */
  lemma FrameTraceParts(s: LedDriverSettings, frame: DisplayFrame)
    requires frame.Valid()
    ensures BitsTrace(s, CharacterBits(frame.characters)) + BitsTrace(s, PaddingBits()) + BitsTrace(s, StatusBits(frame))
      == BitsTrace(s, FrameBits(frame))
  {
    BitsTraceAppend(s, CharacterBits(frame.characters), PaddingBits());
    BitsTraceAppend(s, CharacterBits(frame.characters) + PaddingBits(), StatusBits(frame));
  }

  /** Once the last 32 bits shifted in are the frame's bits, latching publishes exactly them. */
  lemma LastBitsOfFrame(before: seq<bool>, frame: DisplayFrame)
    requires frame.Valid()
    ensures LastBits(before + FrameBits(frame), RegisterLength) == FrameBits(frame)
  {
    FrameBitsLayout(frame);
    var all := before + FrameBits(frame);
    if |all| > RegisterLength {
      assert all[|all| - RegisterLength..] == FrameBits(frame);
    } else {
      assert before == [];
    }
  }

  /** Shifting a frame's bits and pulsing the latch publishes exactly those bits. */
  lemma FrameLatched(start: seq<PinEvent>, s: LedDriverSettings, frame: DisplayFrame)
    requires DistinctPins(s) && frame.Valid()
    ensures LatchedBits(start + BitsTrace(s, FrameBits(frame)) + LatchTrace(s), s) == FrameBits(frame)
  {
    BitsShiftIn(start, s, FrameBits(frame));
    LatchPublishes(start + BitsTrace(s, FrameBits(frame)), s);
    LastBitsOfFrame(ShiftedBits(start, s), frame);
  }

  class DisplayDriver {
    const ledDriver: LedDriver

    /** The constructor once its argument has passed the null check. */
    constructor (ledDriver: LedDriver)
      ensures this.ledDriver == ledDriver
    {
      this.ledDriver := ledDriver;
    }

    /**
     * Shifts the frame's bits into the register chain and latches them. A missing frame is
     * rejected before any pin is touched.
     */
    method ShowFrame(frame: Option<DisplayFrame>) returns (r: Result<()>)
      requires frame.Some? ==> frame.value.Valid()
      modifies ledDriver`trace
      ensures r.Err? <==> frame.None?
      ensures r.Err? ==> r.error == ArgumentNull && ledDriver.trace == old(ledDriver.trace)
      ensures r.Ok? ==>
        ledDriver.trace == old(ledDriver.trace) + BitsTrace(ledDriver.settings, FrameBits(frame.value)) + LatchTrace(ledDriver.settings)
      ensures r.Ok? && DistinctPins(ledDriver.settings) ==>
        LatchedBits(ledDriver.trace, ledDriver.settings) == FrameBits(frame.value)
    {
      if frame.None? {
        return Err(ArgumentNull);
      }
      var f := frame.value;
      ghost var start := ledDriver.trace;
      ShiftGlyphs(f.characters);
      ShiftPadding();
      ShiftStatus(f);
      FrameTraceParts(ledDriver.settings, f);
      ledDriver.Latch();
      if DistinctPins(ledDriver.settings) {
        FrameLatched(start, ledDriver.settings, f);
      }
      return Ok(());
    }

    /** The first loop of `ShowFrame`: every glyph byte, slot 0 first. */
    method ShiftGlyphs(characters: seq<DisplayCharacter>)
      modifies ledDriver`trace
      ensures ledDriver.trace == old(ledDriver.trace) + BitsTrace(ledDriver.settings, CharacterBits(characters))
    {
      for k := 0 to |characters|
        invariant ledDriver.trace == old(ledDriver.trace) + BitsTrace(ledDriver.settings, CharacterBits(characters[..k]))
      {
        WriteByte(ledDriver, characters[k].value);
        CharacterBitsSnoc(characters, k);
        BitsTraceAppend(ledDriver.settings, CharacterBits(characters[..k]), ByteBits(characters[k].value));
      }
      assert characters[..|characters|] == characters;
    }

    /** The second loop of `ShowFrame`: five zeros for the unused outputs. */
    method ShiftPadding()
      modifies ledDriver`trace
      ensures ledDriver.trace == old(ledDriver.trace) + BitsTrace(ledDriver.settings, PaddingBits())
    {
      for i := 0 to PaddingLength
        invariant ledDriver.trace == old(ledDriver.trace) + BitsTrace(ledDriver.settings, seq(i, _ => false))
      {
        WriteBitValue(ledDriver, false);
        ZerosTrace(ledDriver.settings, i);
      }
    }

    /** The three LED bits of `ShowFrame`: Green, Blue, Red. */
    method ShiftStatus(f: DisplayFrame)
      requires f.Valid()
      modifies ledDriver`trace
      ensures ledDriver.trace == old(ledDriver.trace) + BitsTrace(ledDriver.settings, StatusBits(f))
    {
      var green, blue, red := f.statusLeds[Green], f.statusLeds[Blue], f.statusLeds[Red];
      WriteBitValue(ledDriver, green);
      WriteBitValue(ledDriver, blue);
      WriteBitValue(ledDriver, red);
      ThreeBitsTrace(ledDriver.settings, green, blue, red);
    }

    /** Shows the blank frame: every segment and every LED off. */
    method ClearDisplay()
      modifies ledDriver`trace
      ensures ledDriver.trace ==
        old(ledDriver.trace) + BitsTrace(ledDriver.settings, seq(RegisterLength, _ => false)) + LatchTrace(ledDriver.settings)
      ensures DistinctPins(ledDriver.settings) ==>
        LatchedBits(ledDriver.trace, ledDriver.settings) == seq(RegisterLength, _ => false)
    {
      BlankFrameBits();
      var _ := ShowFrame(Some(New()));
    }
  }

  /** `new DisplayDriver(ledDriver)`: a missing LED driver is rejected. */
  method NewDisplayDriver(ledDriver: LedDriver?) returns (r: Result<DisplayDriver>)
    ensures r.Err? <==> ledDriver == null
    ensures r.Err? ==> r.error == ArgumentNull
    ensures r.Ok? ==> fresh(r.value) && r.value.ledDriver == ledDriver
  {
    if ledDriver == null {
      return Err(ArgumentNull);
    }
    var d := new DisplayDriver(ledDriver);
    return Ok(d);
  }
}
