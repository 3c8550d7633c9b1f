/**
 * BaseStation/BusyFrameIterator.cs: the "busy" animation, a single lit segment running
 * round the outline of the three digits. Step k lights one segment of one slot; the
 * enumerator walks the steps for ever, wrapping after the last.
 */
module BusyFrameIterators {
  import opened Wrappers
  import opened DisplayCharacters
  import opened DisplayFrames

  /** The bottom segment of a glyph. */
  const BottomSide: bv8 := 0x02

  /** The top segment of a glyph. */
  const TopSide: bv8 := 0x10

  /** The number of steps in one round of a three-slot display: 8 + (3 - 2) * 2. */
  const TotalPositions := 8 + (CharacterCount - 2) * 2

  /** C# integer division, which truncates towards zero. */
  function DivTowardZero(a: int, b: int): (q: int)
    requires b > 0
    ensures a >= 0 ==> q == a / b
    ensures a < 0 ==> q == -((-a) / b)
  {
    if a >= 0 then a / b else -((-a) / b)
  }

  /** 1 << n, as a byte. */
  function Bit(n: nat): (b: bv8)
    requires n < 8
  {
    (1 as bv8) << n
  }

  /** The single-segment bytes of the segments 1 to 6. */
  predicate IsSegmentBit(b: bv8) {
    b == 0x02 || b == 0x04 || b == 0x08 || b == 0x10 || b == 0x20 || b == 0x40
  }

  /**
   * `GetValueAndCharacterIndex(index, totalPositions)`: the segment byte and the slot of one
   * step. The last two steps are the right side of slot 0, the two steps before the middle
   * the left side of the leftmost slot, the rest of the first half the bottom of slot
   * `index` and the second half the top, reflected.
   */
  function GetValueAndCharacterIndex(index: int, totalPositions: int): (r: Result<(bv8, int)>)
    ensures r.Err? <==> totalPositions < 6 || index < 0 || index >= totalPositions
    ensures r.Err? ==> r.error == ArgumentOutOfRange
    ensures r.Ok? ==> IsSegmentBit(r.value.0)
  {
    if totalPositions < 6 then Err(ArgumentOutOfRange)
    else if index < 0 || index >= totalPositions then Err(ArgumentOutOfRange)
    else
      var numCharacters := DivTowardZero(totalPositions - 8, 2) + 2;
      if index >= totalPositions - 2 then
        Ok((Bit(7 - (totalPositions - index)), 0))
      else
        var half := totalPositions / 2;
        if index >= half - 2 && index < half then Ok((Bit(index - half + 4), numCharacters - 1))
        else if index < half then Ok((BottomSide, index))
        else if index >= half then Ok((TopSide, half - index + 2))
        else assert false; Err(InvalidOperation)
  }

  /** The frame of step `step` of the three-slot animation. */
  function StepFrame(step: int): (f: DisplayFrame)
    requires 0 <= step < TotalPositions
  {
    var (value, characterIndex) := GetValueAndCharacterIndex(step, TotalPositions).value;
    StepSlotInRange(step);
    WithCharacter(New(), characterIndex, FromRaw(value)).value
  }

  /**
   * For the three-slot display every step names a slot that exists: the written reflection
   * agrees there with the corrected one, whose slots stay on the display.
   */
  lemma StepSlotInRange(step: int)
    requires 0 <= step < TotalPositions
    ensures GetValueAndCharacterIndex(step, TotalPositions).Ok?
    ensures 0 <= GetValueAndCharacterIndex(step, TotalPositions).value.1 < CharacterCount
  {
    ReflectedSlotsInRange(step, TotalPositions);
    ReflectionsAgreeOnThreeSlots(step);
  }

  /** The whole round, step by step: segment byte and slot. */
  lemma StepTable()
    ensures TotalPositions == 10
    ensures GetValueAndCharacterIndex(0, 10) == Ok((0x02, 0))
    ensures GetValueAndCharacterIndex(1, 10) == Ok((0x02, 1))
    ensures GetValueAndCharacterIndex(2, 10) == Ok((0x02, 2))
    ensures GetValueAndCharacterIndex(3, 10) == Ok((0x04, 2))
    ensures GetValueAndCharacterIndex(4, 10) == Ok((0x08, 2))
    ensures GetValueAndCharacterIndex(5, 10) == Ok((0x10, 2))
    ensures GetValueAndCharacterIndex(6, 10) == Ok((0x10, 1))
    ensures GetValueAndCharacterIndex(7, 10) == Ok((0x10, 0))
    ensures GetValueAndCharacterIndex(8, 10) == Ok((0x20, 0))
    ensures GetValueAndCharacterIndex(9, 10) == Ok((0x40, 0))
  {
  }

  /** Every frame lights exactly one segment of one slot, never the point, and no LED. */
  lemma StepFrameShape(step: int)
    requires 0 <= step < TotalPositions
    ensures StepFrame(step).Valid()
    ensures forall s :: !StepFrame(step).statusLeds[s]
    ensures var slot := GetValueAndCharacterIndex(step, TotalPositions).value.1;
      && 0 <= slot < CharacterCount
      && IsSegmentBit(StepFrame(step).characters[slot].value)
      && forall j :: 0 <= j < CharacterCount && j != slot ==> StepFrame(step).characters[j] == Empty
  {
    StepSlotInRange(step);
  }

  /** The ten frames of one round are all different. */
  lemma StepFramesDistinct(a: int, b: int)
    requires 0 <= a < b < TotalPositions
    ensures StepFrame(a) != StepFrame(b)
  {
    StepTable();
    var ra := GetValueAndCharacterIndex(a, TotalPositions).value;
    var rb := GetValueAndCharacterIndex(b, TotalPositions).value;
    StepFrameShape(a);
    StepFrameShape(b);
    assert ra != rb;
    if ra.1 == rb.1 {
      assert StepFrame(a).characters[ra.1].value == ra.0;
      assert StepFrame(b).characters[rb.1].value == rb.0;
    } else {
      assert StepFrame(a).characters[ra.1] != Empty;
      assert StepFrame(b).characters[ra.1] == Empty;
    }
  }

  /** The position of the animation: `index`, wrapping to 0 after the last step. */
  class BusyFrameEnumerator {
    var index: int
    /** How many frames have been handed out. */
    ghost var steps: nat

    ghost predicate Valid()
      reads this
    {
      0 <= index < TotalPositions && index == steps % TotalPositions
    }

    constructor ()
      ensures Valid() && steps == 0 && index == 0
    {
      index := 0;
      steps := 0;
    }

    /** Hand out the frame of the current step, then advance, wrapping to step 0. */
    method MoveNext() returns (frame: DisplayFrame)
      requires Valid()
      modifies this
      ensures Valid() && steps == old(steps) + 1
      ensures frame == StepFrame(old(steps) % TotalPositions)
    {
      var result := GetValueAndCharacterIndex(index, TotalPositions);
      var (value, characterIndex) := result.value;
      var character := FromRaw(value);
      StepSlotInRange(index);
      var next := WithCharacter(New(), characterIndex, character);
      frame := next.value;

      index := index + 1;
      if index >= TotalPositions {
        index := 0;
      }
      steps := steps + 1;
    }
  }

  /** `GetEnumerator()`: every enumeration starts again at step 0. */
  method GetEnumerator() returns (e: BusyFrameEnumerator)
    ensures fresh(e) && e.Valid() && e.steps == 0 && e.index == 0
  {
    e := new BusyFrameEnumerator();
  }

  /** The n-th frame of an enumeration. */
  function FrameAt(n: nat): DisplayFrame {
    StepFrame(n % TotalPositions)
  }

  /** The animation repeats every ten frames. */
  lemma FramesRepeat(n: nat)
    ensures FrameAt(n + TotalPositions) == FrameAt(n)
  {
    assert (n + TotalPositions) % TotalPositions == n % TotalPositions;
  }

  // ---------------------------------------------------------------------------------------
  // The top-half reflection on wider displays

  /**
   * On a four-slot display (12 positions) the top-half reflection `half - index + 2` sends
   * step 9 to slot -1, off the display; with three slots it never leaves 0 .. 2.
   */
  lemma ReflectionLeavesWiderDisplay()
    ensures GetValueAndCharacterIndex(9, 12) == Ok((TopSide, -1))
  {
  }

  /** The same mapping with the top half reflected as `totalPositions - 3 - index`. */
  function ReflectedValueAndCharacterIndex(index: int, totalPositions: int): (r: Result<(bv8, int)>)
    ensures r.Err? <==> totalPositions < 6 || index < 0 || index >= totalPositions
    ensures r.Err? ==> r.error == ArgumentOutOfRange
    ensures r.Ok? ==> IsSegmentBit(r.value.0)
  {
    if totalPositions < 6 then Err(ArgumentOutOfRange)
    else if index < 0 || index >= totalPositions then Err(ArgumentOutOfRange)
    else
      var numCharacters := DivTowardZero(totalPositions - 8, 2) + 2;
      if index >= totalPositions - 2 then
        Ok((Bit(7 - (totalPositions - index)), 0))
      else
        var half := totalPositions / 2;
        if index >= half - 2 && index < half then Ok((Bit(index - half + 4), numCharacters - 1))
        else if index < half then Ok((BottomSide, index))
        else Ok((TopSide, totalPositions - 3 - index))
  }

  /** With the reflection corrected, every step of an even-sized round names an existing slot. */
  lemma ReflectedSlotsInRange(index: int, totalPositions: int)
    requires totalPositions >= 8 && totalPositions % 2 == 0 && 0 <= index < totalPositions
    ensures var r := ReflectedValueAndCharacterIndex(index, totalPositions);
      r.Ok? && 0 <= r.value.1 < (totalPositions - 8) / 2 + 2
  {
  }

  /** On the three-slot display the two reflections agree, so the animation is unchanged. */
  lemma ReflectionsAgreeOnThreeSlots(index: int)
    requires 0 <= index < TotalPositions
    ensures ReflectedValueAndCharacterIndex(index, TotalPositions) == GetValueAndCharacterIndex(index, TotalPositions)
  {
  }
}
