/**
 * BaseStation/LedDriver.cs: the driver owning the four output pins of the shift register
 * (data, clock, latch and an active-low output enable).
 *
 * The GPIO controller is represented by the trace of pin operations the driver issues to it,
 * in order; every settle delay (`PulseWait`) is a `Wait` event. Beside the trace, the
 * functions below read it the way the hardware does: which pins are open, which level a pin
 * was last driven to, which bits the shift register has clocked in and which bits it latched.
 */
module LedDrivers {
  import opened Wrappers

  datatype PinValue = Low | High

  datatype PinMode = Input | Output

  datatype PinEvent =
    | OpenPin(pin: int, mode: PinMode)
    | Write(pin: int, value: PinValue)
    | ClosePin(pin: int)
    | Wait

  datatype LedDriverSettings = LedDriverSettings(dataInPin: int, clockPin: int, latchPin: int, enablePin: int)

  /** The pin numbers a default `LedDriverSettings` carries. */
  const DefaultSettings := LedDriverSettings(22, 23, 24, 25)

  /** What the controller factory given to the constructor amounts to. */
  datatype ControllerFactory = NullFactory | FactoryReturningNull | FactoryReturningController

  predicate DistinctPins(s: LedDriverSettings) {
    && s.dataInPin != s.clockPin && s.dataInPin != s.latchPin && s.dataInPin != s.enablePin
    && s.clockPin != s.latchPin && s.clockPin != s.enablePin && s.latchPin != s.enablePin
  }

  predicate IsDriverPin(s: LedDriverSettings, pin: int) {
    pin == s.dataInPin || pin == s.clockPin || pin == s.latchPin || pin == s.enablePin
  }

  function LevelOf(bit: bool): PinValue {
    if bit then High else Low
  }

  // ---------------------------------------------------------------------------------------
  // The pin operations of each driver operation

  function OutputEnabledTrace(s: LedDriverSettings, enabled: bool): seq<PinEvent> {
    [Write(s.enablePin, if enabled then Low else High), Wait]
  }

  function SetUpTrace(s: LedDriverSettings): seq<PinEvent> {
    [OpenPin(s.dataInPin, Output), OpenPin(s.clockPin, Output),
     OpenPin(s.latchPin, Output), OpenPin(s.enablePin, Output)]
    + OutputEnabledTrace(s, false)
  }

  function TearDownTrace(s: LedDriverSettings): seq<PinEvent> {
    OutputEnabledTrace(s, false)
    + [ClosePin(s.dataInPin), ClosePin(s.clockPin), ClosePin(s.latchPin), ClosePin(s.enablePin)]
  }

  function WriteBitTrace(s: LedDriverSettings, value: PinValue): seq<PinEvent> {
    [Write(s.dataInPin, value), Wait, Write(s.clockPin, High), Wait, Write(s.clockPin, Low), Wait]
  }

  function LatchTrace(s: LedDriverSettings): seq<PinEvent> {
    [Write(s.latchPin, High), Wait, Write(s.latchPin, Low), Wait]
  }

  /** The pin operations of writing the given bits one after the other. */
  function BitsTrace(s: LedDriverSettings, bits: seq<bool>): seq<PinEvent> {
    if bits == [] then []
    else BitsTrace(s, bits[..|bits| - 1]) + WriteBitTrace(s, LevelOf(bits[|bits| - 1]))
  }

  lemma {:induction false} BitsTraceAppend(s: LedDriverSettings, a: seq<bool>, b: seq<bool>)
    ensures BitsTrace(s, a + b) == BitsTrace(s, a) + BitsTrace(s, b)
    decreases |b|
  {
    if b == [] {
      assert a + b == a;
    } else {
      var b' := b[..|b| - 1];
      assert (a + b)[..|a + b| - 1] == a + b';
      BitsTraceAppend(s, a, b');
    }
  }

  /** Writing one more bit of a sequence extends the trace of the bits before it. */
  lemma BitsTracePrefix(s: LedDriverSettings, bits: seq<bool>, i: nat)
    requires i < |bits|
    ensures BitsTrace(s, bits[..i + 1]) == BitsTrace(s, bits[..i]) + WriteBitTrace(s, LevelOf(bits[i]))
  {
    assert bits[..i + 1][..i] == bits[..i];
  }

  // ---------------------------------------------------------------------------------------
  // Reading a trace the way the hardware does

  /** The level most recently written to the pin, if any. */
  function LastWritten(trace: seq<PinEvent>, pin: int): Option<PinValue> {
    if trace == [] then None
    else
      var e := trace[|trace| - 1];
      if e.Write? && e.pin == pin then Some(e.value) else LastWritten(trace[..|trace| - 1], pin)
  }

  /** The pin is open: its most recent open or close was an open. */
  predicate IsOpen(trace: seq<PinEvent>, pin: int) {
    if trace == [] then false
    else
      var e := trace[|trace| - 1];
      if e.OpenPin? && e.pin == pin then true
      else if e.ClosePin? && e.pin == pin then false
      else IsOpen(trace[..|trace| - 1], pin)
  }

  /** The enable pin is active low: output is on when it was last driven Low. */
  predicate OutputEnabled(trace: seq<PinEvent>, s: LedDriverSettings) {
    LastWritten(trace, s.enablePin) == Some(Low)
  }

  /** The bits clocked into the shift register: the data level at every raising of the clock. */
  function ShiftedBits(trace: seq<PinEvent>, s: LedDriverSettings): seq<bool> {
    if trace == [] then []
    else
      var prefix := trace[..|trace| - 1];
      if trace[|trace| - 1] == Write(s.clockPin, High)
      then ShiftedBits(prefix, s) + [LastWritten(prefix, s.dataInPin) == Some(High)]
      else ShiftedBits(prefix, s)
  }

  /** The length of the display's shift-register chain. */
  const RegisterLength := 32

  function LastBits(bits: seq<bool>, n: nat): seq<bool> {
    if |bits| <= n then bits else bits[|bits| - n..]
  }

  /**
   * What the register drives onto its outputs: the last 32 bits that had been clocked in
   * when the latch was last raised (nothing before the first latch pulse).
   */
  function LatchedBits(trace: seq<PinEvent>, s: LedDriverSettings): seq<bool> {
    if trace == [] then []
    else
      var prefix := trace[..|trace| - 1];
      if trace[|trace| - 1] == Write(s.latchPin, High)
      then LastBits(ShiftedBits(prefix, s), RegisterLength)
      else LatchedBits(prefix, s)
  }

  /** How appending one event changes each reading of the trace. */
  lemma AppendEvent(trace: seq<PinEvent>, e: PinEvent, s: LedDriverSettings)
    ensures forall pin ::
      LastWritten(trace + [e], pin) == (if e.Write? && e.pin == pin then Some(e.value) else LastWritten(trace, pin))
    ensures forall pin ::
      IsOpen(trace + [e], pin) == (if e.OpenPin? && e.pin == pin then true
                                   else if e.ClosePin? && e.pin == pin then false
                                   else IsOpen(trace, pin))
    ensures ShiftedBits(trace + [e], s)
      == if e == Write(s.clockPin, High)
         then ShiftedBits(trace, s) + [LastWritten(trace, s.dataInPin) == Some(High)]
         else ShiftedBits(trace, s)
    ensures LatchedBits(trace + [e], s)
      == if e == Write(s.latchPin, High)
         then LastBits(ShiftedBits(trace, s), RegisterLength)
         else LatchedBits(trace, s)
  {
    assert (trace + [e])[..|trace|] == trace;
  }

  /** Clocking one bit out shifts exactly that bit in and leaves the outputs alone. */
  lemma WriteBitShiftsIn(trace: seq<PinEvent>, s: LedDriverSettings, value: PinValue)
    requires DistinctPins(s)
    ensures ShiftedBits(trace + WriteBitTrace(s, value), s) == ShiftedBits(trace, s) + [value == High]
    ensures LatchedBits(trace + WriteBitTrace(s, value), s) == LatchedBits(trace, s)
  {
    var t1 := trace + [Write(s.dataInPin, value)];
    var t2 := t1 + [Wait];
    var t3 := t2 + [Write(s.clockPin, High)];
    var t4 := t3 + [Wait];
    var t5 := t4 + [Write(s.clockPin, Low)];
    var t6 := t5 + [Wait];
    assert t6 == trace + WriteBitTrace(s, value);
    AppendEvent(trace, Write(s.dataInPin, value), s);
    AppendEvent(t1, Wait, s);
    AppendEvent(t2, Write(s.clockPin, High), s);
    AppendEvent(t3, Wait, s);
    AppendEvent(t4, Write(s.clockPin, Low), s);
    AppendEvent(t5, Wait, s);
  }

  /** Writing a run of bits shifts them in, in order, and leaves the outputs alone. */
  lemma {:induction false} BitsShiftIn(trace: seq<PinEvent>, s: LedDriverSettings, bits: seq<bool>)
    requires DistinctPins(s)
    ensures ShiftedBits(trace + BitsTrace(s, bits), s) == ShiftedBits(trace, s) + bits
    ensures LatchedBits(trace + BitsTrace(s, bits), s) == LatchedBits(trace, s)
    decreases |bits|
  {
    if bits == [] {
      assert trace + BitsTrace(s, bits) == trace;
    } else {
      var init := bits[..|bits| - 1];
      var last := bits[|bits| - 1];
      BitsShiftIn(trace, s, init);
      assert trace + BitsTrace(s, bits) == (trace + BitsTrace(s, init)) + WriteBitTrace(s, LevelOf(last));
      WriteBitShiftsIn(trace + BitsTrace(s, init), s, LevelOf(last));
      assert init + [last] == bits;
    }
  }

  /** A latch pulse puts the last 32 bits shifted in onto the outputs. */
  lemma LatchPublishes(trace: seq<PinEvent>, s: LedDriverSettings)
    requires DistinctPins(s)
    ensures LatchedBits(trace + LatchTrace(s), s) == LastBits(ShiftedBits(trace, s), RegisterLength)
    ensures ShiftedBits(trace + LatchTrace(s), s) == ShiftedBits(trace, s)
  {
    var t1 := trace + [Write(s.latchPin, High)];
    var t2 := t1 + [Wait];
    var t3 := t2 + [Write(s.latchPin, Low)];
    var t4 := t3 + [Wait];
    assert t4 == trace + LatchTrace(s);
    AppendEvent(trace, Write(s.latchPin, High), s);
    AppendEvent(t1, Wait, s);
    AppendEvent(t2, Write(s.latchPin, Low), s);
    AppendEvent(t3, Wait, s);
  }

  /** Setting up opens all four pins and leaves the output disabled. */
  lemma SetUpOpensPins(trace: seq<PinEvent>, s: LedDriverSettings)
    ensures forall pin :: IsDriverPin(s, pin) ==> IsOpen(trace + SetUpTrace(s), pin)
    ensures forall pin :: !IsDriverPin(s, pin) ==> IsOpen(trace + SetUpTrace(s), pin) == IsOpen(trace, pin)
    ensures !OutputEnabled(trace + SetUpTrace(s), s)
  {
    var t1 := trace + [OpenPin(s.dataInPin, Output)];
    var t2 := t1 + [OpenPin(s.clockPin, Output)];
    var t3 := t2 + [OpenPin(s.latchPin, Output)];
    var t4 := t3 + [OpenPin(s.enablePin, Output)];
    var t5 := t4 + [Write(s.enablePin, High)];
    var t6 := t5 + [Wait];
    assert t6 == trace + SetUpTrace(s);
    AppendEvent(trace, OpenPin(s.dataInPin, Output), s);
    AppendEvent(t1, OpenPin(s.clockPin, Output), s);
    AppendEvent(t2, OpenPin(s.latchPin, Output), s);
    AppendEvent(t3, OpenPin(s.enablePin, Output), s);
    AppendEvent(t4, Write(s.enablePin, High), s);
    AppendEvent(t5, Wait, s);
  }

  /** Tearing down disables the output and closes all four pins. */
  lemma TearDownClosesPins(trace: seq<PinEvent>, s: LedDriverSettings)
    ensures forall pin :: IsDriverPin(s, pin) ==> !IsOpen(trace + TearDownTrace(s), pin)
    ensures forall pin :: !IsDriverPin(s, pin) ==> IsOpen(trace + TearDownTrace(s), pin) == IsOpen(trace, pin)
    ensures !OutputEnabled(trace + TearDownTrace(s), s)
  {
    var t1 := trace + [Write(s.enablePin, High)];
    var t2 := t1 + [Wait];
    var t3 := t2 + [ClosePin(s.dataInPin)];
    var t4 := t3 + [ClosePin(s.clockPin)];
    var t5 := t4 + [ClosePin(s.latchPin)];
    var t6 := t5 + [ClosePin(s.enablePin)];
    assert t6 == trace + TearDownTrace(s);
    AppendEvent(trace, Write(s.enablePin, High), s);
    AppendEvent(t1, Wait, s);
    AppendEvent(t2, ClosePin(s.dataInPin), s);
    AppendEvent(t3, ClosePin(s.clockPin), s);
    AppendEvent(t4, ClosePin(s.latchPin), s);
    AppendEvent(t5, ClosePin(s.enablePin), s);
  }

  /** The enable pin is active low. */
  lemma OutputEnabledIsActiveLow(trace: seq<PinEvent>, s: LedDriverSettings, enabled: bool)
    ensures OutputEnabled(trace + OutputEnabledTrace(s, enabled), s) == enabled
    ensures LastWritten(trace + OutputEnabledTrace(s, enabled), s.enablePin) == Some(if enabled then Low else High)
  {
    var t1 := trace + [Write(s.enablePin, if enabled then Low else High)];
    assert t1 + [Wait] == trace + OutputEnabledTrace(s, enabled);
    AppendEvent(trace, Write(s.enablePin, if enabled then Low else High), s);
    AppendEvent(t1, Wait, s);
  }

  // ---------------------------------------------------------------------------------------
  // The driver

  class LedDriver {
    const settings: LedDriverSettings
    /** Every operation issued to the GPIO controller so far, oldest first. */
    var trace: seq<PinEvent>
    var isDisposed: bool

    /** The constructor once its arguments have passed the null checks. */
    constructor (settings: LedDriverSettings)
      ensures this.settings == settings && !isDisposed
      ensures trace == SetUpTrace(settings)
      ensures forall pin :: IsDriverPin(settings, pin) ==> IsOpen(trace, pin)
      ensures !OutputEnabled(trace, settings)
    {
      this.settings := settings;
      trace := [];
      isDisposed := false;
      new;
      SetUpController();
      SetUpOpensPins([], settings);
    }

    method SetUpController()
      modifies this`trace
      ensures trace == old(trace) + SetUpTrace(settings)
    {
      trace := trace + [OpenPin(settings.dataInPin, Output)];
      trace := trace + [OpenPin(settings.clockPin, Output)];
      trace := trace + [OpenPin(settings.latchPin, Output)];
      trace := trace + [OpenPin(settings.enablePin, Output)];
      SetOutputEnabled(false);
    }

    method TearDownController()
      modifies this`trace
      ensures trace == old(trace) + TearDownTrace(settings)
    {
      SetOutputEnabled(false);
      trace := trace + [ClosePin(settings.dataInPin)];
      trace := trace + [ClosePin(settings.clockPin)];
      trace := trace + [ClosePin(settings.latchPin)];
      trace := trace + [ClosePin(settings.enablePin)];
    }

    /** Drive the data pin, then pulse the clock so the register samples it on the rising edge. */
    method WriteBit(value: PinValue)
      modifies this`trace
      ensures trace == old(trace) + WriteBitTrace(settings, value)
      ensures DistinctPins(settings) ==> ShiftedBits(trace, settings) == ShiftedBits(old(trace), settings) + [value == High]
    {
      trace := trace + [Write(settings.dataInPin, value)];
      PulseWait();
      trace := trace + [Write(settings.clockPin, High)];
      PulseWait();
      trace := trace + [Write(settings.clockPin, Low)];
      PulseWait();
      if DistinctPins(settings) {
        WriteBitShiftsIn(old(trace), settings, value);
      }
    }

    /** Pulse the latch so the register publishes what has been shifted in. */
    method Latch()
      modifies this`trace
      ensures trace == old(trace) + LatchTrace(settings)
      ensures DistinctPins(settings) ==>
        LatchedBits(trace, settings) == LastBits(ShiftedBits(old(trace), settings), RegisterLength)
    {
      trace := trace + [Write(settings.latchPin, High)];
      PulseWait();
      trace := trace + [Write(settings.latchPin, Low)];
      PulseWait();
      if DistinctPins(settings) {
        LatchPublishes(old(trace), settings);
      }
    }

    method SetOutputEnabled(enabled: bool)
      modifies this`trace
      ensures trace == old(trace) + OutputEnabledTrace(settings, enabled)
      ensures OutputEnabled(trace, settings) == enabled
    {
      trace := trace + [Write(settings.enablePin, if enabled then Low else High)];
      PulseWait();
      OutputEnabledIsActiveLow(old(trace), settings, enabled);
    }

    /** The settle delay between pin writes. */
    method PulseWait()
      modifies this`trace
      ensures trace == old(trace) + [Wait]
    {
      trace := trace + [Wait];
    }

    /** `Dispose()`: tear the pins down unless that already happened. */
    method Dispose()
      modifies this
      ensures isDisposed
      ensures trace == old(trace) + (if old(isDisposed) then [] else TearDownTrace(settings))
    {
      DisposeCore(true);
    }

    /** `Dispose(bool disposing)`: only an explicit dispose touches the pins, and only once. */
    method DisposeCore(disposing: bool)
      modifies this
      ensures isDisposed == (old(isDisposed) || disposing)
      ensures trace == old(trace) + (if disposing && !old(isDisposed) then TearDownTrace(settings) else [])
    {
      if disposing {
        if !isDisposed {
          TearDownController();
          isDisposed := true;
        }
      }
    }

    /** The finalizer: `Dispose(false)`, which performs no pin operation. */
    method Finalize()
      modifies this
      ensures isDisposed == old(isDisposed) && trace == old(trace)
    {
      DisposeCore(false);
    }
  }

  /**
   * `new LedDriver(controllerFactory, settings)`: a null factory, null settings or a factory
   * yielding null are rejected before any pin is touched; otherwise the pins are set up.
   */
  method NewLedDriver(factory: ControllerFactory, settings: Option<LedDriverSettings>)
    returns (r: Result<LedDriver>)
    ensures r.Err? <==> factory != FactoryReturningController || settings.None?
    ensures r.Err? ==> r.error == ArgumentNull
    ensures r.Ok? ==> fresh(r.value) && r.value.settings == settings.value
    ensures r.Ok? ==> r.value.trace == SetUpTrace(settings.value) && !r.value.isDisposed
  {
    if factory == NullFactory || settings.None? {
      return Err(ArgumentNull);
    }
    if factory == FactoryReturningNull {
      return Err(ArgumentNull);
    }
    var driver := new LedDriver(settings.value);
    return Ok(driver);
  }

  /** `new LedDriver(controllerFactory)`: the same, with the default pin numbers. */
  method NewDefaultLedDriver(factory: ControllerFactory) returns (r: Result<LedDriver>)
    ensures r.Err? <==> factory != FactoryReturningController
    ensures r.Err? ==> r.error == ArgumentNull
    ensures r.Ok? ==> fresh(r.value) && r.value.settings == DefaultSettings
    ensures r.Ok? ==> r.value.trace == SetUpTrace(DefaultSettings) && !r.value.isDisposed
  {
    r := NewLedDriver(factory, Some(DefaultSettings));
  }

  /** The default pin numbers are four different pins. */
  lemma DefaultPinsDistinct()
    ensures DistinctPins(DefaultSettings)
    ensures DefaultSettings == LedDriverSettings(22, 23, 24, 25)
  {
  }
}
