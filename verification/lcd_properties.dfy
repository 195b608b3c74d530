/**
  What the controller's pin writes mean to the display.

  Each lemma reads the writes of one operation through the display side of
  the bus (`Hd44780.Latches`, `Hd44780.Received`) and states which nibbles
  are latched, which bytes are received, and the levels the lines are left
  at, for every starting level of the lines.
*/
module LcdProperties {
  import opened Bytes
  import opened Text
  import opened Gpio
  import opened Hd44780
  import opened Lcd

  predicate IsDataPin(pin: Pin) {
    pin == D4 || pin == D5 || pin == D6 || pin == D7
  }

  /** The levels `send(bits, mode)` leaves: register select for the mode, strobe low, the low nibble still on D4..D7. */
  function AfterSend(bits: Byte, mode: Mode): Pins {
    Pins(mode == Character, false, BitSet(bits, 0x01), BitSet(bits, 0x02), BitSet(bits, 0x04), BitSet(bits, 0x08))
  }

  /** The six bytes of the bring-up sequence, as the display receives them. */
  const InitFrames: seq<Frame> := [
    Frame(Command, 0x33), Frame(Command, 0x32), Frame(Command, 0x06),
    Frame(Command, 0x0C), Frame(Command, 0x28), Frame(Command, 0x01)
  ]

  /** One character-mode byte per character of `text`, for the first `n` positions that exist. */
  function CharFrames(text: string, n: nat): seq<Frame> {
    var k := if n < |text| then n else |text|;
    seq(k, i requires 0 <= i < k => Frame(Character, CharByte(text[i])))
  }

  /** `reset_data_pins` drives the four data lines low, touches nothing else and latches nothing. */
  lemma ResetDataPinsClears(p: Pins)
    ensures Run(p, ResetDataPinsEvents) == p.(d4 := false, d5 := false, d6 := false, d7 := false)
    ensures DataLow(Run(p, ResetDataPinsEvents))
    ensures Latches(p, ResetDataPinsEvents) == []
  {
  }

  /** `enable` latches exactly once, sampling the lines as they stand, and leaves the strobe low. */
  lemma EnableLatchesOnce(p: Pins)
    ensures Run(p, EnableEvents) == p.(e := false)
    ensures Latches(p, EnableEvents) == [Latch(p.rs, p.d4, p.d5, p.d6, p.d7)]
  {
  }

  lemma RaiseIfEffect(p: Pins, pin: Pin, cond: bool)
    requires IsDataPin(pin)
    ensures Run(p, RaiseIf(pin, cond)) == if cond then Apply(p, Write(pin, true)) else p
    ensures Latches(p, RaiseIf(pin, cond)) == []
  {
  }

  /** The four conditional raises of one nibble: they only raise data lines and latch nothing. */
  lemma RaisesOnly(p: Pins, d4: bool, d5: bool, d6: bool, d7: bool)
    ensures var r := RaiseEvents(d4, d5, d6, d7);
      && (forall i :: 0 <= i < |r| ==> r[i].high && IsDataPin(r[i].pin))
      && Run(p, r) == p.(d4 := p.d4 || d4, d5 := p.d5 || d5, d6 := p.d6 || d6, d7 := p.d7 || d7)
      && Latches(p, r) == []
  {
    var r4, r5, r6, r7 := RaiseIf(D4, d4), RaiseIf(D5, d5), RaiseIf(D6, d6), RaiseIf(D7, d7);
    var p1 := Run(p, r4);
    RaiseIfEffect(p, D4, d4);
    var p2 := Run(p1, r5);
    RaiseIfEffect(p1, D5, d5);
    var p3 := Run(p2, r6);
    RaiseIfEffect(p2, D6, d6);
    RaiseIfEffect(p3, D7, d7);
    LatchesAppend(p, r4, r5);
    RunAppend(p, r4, r5);
    LatchesAppend(p, r4 + r5, r6);
    RunAppend(p, r4 + r5, r6);
    LatchesAppend(p, r4 + r5 + r6, r7);
    RunAppend(p, r4 + r5 + r6, r7);
  }

  /**
    One nibble transfer: the data lines are all low just before the nibble
    is written, and only raising writes to data lines follow until the strobe.
  */
  lemma NibbleClearsFirst(p: Pins, d4: bool, d5: bool, d6: bool, d7: bool)
    ensures var t := NibbleEvents(d4, d5, d6, d7);
      && DataLow(Run(p, t[..4]))
      && (forall i :: 4 <= i < |t| - 2 ==> t[i].high && IsDataPin(t[i].pin))
  {
    var t := NibbleEvents(d4, d5, d6, d7);
    var r := RaiseEvents(d4, d5, d6, d7);
    assert t[..4] == ResetDataPinsEvents;
    ResetDataPinsClears(p);
    RaisesOnly(p, d4, d5, d6, d7);
    assert forall i :: 4 <= i < |t| - 2 ==> t[i] == r[i - 4];
  }

  /**
    One nibble transfer: the display latches exactly the four given bits
    with the current register select, whatever the data lines held before,
    and the nibble stays on the lines with the strobe low.
  */
  lemma NibbleTransfer(p: Pins, d4: bool, d5: bool, d6: bool, d7: bool)
    ensures Latches(p, NibbleEvents(d4, d5, d6, d7)) == [Latch(p.rs, d4, d5, d6, d7)]
    ensures Run(p, NibbleEvents(d4, d5, d6, d7)) == p.(e := false, d4 := d4, d5 := d5, d6 := d6, d7 := d7)
  {
    var r := RaiseEvents(d4, d5, d6, d7);
    var p0 := Run(p, ResetDataPinsEvents);
    ResetDataPinsClears(p);
    RaisesOnly(p0, d4, d5, d6, d7);
    EnableLatchesOnce(Run(p0, r));
    Then(p, ResetDataPinsEvents, r);
    Then(p, ResetDataPinsEvents + r, EnableEvents);
  }

  /**
    `send(bits, mode)` strobes twice. At the first strobe D4..D7 carry bits
    4..7 of `bits`, at the second bits 0..3, and register select carries the
    mode at both. Afterwards the strobe is low, register select still
    carries the mode and the low nibble is still on the data lines.
  */
  lemma SendLatches(p: Pins, bits: Byte, mode: Mode)
    ensures var rs := mode == Character;
      Latches(p, SendEvents(bits, mode)) == [
        Latch(rs, BitSet(bits, 0x10), BitSet(bits, 0x20), BitSet(bits, 0x40), BitSet(bits, 0x80)),
        Latch(rs, BitSet(bits, 0x01), BitSet(bits, 0x02), BitSet(bits, 0x04), BitSet(bits, 0x08))
      ]
    ensures Run(p, SendEvents(bits, mode)) == AfterSend(bits, mode)
  {
    TwoNibbles(p, mode == Character,
      BitSet(bits, 0x10), BitSet(bits, 0x20), BitSet(bits, 0x40), BitSet(bits, 0x80),
      BitSet(bits, 0x01), BitSet(bits, 0x02), BitSet(bits, 0x04), BitSet(bits, 0x08));
  }

  /** A register select write followed by two nibble transfers, for any bits. */
  lemma TwoNibbles(p: Pins, rs: bool, h4: bool, h5: bool, h6: bool, h7: bool, l4: bool, l5: bool, l6: bool, l7: bool)
    ensures var t := [Write(Rs, rs)] + NibbleEvents(h4, h5, h6, h7) + NibbleEvents(l4, l5, l6, l7);
      && Latches(p, t) == [Latch(rs, h4, h5, h6, h7), Latch(rs, l4, l5, l6, l7)]
      && Run(p, t) == Pins(rs, false, l4, l5, l6, l7)
  {
    var rsEvent := [Write(Rs, rs)];
    var high := NibbleEvents(h4, h5, h6, h7);
    var low := NibbleEvents(l4, l5, l6, l7);
    var p0 := Run(p, rsEvent);
    assert Latches(p, rsEvent) == [];
    NibbleTransfer(p0, h4, h5, h6, h7);
    var p1 := Run(p0, high);
    NibbleTransfer(p1, l4, l5, l6, l7);
    LatchesAppend(p, rsEvent, high);
    RunAppend(p, rsEvent, high);
    LatchesAppend(p, rsEvent + high, low);
    RunAppend(p, rsEvent + high, low);
  }

  /**
    Within `send`, all four data lines are low just before each nibble is
    written: after the register select write and the first clear, and again
    after the first strobe and the second clear.
  */
  lemma SendClearsBeforeEachNibble(p: Pins, bits: Byte, mode: Mode)
    ensures var t := SendEvents(bits, mode);
      var second := |NibbleEvents(BitSet(bits, 0x10), BitSet(bits, 0x20), BitSet(bits, 0x40), BitSet(bits, 0x80))| + 5;
      && second <= |t|
      && DataLow(Run(p, t[..5]))
      && DataLow(Run(p, t[..second]))
  {
    var t := SendEvents(bits, mode);
    var rsEvent := [Write(Rs, mode == Character)];
    var high := NibbleEvents(BitSet(bits, 0x10), BitSet(bits, 0x20), BitSet(bits, 0x40), BitSet(bits, 0x80));
    var low := NibbleEvents(BitSet(bits, 0x01), BitSet(bits, 0x02), BitSet(bits, 0x04), BitSet(bits, 0x08));
    assert t == rsEvent + high + low;
    assert t[..5] == rsEvent + ResetDataPinsEvents;
    assert t[..|high| + 5] == (rsEvent + high) + ResetDataPinsEvents;
    RunAppend(p, rsEvent, ResetDataPinsEvents);
    ResetDataPinsClears(Run(p, rsEvent));
    RunAppend(p, rsEvent + high, ResetDataPinsEvents);
    ResetDataPinsClears(Run(p, rsEvent + high));
  }

  /** Round trip through the bus: whatever the lines held, one `send` is received as exactly the byte and mode sent. */
  lemma SendRoundTrip(p: Pins, bits: Byte, mode: Mode)
    ensures Received(p, SendEvents(bits, mode)) == [Frame(mode, bits)]
    ensures |Latches(p, SendEvents(bits, mode))| == 2
  {
    SendLatches(p, bits, mode);
    NibblesRoundTrip(bits);
  }

  /** The writes of one `send` per frame, in order. */
  function Transmit(fs: seq<Frame>): seq<Event>
    decreases |fs|
  {
    if fs == [] then [] else SendEvents(fs[0].value, fs[0].mode) + Transmit(fs[1..])
  }

  lemma {:induction false} TransmitAppend(fs: seq<Frame>, gs: seq<Frame>)
    ensures Transmit(fs + gs) == Transmit(fs) + Transmit(gs)
    decreases |fs|
  {
    if fs == [] {
      assert fs + gs == gs;
    } else {
      assert (fs + gs)[1..] == fs[1..] + gs;
      TransmitAppend(fs[1..], gs);
    }
  }

  /**
    Round trip through the bus for any number of sends: from any levels of
    the lines, the display receives exactly the frames sent, in order.
  */
  lemma {:induction false} TransmitRoundTrip(p: Pins, fs: seq<Frame>)
    ensures Received(p, Transmit(fs)) == fs
    ensures |Latches(p, Transmit(fs))| == 2 * |fs|
    decreases |fs|
  {
    if fs != [] {
      var first := SendEvents(fs[0].value, fs[0].mode);
      SendRoundTrip(p, fs[0].value, fs[0].mode);
      TransmitRoundTrip(Run(p, first), fs[1..]);
      ReceivedAppend(p, first, Transmit(fs[1..]));
      assert [fs[0]] + fs[1..] == fs;
    }
  }

  /** After a non-empty run of sends the lines stand as the last `send` left them. */
  lemma {:induction false} TransmitEndState(p: Pins, fs: seq<Frame>)
    requires fs != []
    ensures Run(p, Transmit(fs)) == AfterSend(fs[|fs| - 1].value, fs[|fs| - 1].mode)
    decreases |fs|
  {
    var first := SendEvents(fs[0].value, fs[0].mode);
    SendLatches(p, fs[0].value, fs[0].mode);
    RunAppend(p, first, Transmit(fs[1..]));
    if |fs| > 1 {
      TransmitEndState(Run(p, first), fs[1..]);
      assert fs[1..][|fs[1..]| - 1] == fs[|fs| - 1];
    } else {
      assert Transmit(fs[1..]) == [];
    }
  }

  /** One command-mode frame per instruction. */
  function CommandFrames(instrs: seq<Instruction>): seq<Frame>
    decreases |instrs|
  {
    if instrs == [] then [] else [Frame(Command, instrs[0].Code())] + CommandFrames(instrs[1..])
  }

  lemma {:induction false} InstructionsAreCommands(instrs: seq<Instruction>)
    ensures InstructionEvents(instrs) == Transmit(CommandFrames(instrs))
    decreases |instrs|
  {
    if instrs != [] {
      InstructionsAreCommands(instrs[1..]);
      assert CommandFrames(instrs)[1..] == CommandFrames(instrs[1..]);
    }
  }

  /**
    `init` sends exactly six command-mode bytes, in the order 0x33, 0x32,
    0x06, 0x0C, 0x28, 0x01, and leaves the low nibble of 0x01 on the data lines.
  */
  lemma InitSendsBringUp(p: Pins)
    ensures Received(p, InitEvents()) == InitFrames
    ensures |Latches(p, InitEvents())| == 12
    ensures Run(p, InitEvents()) == Pins(false, false, true, false, false, false)
  {
    InitReceived(p);
    InitEndState(p);
  }

  lemma InitReceived(p: Pins)
    ensures Received(p, InitEvents()) == InitFrames
    ensures |Latches(p, InitEvents())| == 12
  {
    InitIsTransmit();
    TransmitRoundTrip(p, InitFrames);
  }

  lemma InitEndState(p: Pins)
    ensures Run(p, InitEvents()) == Pins(false, false, true, false, false, false)
  {
    InitIsTransmit();
    TransmitEndState(p, InitFrames);
  }

  lemma InitIsTransmit()
    ensures InitEvents() == Transmit(InitFrames)
  {
    InstructionsAreCommands(InitSequence);
    InitSequenceCodes();
  }

  lemma InitSequenceCodes()
    ensures CommandFrames(InitSequence) == InitFrames
  {
  }

  /**
    Construction: from any levels of the lines, the display receives the
    bring-up sequence and nothing else, and every line ends low.
  */
  lemma NewBringsUp(p: Pins)
    ensures Received(p, New(p).trace) == InitFrames
    ensures |Latches(p, New(p).trace)| == 12
    ensures AllLow(New(p).pins)
    ensures New(p).pins == Run(p, New(p).trace)
  {
    NewReceived(p);
    NewPins(p);
  }

  lemma NewReceived(p: Pins)
    ensures Received(p, New(p).trace) == InitFrames
    ensures |Latches(p, New(p).trace)| == 12
  {
    NewIsInitThenClear(p);
    InitReceived(p);
    ThenClearData(p, InitEvents(), InitFrames);
  }

  lemma ThenClearData(p: Pins, t: seq<Event>, fs: seq<Frame>)
    requires Received(p, t) == fs && |Latches(p, t)| == 2 * |fs|
    ensures Received(p, t + ResetDataPinsEvents) == fs
    ensures |Latches(p, t + ResetDataPinsEvents)| == 2 * |fs|
  {
    ResetDataPinsClears(Run(p, t));
    ReceivedAppend(p, t, ResetDataPinsEvents);
  }

  lemma NewPins(p: Pins)
    ensures AllLow(New(p).pins)
    ensures New(p).pins == Run(p, New(p).trace)
  {
    NewIsInitThenClear(p);
    InitEndState(p);
    ResetDataPinsClears(Run(p, InitEvents()));
    RunAppend(p, InitEvents(), ResetDataPinsEvents);
  }

  lemma NewIsInitThenClear(p: Pins)
    ensures New(p).trace == InitEvents() + ResetDataPinsEvents
    ensures New(p).pins == Run(Run(p, InitEvents()), ResetDataPinsEvents)
  {
    assert [] + InitEvents() == InitEvents();
  }

  /** Driving every line low latches nothing when the strobe is already low, and leaves every line low. */
  lemma LowerAllQuiet(q: Pins)
    requires !q.e
    ensures Latches(q, LowerAllEvents) == []
    ensures AllLow(Run(q, LowerAllEvents))
  {
  }

  /** `reset`: the display receives one clear-display instruction, and then every line is low. */
  lemma ResetClearsAndLowers(p: Pins)
    ensures Received(p, ResetEvents()) == [Frame(Command, 0x01)]
    ensures |Latches(p, ResetEvents())| == 2
    ensures AllLow(Run(p, ResetEvents()))
  {
    SendThenLowerAll(p, ClearDisplay.Code(), Command);
  }

  lemma SendThenLowerAll(p: Pins, bits: Byte, mode: Mode)
    ensures Received(p, SendEvents(bits, mode) + LowerAllEvents) == [Frame(mode, bits)]
    ensures |Latches(p, SendEvents(bits, mode) + LowerAllEvents)| == 2
    ensures AllLow(Run(p, SendEvents(bits, mode) + LowerAllEvents))
  {
    SendRoundTrip(p, bits, mode);
    SendLatches(p, bits, mode);
    ThenLowerAll(p, SendEvents(bits, mode), [Frame(mode, bits)]);
  }

  /** Lowering every line after a trace that ends between bytes with the strobe low adds no byte. */
  lemma ThenLowerAll(p: Pins, t: seq<Event>, fs: seq<Frame>)
    requires Received(p, t) == fs && |Latches(p, t)| == 2 * |fs|
    requires !Run(p, t).e
    ensures Received(p, t + LowerAllEvents) == fs
    ensures |Latches(p, t + LowerAllEvents)| == 2 * |fs|
    ensures AllLow(Run(p, t + LowerAllEvents))
  {
    LowerAllQuiet(Run(p, t));
    ReceivedAppend(p, t, LowerAllEvents);
    RunAppend(p, t, LowerAllEvents);
  }

  /**
    `clear_screen` adds the writes of exactly one `send`: the display
    receives the clear-display instruction 0x01 in command mode and nothing
    else, and the lines stand as that `send` leaves them.
  */
  lemma ClearScreenSendsClear(c: Controller)
    ensures var r := ClearScreen(c);
      && |r.trace| >= |c.trace| && r.trace[..|c.trace|] == c.trace
      && Received(c.pins, r.trace[|c.trace|..]) == [Frame(Command, 0x01)]
      && |Latches(c.pins, r.trace[|c.trace|..])| == 2
      && r.pins == AfterSend(0x01, Command)
  {
    var r := ClearScreen(c);
    assert r.trace[|c.trace|..] == SendEvents(0x01, Command);
    SendRoundTrip(c.pins, 0x01, Command);
    SendLatches(c.pins, 0x01, Command);
  }

  /** `reset` on a controller: one clear-display instruction is received, then all six lines are low. */
  lemma ResetLeavesAllLow(c: Controller)
    ensures var r := Reset(c);
      && |r.trace| >= |c.trace| && r.trace[..|c.trace|] == c.trace
      && Received(c.pins, r.trace[|c.trace|..]) == [Frame(Command, 0x01)]
      && |Latches(c.pins, r.trace[|c.trace|..])| == 2
      && AllLow(r.pins)
  {
    var r := Reset(c);
    assert r.trace[|c.trace|..] == ResetEvents();
    ResetClearsAndLowers(c.pins);
  }

  /**
    Construction followed by teardown: from any levels of the lines, the
    display receives the bring-up sequence, then one more clear-display
    instruction from `drop`, and every line ends low.
  */
  lemma NewThenDrop(p: Pins)
    ensures Received(p, Drop(New(p)).trace) == InitFrames + [Frame(Command, 0x01)]
    ensures |Latches(p, Drop(New(p)).trace)| == 14
    ensures AllLow(Drop(New(p)).pins)
  {
    var c := New(p);
    NewBringsUp(p);
    ResetClearsAndLowers(c.pins);
    ReceivedThen(p, c.trace, ResetEvents(), InitFrames, [Frame(Command, 0x01)]);
  }

  /** Frames received over a trace that ends between bytes, then over a continuation. */
  lemma ReceivedThen(p: Pins, t: seq<Event>, u: seq<Event>, fs: seq<Frame>, gs: seq<Frame>)
    requires Received(p, t) == fs && |Latches(p, t)| == 2 * |fs|
    requires Received(Run(p, t), u) == gs && |Latches(Run(p, t), u)| == 2 * |gs|
    ensures Received(p, t + u) == fs + gs
    ensures |Latches(p, t + u)| == 2 * (|fs| + |gs|)
  {
    ReceivedAppend(p, t, u);
  }

  lemma CharEventsTransmit(text: string, n: nat)
    ensures CharEvents(text, n) == Transmit(CharFrames(text, n))
  {
    var step := (k: nat) => if 0 < k <= |text| then SendEvents(CharByte(text[k - 1]), Character) else [];
    forall k: nat | 0 < k <= n
      ensures CharEvents(text, k) == CharEvents(text, k - 1) + step(k)
      ensures Transmit(CharFrames(text, k)) == Transmit(CharFrames(text, k - 1)) + step(k)
    {
      if k <= |text| {
        CharStepSome(text, k);
      } else {
        CharStepNone(text, k);
      }
    }
    SameSteps((k: nat) => CharEvents(text, k), (k: nat) => Transmit(CharFrames(text, k)), step, n);
  }

  /** Two sequences built by appending the same step at each count agree at every count. */
  lemma {:induction false} SameSteps(e: nat -> seq<Event>, t: nat -> seq<Event>, step: nat -> seq<Event>, n: nat)
    requires e(0) == t(0)
    requires forall k: nat :: 0 < k <= n ==> e(k) == e(k - 1) + step(k) && t(k) == t(k - 1) + step(k)
    ensures e(n) == t(n)
  {
    if n > 0 {
      SameSteps(e, t, step, n - 1);
    }
  }

  lemma CharStepSome(text: string, n: nat)
    requires 0 < n <= |text|
    ensures CharEvents(text, n) == CharEvents(text, n - 1) + SendEvents(CharByte(text[n - 1]), Character)
    ensures Transmit(CharFrames(text, n)) == Transmit(CharFrames(text, n - 1)) + SendEvents(CharByte(text[n - 1]), Character)
  {
    CharFramesStep(text, n);
    TransmitSnoc(CharFrames(text, n - 1), Frame(Character, CharByte(text[n - 1])));
  }

  lemma CharStepNone(text: string, n: nat)
    requires n > |text|
    ensures CharEvents(text, n) == CharEvents(text, n - 1)
    ensures CharFrames(text, n) == CharFrames(text, n - 1)
  {
  }

  lemma CharFramesStep(text: string, n: nat)
    requires n > 0
    ensures CharFrames(text, n) == CharFrames(text, n - 1) + if n - 1 < |text| then [Frame(Character, CharByte(text[n - 1]))] else []
  {
  }

  lemma TransmitSnoc(fs: seq<Frame>, f: Frame)
    ensures Transmit(fs + [f]) == Transmit(fs) + SendEvents(f.value, f.mode)
  {
    TransmitAppend(fs, [f]);
    TransmitOne(f);
  }

  lemma TransmitOne(f: Frame)
    ensures Transmit([f]) == SendEvents(f.value, f.mode)
  {
    assert [f][1..] == [];
  }

  /** `display_text` panics exactly when the text is longer than 16 bytes, before anything is sent. */
  lemma DisplayTextGuard(c: Controller, text: string, line: Line)
    ensures DisplayText(c, text, line).TextTooLong? <==> Utf8Len(text) > 16
    ensures DisplayText(c, text, line).TextTooLong? ==> DisplayText(c, text, line).at == c
  {
  }

  /**
    `display_text` on a text of at most 16 bytes: the display receives the
    row's address as an instruction (0x80 for the first row, 0xC0 for the
    second), then one character byte per character of the space-padded text,
    left to right; that is one per character of the text plus one space per
    missing byte.
  */
  lemma DisplayTextWritesRow(c: Controller, text: string, line: Line)
    requires Utf8Len(text) <= 16
    ensures var r := DisplayText(c, text, line);
      && r.Shown?
      && |r.lcd.trace| >= |c.trace| && r.lcd.trace[..|c.trace|] == c.trace
      && var fs := Received(c.pins, r.lcd.trace[|c.trace|..]);
      && fs == [Frame(Command, if line == Line1 then 0x80 else 0xC0)] + CharFrames(PadText(text, 16, " "), 16)
      && |fs| == 1 + |text| + (16 - Utf8Len(text))
      && |Latches(c.pins, r.lcd.trace[|c.trace|..])| == 2 * |fs|
  {
    var padded := PadText(text, LcdChars, " ");
    var r := DisplayText(c, text, line);
    assert r.Shown? && r.lcd.trace[|c.trace|..] == RowEvents(padded, line);
    RowReceived(c.pins, padded, line);
    assert |CharFrames(padded, LcdChars)| == |text| + (16 - Utf8Len(text)) by {
      PadWithSpaces(text, LcdChars);
    }
  }

  /** The row address is received as an instruction, then one character byte per padded character. */
  lemma RowReceived(p: Pins, padded: string, line: Line)
    ensures Received(p, RowEvents(padded, line)) == [Frame(Command, line.Address())] + CharFrames(padded, LcdChars)
    ensures |Latches(p, RowEvents(padded, line))| == 2 * (1 + |CharFrames(padded, LcdChars)|)
  {
    var address := SendEvents(line.Address(), Command);
    SendRoundTrip(p, line.Address(), Command);
    CharEventsTransmit(padded, LcdChars);
    TransmitRoundTrip(Run(p, address), CharFrames(padded, LcdChars));
    ReceivedAppend(p, address, CharEvents(padded, LcdChars));
  }

  /**
    An ASCII text of at most 16 characters: the row address, then exactly
    16 character bytes, the text's own and then spaces (0x20).
  */
  lemma DisplayAsciiText(c: Controller, text: string, line: Line)
    requires IsAscii(text) && |text| <= 16
    ensures var r := DisplayText(c, text, line);
      && r.Shown?
      && |r.lcd.trace| >= |c.trace|
      && var fs := Received(c.pins, r.lcd.trace[|c.trace|..]);
      && |fs| == 17
      && |Latches(c.pins, r.lcd.trace[|c.trace|..])| == 34
      && fs[0] == Frame(Command, line.Address())
      && forall i :: 0 <= i < 16 ==> fs[i + 1] == Frame(Character, if i < |text| then CharByte(text[i]) else 0x20)
  {
    var padded := PadText(text, 16, " ");
    var r := DisplayText(c, text, line);
    Utf8LenIsLength(text);
    DisplayTextWritesRow(c, text, line);
    PadWithSpaces(text, 16);
    PadAsciiToWidth(text, 16);
    AsciiRowFrames(text, padded, Received(c.pins, r.lcd.trace[|c.trace|..]), line.Address());
  }

  lemma AsciiRowFrames(text: string, padded: string, fs: seq<Frame>, address: Byte)
    requires |text| <= 16 && |padded| == 16 && padded[..|text|] == text
    requires forall i :: |text| <= i < 16 ==> padded[i] == ' '
    requires fs == [Frame(Command, address)] + CharFrames(padded, 16)
    ensures |fs| == 17
    ensures fs[0] == Frame(Command, address)
    ensures forall i :: 0 <= i < 16 ==> fs[i + 1] == Frame(Character, if i < |text| then CharByte(text[i]) else 0x20)
  {
    assert CharByte(' ') == 0x20;
    forall i | 0 <= i < 16
      ensures fs[i + 1] == Frame(Character, if i < |text| then CharByte(text[i]) else 0x20)
    {
      assert fs[i + 1] == CharFrames(padded, 16)[i];
      if i < |text| {
        assert padded[i] == padded[..|text|][i];
      }
    }
  }
}
