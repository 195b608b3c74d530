/**
  The `LCDController` of a 16x2 HD44780 display wired in 4-bit mode.

  Every operation of the controller is a fixed order of pin writes. Each
  one is modelled by the list of `Write` events it issues (`...Events`),
  and the controller value by the current pin levels plus every event
  issued so far. Sleeps are left out; only the order of writes matters.
*/
module Lcd {
  import opened Bytes
  import opened Text
  import opened Gpio
  import opened Hd44780

  /** A row of the display. */
  datatype Line = Line1 | Line2 {
    /** The "set display memory address" instruction for the first column of the row. */
    function Address(): Byte {
      match this
      case Line1 => 0x80
      case Line2 => 0xC0
    }
  }

  /** The instructions the controller sends. */
  datatype Instruction =
    | Initialize
    | ClearDisplay
    | SetCursorMoveDirection
    | Set4BitMode
    | SetCursorOff
    | Set2LineDisplay
  {
    function Code(): Byte {
      match this
      case Initialize => 0x33
      case ClearDisplay => 0x01
      case SetCursorMoveDirection => 0x06
      case Set4BitMode => 0x32
      case SetCursorOff => 0x0C
      case Set2LineDisplay => 0x28
    }
  }

  /** Characters per row. */
  const LcdChars: nat := 16

  /** The bring-up instructions, in the order `init` sends them. */
  const InitSequence: seq<Instruction> :=
    [Initialize, Set4BitMode, SetCursorMoveDirection, SetCursorOff, Set2LineDisplay, ClearDisplay]

  /** The six owned lines and every write made to them so far. */
  datatype Controller = Controller(pins: Pins, trace: seq<Event>)

  /** `reset_data_pins`: D4, D5, D6 and D7 driven low, in that order. */
  const ResetDataPinsEvents: seq<Event> :=
    [Write(D4, false), Write(D5, false), Write(D6, false), Write(D7, false)]

  /** `enable`: the enable strobe driven high, then low. */
  const EnableEvents: seq<Event> := [Write(E, true), Write(E, false)]

  /** `if cond { pin.set_high() }` */
  function RaiseIf(pin: Pin, cond: bool): seq<Event> {
    if cond then [Write(pin, true)] else []
  }

  /** The four conditional raises that put a nibble on D4..D7. */
  function RaiseEvents(d4: bool, d5: bool, d6: bool, d7: bool): seq<Event> {
    RaiseIf(D4, d4) + RaiseIf(D5, d5) + RaiseIf(D6, d6) + RaiseIf(D7, d7)
  }

  /** One nibble: data lines cleared, the set bits raised on D4..D7, then a strobe. */
  function NibbleEvents(d4: bool, d5: bool, d6: bool, d7: bool): seq<Event> {
    ResetDataPinsEvents + RaiseEvents(d4, d5, d6, d7) + EnableEvents
  }

  /** `send`: register select for the mode, then the high nibble, then the low nibble. */
  function SendEvents(bits: Byte, mode: Mode): seq<Event> {
    [Write(Rs, mode == Character)]
    + NibbleEvents(BitSet(bits, 0x10), BitSet(bits, 0x20), BitSet(bits, 0x40), BitSet(bits, 0x80))
    + NibbleEvents(BitSet(bits, 0x01), BitSet(bits, 0x02), BitSet(bits, 0x04), BitSet(bits, 0x08))
  }

  /** One command-mode `send` per instruction, in order. */
  function InstructionEvents(instrs: seq<Instruction>): seq<Event>
    decreases |instrs|
  {
    if instrs == [] then []
    else SendEvents(instrs[0].Code(), Command) + InstructionEvents(instrs[1..])
  }

  /** `init`: the bring-up sequence. */
  function InitEvents(): seq<Event> {
    InstructionEvents(InitSequence)
  }

  /** The tail of `reset`: register select, enable and D4..D7 driven low, in that order. */
  const LowerAllEvents: seq<Event> :=
    [Write(Rs, false), Write(E, false), Write(D4, false), Write(D5, false), Write(D6, false), Write(D7, false)]

  /** `reset`: clear the display, then drive every line low. */
  function ResetEvents(): seq<Event> {
    SendEvents(ClearDisplay.Code(), Command) + LowerAllEvents
  }

  /** The loop of `display_text`: for i in 0..n, the i-th character in character mode if there is one. */
  function CharEvents(text: string, n: nat): seq<Event>
    decreases n
  {
    if n == 0 then []
    else CharEvents(text, n - 1) + (if n - 1 < |text| then SendEvents(CharByte(text[n - 1]), Character) else [])
  }

  /** Issue the writes of `t` on `c`. */
  function Perform(c: Controller, t: seq<Event>): Controller {
    Controller(Run(c.pins, t), c.trace + t)
  }

  function ResetDataPins(c: Controller): Controller {
    Perform(c, ResetDataPinsEvents)
  }

  function Send(c: Controller, bits: Byte, mode: Mode): Controller {
    Perform(c, SendEvents(bits, mode))
  }

  function Init(c: Controller): Controller {
    Perform(c, InitEvents())
  }

  /**
    Construction once the six lines are held: `init` then `reset_data_pins`,
    starting from whatever levels the lines had.
  */
  function New(p: Pins): Controller {
    ResetDataPins(Init(Controller(p, [])))
  }

  function Reset(c: Controller): Controller {
    Perform(c, ResetEvents())
  }

  /** `Drop::drop` resets the display. */
  function Drop(c: Controller): Controller {
    Reset(c)
  }

  function ClearScreen(c: Controller): Controller {
    Send(c, ClearDisplay.Code(), Command)
  }

  /** `display_text` either writes a row or panics; `at` is the controller when the panic is raised. */
  datatype Outcome = Shown(lcd: Controller) | TextTooLong(at: Controller)

  /** After the length check: the row address as an instruction, then the padded text. */
  function RowEvents(padded: string, line: Line): seq<Event> {
    SendEvents(line.Address(), Command) + CharEvents(padded, LcdChars)
  }

  function DisplayText(c: Controller, text: string, line: Line): Outcome {
    if Utf8Len(text) > LcdChars then TextTooLong(c)
    else Shown(Perform(c, RowEvents(PadText(text, LcdChars, " "), line)))
  }
}
