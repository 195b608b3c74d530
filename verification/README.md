# LCD1602 controller: a Dafny model of the HD44780 4-bit bus encoder

This project models `LCDController`, a driver for a 16x2 character display
with an HD44780 controller. The display is wired in 4-bit mode to six
output lines:

- register select (RS);
- the enable strobe (E);
- the upper four data lines D4..D7.

Each driver operation is a fixed order of writes to those lines:

- `send` writes a mode and one byte as two nibbles;
- `init` writes the bring-up commands;
- `reset` and `Drop::drop` clear the display and drive every line low;
- `clear_screen` clears the display;
- `display_text` writes a row address and then a row of padded text;
- `pad_text` is the text helper.

Modules, one per concept:

- `Bytes`: a byte (`bv8`), the mask test `bits & m == m`, and nibbles.
- `Text`: a string's UTF-8 byte length (what `str::len` returns), `c as u8`, `usize::saturating_sub`, `str::repeat` and `pad_text`.
- `Gpio`: the six lines, a write event, and replaying a list of writes.
- `Hd44780`: the display side of the bus, an observer independent of the driver.
  - It latches the RS and D4..D7 levels on every falling edge of E.
  - It pairs consecutive latches into received bytes, high nibble first.
  - The driver never records what it meant to send. Every claim about what the display receives is read back from the raw pin writes by this observer.
- `Lcd`: the driver. Each operation is modelled as the list of writes it issues. A controller value holds the line levels and every write issued so far.
  - The constants are those of the source: row addresses 0x80 and 0xC0, instruction codes 0x33, 0x01, 0x06, 0x32, 0x0C and 0x28, and 16 characters per row.
  - `display_text`'s panic is a `TextTooLong` outcome that carries the controller as it stood when the panic was raised.
- `LcdProperties`: lemmas connecting each operation to what the display receives and to the levels it leaves on the lines. Every operation lemma holds for every starting level of the six lines.

`send` does not clear D4..D7 when it returns: the low nibble of the byte
stays on them (src/lib.rs:181-194), as `LcdProperties.SendLatches` states.
Only construction, `reset_data_pins` and `reset` guarantee low data lines;
a `send` leaves them low only when the low nibble of its byte is 0.

The comment "This is the problem pin" on D5 (src/lib.rs:185) marks nothing in
the code. D5 is driven like the other three data lines, and the model
treats it the same way.

## Model

| member | source | states |
|---|---|---|
| Bytes.HighNibble | src/lib.rs:164-175 | The four mask tests 0x10, 0x20, 0x40, 0x80 put together give bits 4..7 of the byte, `b >> 4`. |
| Bytes.LowNibble | src/lib.rs:181-192 | The four mask tests 0x01, 0x02, 0x04, 0x08 put together give bits 0..3 of the byte, `b & 0x0F`. |
| Bytes.NibblesRoundTrip | src/lib.rs:164-193 | For every byte, 16 times the high nibble plus the low nibble is the byte again, as a `bv8` and as an integer. |
| Text.Utf8Len | src/lib.rs:203 | The byte length of a string lies between its character count and four times that count. |
| Text.Utf8LenIsLength | src/lib.rs:203 | The byte length equals the character count exactly when every character is ASCII. |
| Text.SaturatingSub | src/lib.rs:264 | The padding count is the least count that brings the text's byte length up to the width: adding it reaches the width, and it is 0 unless it reaches the width exactly. |
| Text.Repeat | src/lib.rs:265 | `pad_with.repeat(n)` has `n` times the length of `pad_with`. |
| Text.RepeatContents | src/lib.rs:265 | Character `i` of `pad_with.repeat(n)` is character `i mod len` of `pad_with`, for any `pad_with`. |
| Text.PadText | src/lib.rs:263-267 | The padded text starts with the text. It is one copy of `pad_with` longer per byte the text falls short of the width, and no longer when the text does not fall short. |
| Text.PadTextContents | src/lib.rs:263-267 | Everything after the text in the padded text is copies of `pad_with`, back to back. |
| Text.PadWithSpaces | src/lib.rs:263-267 | Padding with spaces makes the byte length the larger of the width and the text's byte length. Everything after the text is a space. A text already at least as long as the width comes back unchanged. |
| Text.PadAsciiToWidth | src/lib.rs:263-267 | An ASCII text of at most `width` characters is padded to exactly `width` characters. |
| Gpio.Apply | src/lib.rs:136-150 | Setting one line high or low gives that line that level and leaves the other five as they were. |
| LcdProperties.ResetDataPinsClears | src/lib.rs:135-140 | About `Lcd.ResetDataPinsEvents` (`reset_data_pins`, also `Lcd.ResetDataPins`): `reset_data_pins` drives D4..D7 low, leaves RS and E alone and latches nothing. |
| LcdProperties.EnableLatchesOnce | src/lib.rs:125-132 | About `Lcd.EnableEvents` (`enable`): `enable` makes the display latch exactly once, sampling RS and D4..D7 as they stand, and leaves E low. |
| LcdProperties.RaisesOnly | src/lib.rs:164-175 | The four conditional raises of a nibble only raise data lines, OR the nibble into the lines, and latch nothing. |
| LcdProperties.NibbleClearsFirst | src/lib.rs:162-176 | In a nibble transfer the data lines are all low once the clear is done. Only raising writes to data lines follow, up to the strobe. |
| LcdProperties.NibbleTransfer | src/lib.rs:162-176 | About `Lcd.NibbleEvents`: whatever D4..D7 held before, a nibble transfer latches exactly the given four bits with the current RS. The nibble stays on the lines and E is low. |
| LcdProperties.SendLatches | src/lib.rs:155-195 | About `Lcd.SendEvents` / `Lcd.Send`: `send(bits, mode)` latches exactly twice: bits 4..7 then bits 0..3, with RS high iff the mode is Character at both. Afterwards E is low, RS gives the mode and D4..D7 still carry bits 0..3. |
| LcdProperties.SendClearsBeforeEachNibble | src/lib.rs:157-178 | In `send`, D4..D7 are all low just before the high nibble is written and again just before the low nibble is written. |
| LcdProperties.SendRoundTrip | src/lib.rs:155-195 | About `Lcd.SendEvents`: for every byte and mode, the display receives exactly that one byte in that mode. |
| LcdProperties.TransmitRoundTrip | src/lib.rs:155-195 | For any list of sends from any line levels, the display receives exactly those bytes in order, two latches per byte. |
| LcdProperties.TransmitEndState | src/lib.rs:155-195 | After a non-empty run of sends, the lines stand as the last `send` leaves them. |
| LcdProperties.InitSendsBringUp | src/lib.rs:113-119 | About `Lcd.InitEvents` / `Lcd.Init` over `Lcd.InitSequence` and `Instruction.Code` (src/lib.rs:47-52): `init` makes the display receive exactly six command-mode bytes 0x33, 0x32, 0x06, 0x0C, 0x28, 0x01, in that order. It leaves RS, E and D5..D7 low, with D4 carrying bit 0 of 0x01. |
| LcdProperties.NewBringsUp | src/lib.rs:85-86 | About `Lcd.New`: construction (`init` then `reset_data_pins`) makes the display receive the bring-up sequence in 12 latches and nothing else. All six lines are then low. |
| LcdProperties.ClearScreenSendsClear | src/lib.rs:218-219 | About `Lcd.ClearScreen`: `clear_screen` keeps the writes so far and appends the writes of one `send`. The display receives 0x01 in command mode in exactly two latches and nothing else, and the lines stand as that `send` leaves them. |
| LcdProperties.ResetClearsAndLowers | src/lib.rs:143-150 | About `Lcd.ResetEvents`: the writes of `reset` make the display receive 0x01 in command mode, in exactly two latches, and nothing else. All six lines are then low. |
| LcdProperties.ResetLeavesAllLow | src/lib.rs:143-151 | About `Lcd.Reset`: `reset` on a controller keeps the writes so far and makes the display receive one clear instruction in exactly two latches. All six lines are then low. |
| LcdProperties.NewThenDrop | src/lib.rs:223-227 | About `Lcd.New` then `Lcd.Drop`: construction then `drop`: the display receives the bring-up sequence, then one more 0x01 from `reset`, in 14 latches in all. All six lines end low. |
| LcdProperties.CharEventsTransmit | src/lib.rs:210-214 | About `Lcd.CharEvents`: the `display_text` loop is one character-mode `send` per index below 16 at which the padded text has a character, in order. |
| LcdProperties.DisplayTextGuard | src/lib.rs:202-206 | About `Lcd.DisplayText`: `display_text` panics exactly when the text is longer than 16 bytes, and it does so before any write. |
| LcdProperties.DisplayTextWritesRow | src/lib.rs:202-215 | About `Lcd.DisplayText` / `Lcd.RowEvents` with `Line.Address` (src/lib.rs:37-38): for text of at most 16 bytes, the display first receives the row address in command mode: 0x80 for the first row, 0xC0 for the second. Then it receives one character-mode byte per character of the space-padded text, left to right. That makes 1 + characters + (16 - bytes) bytes, two latches each. |
| LcdProperties.DisplayAsciiText | src/lib.rs:207-214 | About `Lcd.DisplayText`: for ASCII text of at most 16 characters, the display receives exactly 17 bytes: the row address, the text's bytes, then spaces (0x20) up to column 16, in 34 latches. |

## Left out

- Acquiring the lines through `rppal` (`Gpio::new`, `gpio.get(..).into_output()`, `DeviceInfo::new`; src/lib.rs:74-84, 96-106):
  - these are foreign calls whose only modelled effect would be an error result;
  - construction starts from the six lines already owned, at arbitrary levels.
- `default()` (src/lib.rs:95-110): it differs from `new` only in the GPIO numbers it passes (src/lib.rs:27-32). GPIO numbers are not modelled.
- `thread::sleep` and all timing (src/lib.rs:120-121, 126-131, 151, 204): only the order of the writes is modelled. The display is assumed fast enough for every strobe.
- The `Display` impl and `high_or_low` (src/lib.rs:230-261): diagnostic formatting over platform information.
- The two example programs (basic and advanced usage): they are consumers of the driver built on threads, channels and sleeps.
- Panic unwinding:
  - `display_text`'s panic is a `TextTooLong` result carrying the unchanged controller;
  - the `drop` that Rust runs on unwinding is not applied automatically;
  - `Lcd.Drop` models what it would write.
- What the display does with the bytes it receives (cursor, memory, 8-bit power-on mode). The model observes the bus only up to received bytes and their mode.
- LcdProperties.DisplayAsciiText: the exact 17-byte row is stated only for ASCII text.
  - For other text, LcdProperties.DisplayTextWritesRow gives the general count 1 + characters + (16 - bytes).
  - Each non-ASCII character is sent as the low eight bits of its code point (`Text.CharByte`).
