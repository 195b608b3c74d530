/**
  The display side of the 4-bit bus of the Hitachi HD44780U.

  The display samples register select and data lines DB4..DB7 on the
  falling edge of the enable strobe. In 4-bit mode two such transfers make
  one byte: the high nibble first, then the low nibble. This module reads a
  trace of pin writes the way the display does, so that what the
  controller drives can be compared with what the display receives.
*/
module Hd44780 {
  import opened Bytes
  import opened Gpio

  /** What a byte means to the display: data for display memory, or an instruction. */
  datatype Mode = Character | Command

  /** Register select is high for character data and low for instructions. */
  function ModeOf(rs: bool): Mode {
    if rs then Character else Command
  }

  /** The lines the display samples at one falling edge of the enable strobe. */
  datatype Latch = Latch(rs: bool, d4: bool, d5: bool, d6: bool, d7: bool) {
    function Value(): Nibble {
      NibbleOf(d4, d5, d6, d7)
    }
  }

  function Sample(p: Pins): Latch {
    Latch(p.rs, p.d4, p.d5, p.d6, p.d7)
  }

  /** `ev` takes the enable strobe from high to low. */
  predicate FallingEdge(p: Pins, ev: Event) {
    ev.pin == E && !ev.high && p.e
  }

  /** Every transfer the display latches while the lines go through `t` from `p`. */
  function Latches(p: Pins, t: seq<Event>): seq<Latch>
    decreases |t|
  {
    if t == [] then []
    else (if FallingEdge(p, t[0]) then [Sample(p)] else []) + Latches(Apply(p, t[0]), t[1..])
  }

  /** One byte as the display receives it. */
  datatype Frame = Frame(mode: Mode, value: Byte)

  /**
    Pairs transfers into bytes, high nibble first; the mode is the register
    select level of the first transfer. A trailing single transfer is half a
    byte and yields nothing yet.
  */
  function Frames(ls: seq<Latch>): (fs: seq<Frame>)
    ensures |fs| == |ls| / 2
    decreases |ls|
  {
    if |ls| < 2 then []
    else [Frame(ModeOf(ls[0].rs), Join(ls[0].Value(), ls[1].Value()))] + Frames(ls[2..])
  }

  /** The bytes the display receives while the lines go through `t` from `p`. */
  function Received(p: Pins, t: seq<Event>): seq<Frame> {
    Frames(Latches(p, t))
  }

  lemma {:induction false} LatchesAppend(p: Pins, t: seq<Event>, u: seq<Event>)
    ensures Latches(p, t + u) == Latches(p, t) + Latches(Run(p, t), u)
    decreases |t|
  {
    if t == [] {
      assert t + u == u;
    } else {
      assert (t + u)[1..] == t[1..] + u;
      LatchesAppend(Apply(p, t[0]), t[1..], u);
    }
  }

  /** Two traces back to back: the latches of both, and the levels after both. */
  lemma Then(p: Pins, t: seq<Event>, u: seq<Event>)
    ensures Latches(p, t + u) == Latches(p, t) + Latches(Run(p, t), u)
    ensures Run(p, t + u) == Run(Run(p, t), u)
  {
    LatchesAppend(p, t, u);
    RunAppend(p, t, u);
  }

  /** The bytes received over two traces back to back, when the first ends between two bytes. */
  lemma ReceivedAppend(p: Pins, t: seq<Event>, u: seq<Event>)
    requires |Latches(p, t)| % 2 == 0
    ensures Received(p, t + u) == Received(p, t) + Received(Run(p, t), u)
    ensures |Latches(p, t + u)| == |Latches(p, t)| + |Latches(Run(p, t), u)|
  {
    LatchesAppend(p, t, u);
    FramesAppend(Latches(p, t), Latches(Run(p, t), u));
  }

  /** Once a whole number of bytes has been received, later transfers are decoded on their own. */
  lemma {:induction false} FramesAppend(l1: seq<Latch>, l2: seq<Latch>)
    requires |l1| % 2 == 0
    ensures Frames(l1 + l2) == Frames(l1) + Frames(l2)
    decreases |l1|
  {
    if |l1| == 0 {
      assert l1 + l2 == l2;
    } else {
      assert (l1 + l2)[2..] == l1[2..] + l2;
      FramesAppend(l1[2..], l2);
    }
  }
}
