/**
  The six output lines the controller owns and the writes made to them.

  Each `set_high`/`set_low` call is one `Write` event. A trace of events
  replayed from a starting level of every line gives the levels after it;
  delays between writes are not part of the model, only their order.
*/
module Gpio {

  /** Register select, enable strobe and data lines D4..D7 of the display. */
  datatype Pin = Rs | E | D4 | D5 | D6 | D7

  /** Logical level of every owned line; `true` is high. */
  datatype Pins = Pins(rs: bool, e: bool, d4: bool, d5: bool, d6: bool, d7: bool)

  /** One `set_high` (`high`) or `set_low` (`!high`) call on an output line. */
  datatype Event = Write(pin: Pin, high: bool)

  function Level(p: Pins, pin: Pin): bool {
    match pin
    case Rs => p.rs
    case E => p.e
    case D4 => p.d4
    case D5 => p.d5
    case D6 => p.d6
    case D7 => p.d7
  }

  /** The levels after one write: the written line takes the written level and no other line moves. */
  function Apply(p: Pins, ev: Event): (q: Pins)
    ensures Level(q, ev.pin) == ev.high
    ensures forall other: Pin :: other != ev.pin ==> Level(q, other) == Level(p, other)
  {
    match ev.pin
    case Rs => p.(rs := ev.high)
    case E => p.(e := ev.high)
    case D4 => p.(d4 := ev.high)
    case D5 => p.(d5 := ev.high)
    case D6 => p.(d6 := ev.high)
    case D7 => p.(d7 := ev.high)
  }

  /** The levels after replaying `t` from `p`, one write after another. */
  function Run(p: Pins, t: seq<Event>): Pins
    decreases |t|
  {
    if t == [] then p else Run(Apply(p, t[0]), t[1..])
  }

  predicate DataLow(p: Pins) {
    !p.d4 && !p.d5 && !p.d6 && !p.d7
  }

  predicate AllLow(p: Pins) {
    !p.rs && !p.e && DataLow(p)
  }

  /** Replaying two traces back to back is replaying the second from where the first ended. */
  lemma {:induction false} RunAppend(p: Pins, t: seq<Event>, u: seq<Event>)
    ensures Run(p, t + u) == Run(Run(p, t), u)
    decreases |t|
  {
    if t == [] {
      assert t + u == u;
    } else {
      assert (t + u)[1..] == t[1..] + u;
      RunAppend(Apply(p, t[0]), t[1..], u);
    }
  }
}
