/**
  Text as the controller measures and pads it.

  A Rust `&str` is UTF-8: `str::len` counts bytes, `chars().nth(i)` picks the
  i-th scalar value and `c as u8` keeps the low eight bits of its code point.
  A Dafny `string` is a sequence of scalar values, so the byte length is
  computed here from the UTF-8 width of each character.
*/
module Text {
  import opened Bytes

  /** Number of bytes UTF-8 uses to encode `ch`. */
  function Utf8Width(ch: char): (w: nat)
    ensures 1 <= w <= 4
    ensures w == 1 <==> ch as int < 0x80
  {
    if ch as int < 0x80 then 1
    else if ch as int < 0x800 then 2
    else if ch as int < 0x1_0000 then 3
    else 4
  }

  /** Byte length of the UTF-8 encoding of `s`, which is what `str::len` returns. */
  function Utf8Len(s: string): (n: nat)
    ensures |s| <= n <= 4 * |s|
    decreases |s|
  {
    if s == [] then 0 else Utf8Len(s[..|s| - 1]) + Utf8Width(s[|s| - 1])
  }

  predicate IsAscii(s: string) {
    forall i :: 0 <= i < |s| ==> s[i] as int < 0x80
  }

  /** `c as u8`: the low eight bits of the code point. */
  function CharByte(ch: char): Byte {
    ((ch as int) % 256) as bv8
  }

  /** `usize::saturating_sub`: the least count that brings `b` up to `a`. */
  function SaturatingSub(a: nat, b: nat): (d: nat)
    ensures b + d >= a
    ensures d == 0 || b + d == a
  {
    if a >= b then a - b else 0
  }

  /** `str::repeat`: `n` copies of `s` back to back. */
  function Repeat(s: string, n: nat): (r: string)
    ensures |r| == n * |s|
    ensures |s| == 1 ==> forall i :: 0 <= i < |r| ==> r[i] == s[0]
  {
    if n == 0 then [] else Repeat(s, n - 1) + s
  }

  /**
    `pad_text`: `text` followed by enough copies of `padWith` to make up
    the difference between `width` and the byte length of `text`, and no
    copies when the text is already that long.
  */
  function PadText(text: string, width: nat, padWith: string): (r: string)
    ensures |r| >= |text| && r[..|text|] == text
    ensures |r| == |text| + SaturatingSub(width, Utf8Len(text)) * |padWith|
  {
    text + Repeat(padWith, SaturatingSub(width, Utf8Len(text)))
  }

  /** The `i`-th character of `n` copies of `s` is the character of `s` at `i` modulo its length. */
  lemma {:induction false} RepeatContents(s: string, n: nat)
    ensures forall i :: 0 <= i < |Repeat(s, n)| ==> Repeat(s, n)[i] == s[i % |s|]
    decreases n
  {
    if n > 0 {
      RepeatContents(s, n - 1);
      var prev := Repeat(s, n - 1);
      forall i | |prev| <= i < |Repeat(s, n)|
        ensures Repeat(s, n)[i] == s[i % |s|]
      {
        ModUnique(i, |s|, n - 1, i - |prev|);
      }
    }
  }

  /** The remainder is unique: `m * q + r` with `0 <= r < m` leaves `r`. */
  lemma ModUnique(y: int, m: int, q: int, r: int)
    requires m > 0 && 0 <= r < m && y == m * q + r
    ensures y % m == r
  {
    var d := q - y / m;
    assert m * d == y % m - r;
  }

  /** Everything after the text is copies of `padWith`, back to back. */
  lemma PadTextContents(text: string, width: nat, padWith: string)
    ensures var r := PadText(text, width, padWith);
      forall i :: |text| <= i < |r| ==> r[i] == padWith[(i - |text|) % |padWith|]
  {
    RepeatContents(padWith, SaturatingSub(width, Utf8Len(text)));
  }

  lemma {:induction false} Utf8LenAppend(a: string, b: string)
    ensures Utf8Len(a + b) == Utf8Len(a) + Utf8Len(b)
    decreases |b|
  {
    if b == [] {
      assert a + b == a;
    } else {
      var b' := b[..|b| - 1];
      assert (a + b)[..|a + b| - 1] == a + b';
      Utf8LenAppend(a, b');
    }
  }

  /** Every ASCII string is as many bytes long as it has characters, and only those are. */
  lemma {:induction false} Utf8LenIsLength(s: string)
    ensures Utf8Len(s) == |s| <==> IsAscii(s)
    decreases |s|
  {
    if s != [] {
      var s' := s[..|s| - 1];
      Utf8LenIsLength(s');
      if IsAscii(s) {
        assert IsAscii(s') by {
          forall i | 0 <= i < |s'| ensures s'[i] as int < 0x80 {
            assert s'[i] == s[i];
          }
        }
      } else {
        var k :| 0 <= k < |s| && s[k] as int >= 0x80;
        if k == |s| - 1 {
          assert Utf8Width(s[|s| - 1]) > 1;
        } else {
          assert s'[k] == s[k];
          assert !IsAscii(s');
        }
      }
    }
  }

  /**
    Padding with a single space, as the controller does: the byte length
    becomes the larger of `width` and that of `text`, everything after
    `text` is a space, and a text that already fills `width` is returned
    unchanged.
  */
  lemma PadWithSpaces(text: string, width: nat)
    ensures var r := PadText(text, width, " ");
      && Utf8Len(r) == (if Utf8Len(text) >= width then Utf8Len(text) else width)
      && (forall i :: |text| <= i < |r| ==> r[i] == ' ')
      && (Utf8Len(text) >= width ==> r == text)
  {
    var n := SaturatingSub(width, Utf8Len(text));
    var pad := Repeat(" ", n);
    SpacesUtf8Len(n);
    Utf8LenAppend(text, pad);
    assert PadText(text, width, " ") == text + pad;
  }

  lemma {:induction false} SpacesUtf8Len(n: nat)
    ensures Utf8Len(Repeat(" ", n)) == n
  {
    if n > 0 {
      SpacesUtf8Len(n - 1);
      Utf8LenAppend(Repeat(" ", n - 1), " ");
    }
  }

  /** An ASCII text of at most `width` characters is padded to exactly `width` characters. */
  lemma PadAsciiToWidth(text: string, width: nat)
    requires IsAscii(text) && |text| <= width
    ensures |PadText(text, width, " ")| == width
  {
    Utf8LenIsLength(text);
  }
}
