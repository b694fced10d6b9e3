/** How many bytes compact JSON takes, by the rules of section 7 of RFC 8259 for strings. */
module JsonLength {
  import opened Basics
  import opened Decimal

  /** Quote, backslash and five control characters have two-byte escapes, the other controls six-byte ones. */
  function ByteLength(b: Byte): (n: nat)
    ensures 1 <= n <= 6
  {
    if b in {8, 9, 10, 12, 13, 0x22, 0x5C} then 2 else if b < 0x20 then 6 else 1
  }

  const BACKSLASH: Byte := 0x5C

  function Hex(d: int): Byte
    requires 0 <= d < 16
  {
    if d < 10 then 48 + d else 87 + d
  }

  /** The byte as it stands between the quotes. */
  function Escaped(b: Byte): seq<Byte> {
    if b == 0x22 || b == BACKSLASH then [BACKSLASH, b]
    else if b == 8 then [BACKSLASH, 98]
    else if b == 9 then [BACKSLASH, 116]
    else if b == 10 then [BACKSLASH, 110]
    else if b == 12 then [BACKSLASH, 102]
    else if b == 13 then [BACKSLASH, 114]
    else if b < 0x20 then [BACKSLASH, 117, 48, 48, Hex(b / 16), Hex(b % 16)]
    else [b]
  }

  function Digit(h: Byte): int {
    if 48 <= h <= 57 then h as int - 48 else h as int - 87
  }

  /** The byte a JSON reader takes from the front of a string's text. */
  function Unescaped(s: seq<Byte>): int {
    if |s| == 0 then -1
    else if s[0] != BACKSLASH then s[0]
    else if |s| == 1 then -1
    else if s[1] == 98 then 8
    else if s[1] == 116 then 9
    else if s[1] == 110 then 10
    else if s[1] == 102 then 12
    else if s[1] == 114 then 13
    else if s[1] == 117 then (if |s| >= 6 then 16 * Digit(s[4]) + Digit(s[5]) else -1)
    else s[1]
  }

  /** The length is that of text a reader turns back into the byte, and no byte stands bare that may not. */
  lemma EscapeReadsBack(b: Byte)
    ensures |Escaped(b)| == ByteLength(b) && Unescaped(Escaped(b)) == b
    ensures Escaped(b)[0] == BACKSLASH || (Escaped(b) == [b] && b >= 0x20 && b != 0x22)
  {
  }

  function CharLength(c: char): (n: nat)
    ensures 1 <= n <= 6
  {
    var code := c as int;
    if code < 0x80 then ByteLength(code) else if code < 0x800 then 2 else if code < 0x10000 then 3 else 4
  }

  function TextLength(text: seq<Byte>): (n: nat)
    ensures 2 <= n <= 2 + 6 * |text|
  {
    if text == [] then 2 else ByteLength(text[0]) + TextLength(text[1..])
  }

  function StringLength(s: string): (n: nat)
    ensures 2 <= n <= 2 + 6 * |s|
  {
    if s == [] then 2 else CharLength(s[0]) + StringLength(s[1..])
  }

  function NumberLength(n: nat): nat {
    |Print(n)|
  }

  function BoolLength(b: bool): nat {
    if b then 4 else 5
  }

  // An absent value is `null`.

  function OptionalText(value: Option<seq<Byte>>): nat {
    if value.None? then 4 else TextLength(value.value)
  }

  function OptionalString(value: Option<string>): nat {
    if value.None? then 4 else StringLength(value.value)
  }

  function OptionalNumber(value: Option<nat>): nat {
    if value.None? then 4 else NumberLength(value.value)
  }

  function OptionalBool(value: Option<bool>): nat {
    if value.None? then 4 else BoolLength(value.value)
  }

  /** A key, its quotes, the colon and the value. */
  function Field(key: string, value: nat): nat {
    |key| + 3 + value
  }

  lemma {:induction false} PrintedLength(n: nat, digits: nat)
    requires digits > 0 && n < Pow10(digits)
    ensures |Print(n)| <= digits
    decreases n
  {
    if n >= 10 {
      PrintedLength(n / 10, digits - 1);
    }
  }

  /** A 64-bit number takes at most twenty digits. */
  lemma WordLength(n: nat)
    requires n < 0x1_0000_0000_0000_0000
    ensures NumberLength(n) <= 20
  {
    ScaleIsPow10();
    assert Pow10(16) == 10000 * Pow10(12);
    assert Pow10(20) == 10000 * Pow10(16);
    PrintedLength(n, 20);
  }
}
