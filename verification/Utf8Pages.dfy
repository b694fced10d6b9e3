/** How the daemon cuts UTF-8 text into pages that end on character boundaries. */
module Utf8Pages {
  import opened Basics

  const PAGE_BYTES := 2048

  predicate Tail(b: Byte) {
    0x80 <= b < 0xC0
  }

  /** The number of bytes of the first character, or 0 if none is well formed (section 4 of RFC 3629). */
  function FirstWidth(text: seq<Byte>): nat {
    if |text| == 0 then 0
    else if text[0] < 0x80 then 1
    else if |text| >= 2 && 0xC2 <= text[0] < 0xE0 && Tail(text[1]) then 2
    else if |text| >= 3 && 0xE0 <= text[0] < 0xF0 && Tail(text[1]) && Tail(text[2])
            && (text[0] == 0xE0 ==> 0xA0 <= text[1]) && (text[0] == 0xED ==> text[1] < 0xA0) then 3
    else if |text| >= 4 && 0xF0 <= text[0] < 0xF5 && Tail(text[1]) && Tail(text[2]) && Tail(text[3])
            && (text[0] == 0xF0 ==> 0x90 <= text[1]) && (text[0] == 0xF4 ==> text[1] < 0x90) then 4
    else 0
  }

  predicate ValidUtf8(text: seq<Byte>) {
    text == [] || (0 < FirstWidth(text) && ValidUtf8(text[FirstWidth(text)..]))
  }

  // ---------- Valid text is encoded text ----------

  /** A Unicode scalar value: a code point that is not a surrogate. */
  type Scalar = c: int | 0 <= c < 0x110000 && !(0xD800 <= c < 0xE000)

  /** The encoding of section 3 of RFC 3629. */
  function Encode(c: Scalar): seq<Byte> {
    if c < 0x80 then [c]
    else if c < 0x800 then [0xC0 + c / 64, 0x80 + c % 64]
    else if c < 0x10000 then [0xE0 + c / 64 / 64, 0x80 + c / 64 % 64, 0x80 + c % 64]
    else [0xF0 + c / 64 / 64 / 64, 0x80 + c / 64 / 64 % 64, 0x80 + c / 64 % 64, 0x80 + c % 64]
  }

  function EncodeAll(cs: seq<Scalar>): seq<Byte> {
    if cs == [] then [] else Encode(cs[0]) + EncodeAll(cs[1..])
  }

  lemma EncodedFirst(c: Scalar, rest: seq<Byte>)
    ensures FirstWidth(Encode(c) + rest) == |Encode(c)| > 0
  {
    var text := Encode(c) + rest;
    assert text[0] == Encode(c)[0];
    if c >= 0x80 {
      assert text[1] == Encode(c)[1];
    }
    if c >= 0x800 {
      assert text[2] == Encode(c)[2];
    }
    if c >= 0x10000 {
      assert text[3] == Encode(c)[3];
    }
  }

  lemma TwoBytes(x: int, y: int)
    requires 2 <= x < 32 && 0 <= y < 64
    ensures Encode(x * 64 + y) == [0xC0 + x, 0x80 + y]
  {
  }

  lemma ThreeBytes(x: int, y: int, z: int)
    requires 0 <= x < 16 && 0 <= y < 64 && 0 <= z < 64 && (x == 0 ==> y >= 32) && (x == 13 ==> y < 32)
    ensures var c := (x * 64 + y) * 64 + z;
      0x800 <= c < 0x10000 && !(0xD800 <= c < 0xE000) && Encode(c) == [0xE0 + x, 0x80 + y, 0x80 + z]
  {
    assert ((x * 64 + y) * 64 + z) / 64 == x * 64 + y;
  }

  lemma FourBytes(w: int, x: int, y: int, z: int)
    requires 0 <= w <= 4 && 0 <= x < 64 && 0 <= y < 64 && 0 <= z < 64 && (w == 0 ==> x >= 16) && (w == 4 ==> x < 16)
    ensures var c := ((w * 64 + x) * 64 + y) * 64 + z;
      0x10000 <= c < 0x110000 && Encode(c) == [0xF0 + w, 0x80 + x, 0x80 + y, 0x80 + z]
  {
    assert (((w * 64 + x) * 64 + y) * 64 + z) / 64 == (w * 64 + x) * 64 + y;
    assert ((w * 64 + x) * 64 + y) / 64 == w * 64 + x;
  }

  /** The first character of text that starts with a well-formed one. */
  lemma DecodeFirst(text: seq<Byte>) returns (c: Scalar)
    requires FirstWidth(text) > 0
    ensures Encode(c) == text[..FirstWidth(text)]
  {
    var a: int := text[0];
    if FirstWidth(text) == 1 {
      c := a;
    } else {
      var b: int := text[1] as int - 0x80;
      if FirstWidth(text) == 2 {
        TwoBytes(a - 0xC0, b);
        c := (a - 0xC0) * 64 + b;
      } else {
        var d: int := text[2] as int - 0x80;
        if FirstWidth(text) == 3 {
          ThreeBytes(a - 0xE0, b, d);
          c := ((a - 0xE0) * 64 + b) * 64 + d;
        } else {
          var e: int := text[3] as int - 0x80;
          FourBytes(a - 0xF0, b, d, e);
          c := (((a - 0xF0) * 64 + b) * 64 + d) * 64 + e;
        }
      }
    }
  }

  lemma {:induction false} EncodedIsValid(cs: seq<Scalar>)
    ensures ValidUtf8(EncodeAll(cs))
  {
    if cs != [] {
      var rest := EncodeAll(cs[1..]);
      EncodedFirst(cs[0], rest);
      EncodedIsValid(cs[1..]);
      assert (Encode(cs[0]) + rest)[|Encode(cs[0])|..] == rest;
    }
  }

  lemma {:induction false} ValidIsEncoded(text: seq<Byte>) returns (cs: seq<Scalar>)
    requires ValidUtf8(text)
    ensures text == EncodeAll(cs)
  {
    if text == [] {
      cs := [];
    } else {
      var w := FirstWidth(text);
      var rest := ValidIsEncoded(text[w..]);
      var first := DecodeFirst(text);
      cs := [first] + rest;
      assert cs[1..] == rest && text == text[..w] + text[w..];
    }
  }

  /** Valid text is exactly what some sequence of scalar values encodes to. */
  lemma ValidExactly(text: seq<Byte>)
    ensures ValidUtf8(text) <==> exists cs :: text == EncodeAll(cs)
  {
    if ValidUtf8(text) {
      var cs := ValidIsEncoded(text);
    }
    forall cs | text == EncodeAll(cs) ensures ValidUtf8(text) {
      EncodedIsValid(cs);
    }
  }

  // ---------- Pages ----------

  /** `str::is_char_boundary`. */
  predicate Boundary(text: seq<Byte>, i: nat) {
    i == 0 || i == |text| || (i < |text| && !Tail(text[i]))
  }

  /** In valid text a character boundary is never more than three bytes back. */
  lemma {:induction false} BoundaryIsNear(text: seq<Byte>, i: nat)
    requires ValidUtf8(text) && i <= |text|
    ensures exists b: nat :: b <= i <= b + 3 && Boundary(text, b)
  {
    var w := FirstWidth(text);
    if i < w || text == [] {
      assert Boundary(text, 0);
    } else {
      BoundaryIsNear(text[w..], i - w);
      var b: nat :| b <= i - w <= b + 3 && Boundary(text[w..], b);
      assert Boundary(text, w + b);
    }
  }

  /** The last boundary at or before `end`. */
  function BackToBoundary(text: seq<Byte>, end: nat): (b: nat)
    requires end <= |text|
    ensures b <= end && Boundary(text, b)
    ensures forall k | b < k <= end :: !Boundary(text, k)
  {
    if Boundary(text, end) then end else BackToBoundary(text, end - 1)
  }

  /** Where the page that starts at `offset` ends. */
  function PageEnd(text: seq<Byte>, offset: nat): nat {
    BackToBoundary(text, Min(|text|, offset + PAGE_BYTES))
  }

  /** The daemon's cursor loop. */
  method CutPage(text: seq<Byte>, offset: nat) returns (end: nat)
    ensures end == PageEnd(text, offset)
  {
    end := Min(|text|, offset + PAGE_BYTES);
    while !Boundary(text, end)
      invariant end <= |text| && BackToBoundary(text, end) == PageEnd(text, offset)
      decreases end
    {
      end := end - 1;
    }
  }

  /** A page that does not reach the end of valid text carries at least 2045 of its 2048 bytes. */
  lemma PageIsNearlyFull(text: seq<Byte>, offset: nat)
    requires ValidUtf8(text) && offset <= |text|
    ensures offset <= PageEnd(text, offset) <= |text|
    ensures PageEnd(text, offset) <= offset + 2048
    ensures PageEnd(text, offset) == |text| || PageEnd(text, offset) >= offset + 2045
  {
    var limit := Min(|text|, offset + PAGE_BYTES);
    BoundaryIsNear(text, limit);
    var b: nat :| b <= limit <= b + 3 && Boundary(text, b);
  }
}
