/**
 * The part of Go's unicode/utf8 that the streaming decoder relies on: one rune at a time, rejecting malformed bytes.
 */
module Utf8 {
  import opened Bytes

  /** A Unicode scalar value. */
  type Scalar = x: int | 0 <= x < 0xD800 || 0xE000 <= x < 0x11_0000

  const REPLACEMENT: Scalar := 0xFFFD

  datatype Rune = Malformed | Rune(value: Scalar, size: nat)

  predicate Continues(b: byte) {
    0x80 <= b < 0xC0
  }

  /** A number written with four base-64 digits. */
  function Digits(a: int, b: int, c: int, d: int): int {
    ((a * 64 + b) * 64 + c) * 64 + d
  }

  function Digit(n: int, place: nat): int {
    if place == 0 then n % 64
    else if place == 1 then n / 64 % 64
    else if place == 2 then n / 64 / 64 % 64
    else n / 64 / 64 / 64 % 64
  }

  lemma DigitsOf(a: int, b: int, c: int, d: int)
    requires 0 <= a < 64 && 0 <= b < 64 && 0 <= c < 64 && 0 <= d < 64
    ensures var n := Digits(a, b, c, d);
            Digit(n, 0) == d && Digit(n, 1) == c && Digit(n, 2) == b && Digit(n, 3) == a
  {
    var n := Digits(a, b, c, d);
    assert n / 64 == (a * 64 + b) * 64 + c;
    assert n / 64 / 64 == a * 64 + b;
    assert n / 64 / 64 / 64 == a;
  }

  lemma DigitsRebuild(n: int)
    requires 0 <= n < 0x100_0000
    ensures Digits(Digit(n, 3), Digit(n, 2), Digit(n, 1), Digit(n, 0)) == n
    ensures 0 <= Digit(n, 0) < 64 && 0 <= Digit(n, 1) < 64 && 0 <= Digit(n, 2) < 64 && 0 <= Digit(n, 3) < 64
    ensures n < 0x1000 ==> Digit(n, 2) == Digit(n, 3) == 0
    ensures n < 0x4_0000 ==> Digit(n, 3) == 0
  {
  }

  /** `Malformed` is Go's RuneError of width one, which a truncated sequence also yields. */
  function DecodeRune(s: seq<byte>): (r: Rune)
    ensures r.Rune? ==> 1 <= r.size <= |s|
  {
    if |s| == 0 then Malformed
    else
      var b0 := s[0];
      if b0 < 0x80 then Rune(b0, 1)
      else if b0 < 0xC2 || b0 > 0xF4 then Malformed
      else if b0 < 0xE0 then
        if |s| < 2 || !Continues(s[1]) then Malformed
        else Rune(Digits(0, 0, b0 as int - 0xC0, s[1] as int - 0x80), 2)
      else if b0 < 0xF0 then
        if |s| < 3 || !SecondOfThree(b0, s[1]) || !Continues(s[2]) then Malformed
        else Rune(Digits(0, b0 as int - 0xE0, s[1] as int - 0x80, s[2] as int - 0x80), 3)
      else
        if |s| < 4 || !SecondOfFour(b0, s[1]) || !Continues(s[2]) || !Continues(s[3]) then Malformed
        else Rune(Digits(b0 as int - 0xF0, s[1] as int - 0x80, s[2] as int - 0x80, s[3] as int - 0x80), 4)
  }

  /** Shuts out overlong forms and surrogates. */
  predicate SecondOfThree(b0: byte, b1: byte) {
    && (if b0 == 0xE0 then 0xA0 else 0x80) <= b1
    && b1 < (if b0 == 0xED then 0xA0 else 0xC0)
  }

  /** Shuts out overlong forms and values above 0x10FFFF. */
  predicate SecondOfFour(b0: byte, b1: byte) {
    && (if b0 == 0xF0 then 0x90 else 0x80) <= b1
    && b1 < (if b0 == 0xF4 then 0x90 else 0xC0)
  }

  function EncodeRune(r: Scalar): (s: seq<byte>)
    ensures 1 <= |s| <= 4
  {
    DigitsRebuild(r);
    if r < 0x80 then [r]
    else if r < 0x800 then [0xC0 + Digit(r, 1), 0x80 + Digit(r, 0)]
    else if r < 0x1_0000 then [0xE0 + Digit(r, 2), 0x80 + Digit(r, 1), 0x80 + Digit(r, 0)]
    else [0xF0 + Digit(r, 3), 0x80 + Digit(r, 2), 0x80 + Digit(r, 1), 0x80 + Digit(r, 0)]
  }

  /** The forms of RFC 3629, section 3: what the marker bits leave free, read from the first byte on, is the number. */
  lemma EncodingIsUtf8(r: Scalar)
    ensures var e: seq<int> := EncodeRune(r);
            && |e| == (if r < 0x80 then 1 else if r < 0x800 then 2 else if r < 0x1_0000 then 3 else 4)
            && (|e| == 1 ==> e[0] == r)
            && (|e| == 2 ==> 0xC0 <= e[0] < 0xE0 && r == (e[0] - 0xC0) * 0x40 + e[1] - 0x80)
            && (|e| == 3 ==> && 0xE0 <= e[0] < 0xF0
                             && r == (e[0] - 0xE0) * 0x1000 + (e[1] - 0x80) * 0x40 + e[2] - 0x80)
            && (|e| == 4 ==>
                  && 0xF0 <= e[0] < 0xF5
                  && r == (e[0] - 0xF0) * 0x4_0000 + (e[1] - 0x80) * 0x1000 + (e[2] - 0x80) * 0x40 + e[3] - 0x80)
            && forall i :: 1 <= i < |e| ==> 0x80 <= e[i] < 0xC0
  {
    DigitsRebuild(r);
    hide Digit;
  }

  lemma DecodeIsStable(a: seq<byte>, b: seq<byte>)
    ensures DecodeRune(a).Rune? ==> DecodeRune(a + b) == DecodeRune(a)
  {
  }

  lemma DecodeEncoded(r: Scalar, rest: seq<byte>)
    ensures DecodeRune(EncodeRune(r) + rest) == Rune(r, |EncodeRune(r)|)
  {
    DigitsRebuild(r);
    hide Digit;
    var e := EncodeRune(r);
    var s := e + rest;
    assert forall i :: 0 <= i < |e| ==> s[i] == e[i];
  }

  /** Only the shortest form of a rune is accepted, so decoding loses nothing. */
  lemma EncodeDecoded(s: seq<byte>)
    ensures DecodeRune(s).Rune? ==> EncodeRune(DecodeRune(s).value) == s[..DecodeRune(s).size]
  {
    if DecodeRune(s).Rune? {
      var b0: int := s[0];
      if 0x80 <= b0 < 0xE0 {
        DigitsOf(0, 0, b0 - 0xC0, s[1] as int - 0x80);
      } else if 0xE0 <= b0 < 0xF0 {
        DigitsOf(0, b0 - 0xE0, s[1] as int - 0x80, s[2] as int - 0x80);
      } else if 0xF0 <= b0 {
        DigitsOf(b0 - 0xF0, s[1] as int - 0x80, s[2] as int - 0x80, s[3] as int - 0x80);
      }
      hide Digit;
    }
  }

  function EncodeAll(rs: seq<Scalar>): seq<byte> {
    if rs == [] then [] else EncodeRune(rs[0]) + EncodeAll(rs[1..])
  }

  /**
   * Go compares and cuts strings by bytes; on valid UTF-8 that is the same as comparing and cutting them by runes,
   * which is how the decoded strings are modelled.
   */
  lemma {:induction false} PrefixByBytesIsPrefixByRunes(a: seq<Scalar>, b: seq<Scalar>)
    ensures EncodeAll(a) <= EncodeAll(b) <==> a <= b
    decreases |a|
  {
    if a == [] {
    } else if b == [] {
    } else {
      hide EncodeRune, DecodeRune;
      var x, y := EncodeRune(a[0]), EncodeRune(b[0]);
      DecodeEncoded(a[0], EncodeAll(a[1..]));
      DecodeEncoded(b[0], EncodeAll(b[1..]));
      PrefixByBytesIsPrefixByRunes(a[1..], b[1..]);
      if EncodeAll(a) <= EncodeAll(b) {
        var tail := EncodeAll(b)[|EncodeAll(a)|..];
        assert EncodeAll(b) == EncodeAll(a) + tail;
        DecodeIsStable(EncodeAll(a), tail);
        assert a[0] == b[0];
        assert EncodeAll(a[1..]) == EncodeAll(a)[|x|..] <= EncodeAll(b)[|x|..] == EncodeAll(b[1..]);
        assert a == [a[0]] + a[1..] <= [b[0]] + b[1..] == b;
      }
      if a <= b {
        assert a[1..] <= b[1..];
      }
    }
  }
}
