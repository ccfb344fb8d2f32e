/** The partial JSON string decoder of internal/server/streaming_reply.go: partialJSONStringField and its helpers. */
module JsonField {
  import opened Bytes
  import opened Utf8

  const QUOTE: byte := 34
  const BACKSLASH: byte := 92
  const COLON: byte := 58

  /** strconv.Quote on the two field names in use. */
  const KIND_MARKER: seq<byte> := [34, 107, 105, 110, 100, 34]
  const REPLY_MARKER: seq<byte> := [34, 114, 101, 112, 108, 121, 34]

  // ----- Finding the value -----

  predicate OccursAt(raw: seq<byte>, marker: seq<byte>, k: nat) {
    k + |marker| <= |raw| && raw[k..k + |marker|] == marker
  }

  function FirstFrom(raw: seq<byte>, marker: seq<byte>, from: nat): (r: int)
    ensures r < 0 || (from <= r && OccursAt(raw, marker, r))
    ensures forall k :: from <= k && OccursAt(raw, marker, k) ==> 0 <= r <= k
    decreases |raw| - from
  {
    if from + |marker| > |raw| then -1
    else if OccursAt(raw, marker, from) then from
    else if from == |raw| then -1
    else FirstFrom(raw, marker, from + 1)
  }

  /** strings.Index: the first occurrence, or a negative number. */
  function IndexOf(raw: seq<byte>, marker: seq<byte>): (r: int)
    ensures r < 0 || OccursAt(raw, marker, r)
    ensures forall k: nat :: OccursAt(raw, marker, k) ==> 0 <= r <= k
  {
    FirstFrom(raw, marker, 0)
  }

  lemma OccurrenceIsStable(a: seq<byte>, b: seq<byte>, marker: seq<byte>, k: nat)
    requires k + |marker| <= |a|
    ensures OccursAt(a, marker, k) <==> OccursAt(a + b, marker, k)
  {
    assert (a + b)[k..k + |marker|] == a[k..k + |marker|];
  }

  lemma IndexIsStable(a: seq<byte>, b: seq<byte>, marker: seq<byte>)
    requires IndexOf(a, marker) >= 0
    ensures IndexOf(a + b, marker) == IndexOf(a, marker)
  {
    var i, j := IndexOf(a, marker), IndexOf(a + b, marker);
    OccurrenceIsStable(a, b, marker, i);
    OccurrenceIsStable(a, b, marker, j);
  }

  predicate IsBlank(b: byte) {
    b == 32 || b == 9 || b == 13 || b == 10
  }

  function SkipBlanks(s: seq<byte>): (t: seq<byte>)
    ensures |t| <= |s| && (t != [] ==> !IsBlank(t[0]))
  {
    if s != [] && IsBlank(s[0]) then SkipBlanks(s[1..]) else s
  }

  lemma {:induction false} SkipFinds(blanks: seq<byte>, rest: seq<byte>)
    requires AllBlank(blanks) && rest != [] && !IsBlank(rest[0])
    ensures SkipBlanks(blanks + rest) == rest
    decreases |blanks|
  {
    if blanks == [] {
      assert blanks + rest == rest;
    } else {
      assert (blanks + rest)[1..] == blanks[1..] + rest;
      SkipFinds(blanks[1..], rest);
    }
  }

  /** What follows an opening delimiter that may have blanks before it; nothing when it is not there (yet). */
  datatype Rest = Absent | Present(s: seq<byte>)

  function Expect(s: seq<byte>, delimiter: byte): Rest {
    var t := SkipBlanks(s);
    if t != [] && t[0] == delimiter then Present(t[1..]) else Absent
  }

  /** The text after the opening quote of the field's value. */
  function ValueText(raw: seq<byte>, marker: seq<byte>): Rest {
    var index := IndexOf(raw, marker);
    if index < 0 then Absent
    else
      match Expect(raw[index + |marker|..], COLON)
      case Absent => Absent
      case Present(s) => Expect(s, QUOTE)
  }

  lemma {:induction false} SkipIsStable(a: seq<byte>, b: seq<byte>)
    requires SkipBlanks(a) != []
    ensures SkipBlanks(a + b) == SkipBlanks(a) + b
    decreases |a|
  {
    if a != [] && IsBlank(a[0]) {
      assert (a + b)[1..] == a[1..] + b;
      SkipIsStable(a[1..], b);
    }
  }

  lemma ExpectIsStable(a: seq<byte>, b: seq<byte>, delimiter: byte)
    requires Expect(a, delimiter).Present?
    ensures Expect(a + b, delimiter) == Present(Expect(a, delimiter).s + b)
  {
    SkipIsStable(a, b);
    assert (SkipBlanks(a) + b)[1..] == SkipBlanks(a)[1..] + b;
  }

  lemma ValueTextIsStable(a: seq<byte>, b: seq<byte>, marker: seq<byte>)
    requires ValueText(a, marker).Present?
    ensures ValueText(a + b, marker) == Present(ValueText(a, marker).s + b)
  {
    IndexIsStable(a, b, marker);
    hide IndexOf, Expect;
    var from := IndexOf(a, marker) + |marker|;
    assert (a + b)[from..] == a[from..] + b;
    ExpectIsStable(a[from..], b, COLON);
    ExpectIsStable(Expect(a[from..], COLON).s, b, QUOTE);
  }

  // ----- One character of the value -----

  /** `Stop` is where the loop gives up for now or for good; `Close` is the closing quote. */
  datatype Token = Stop | Close | Char(value: Scalar, size: nat)

  datatype Escape = NoEscape | Escape(value: int, size: nat)

  function HexDigit(b: byte): (r: int)
    ensures -1 <= r < 16
  {
    if 48 <= b <= 57 then b - 48
    else if 97 <= b <= 102 then b - 87
    else if 65 <= b <= 70 then b - 55
    else -1
  }

  /** hex.DecodeString on four digits, as one number; -1 when one of them is not a digit. */
  function Hex4(s: seq<byte>): (r: int)
    requires |s| == 4
    ensures -1 <= r < 0x1_0000
  {
    var a, b, c, d := HexDigit(s[0]), HexDigit(s[1]), HexDigit(s[2]), HexDigit(s[3]);
    if a < 0 || b < 0 || c < 0 || d < 0 then -1 else ((a * 16 + b) * 16 + c) * 16 + d
  }

  predicate StartsUnicode(s: seq<byte>) {
    |s| >= 6 && s[0] == BACKSLASH && s[1] == 117
  }

  /** decodeJSONUnicodeEscape: a high surrogate needs a low one right behind it; a lone low one is passed through. */
  function UnicodeEscape(s: seq<byte>): (r: Escape)
    ensures r.Escape? ==> 6 <= r.size <= |s| && 0 <= r.value < 0x11_0000
  {
    if !StartsUnicode(s) then NoEscape
    else
      var first := Hex4(s[2..6]);
      if first < 0 then NoEscape
      else if first < 0xD800 || first > 0xDBFF then Escape(first, 6)
      else if !StartsUnicode(s[6..]) then NoEscape
      else
        var second := Hex4(s[8..12]);
        if second < 0xDC00 || second > 0xDFFF then NoEscape
        else Escape((first - 0xD800) * 1024 + (second - 0xDC00) + 0x1_0000, 12)
  }

  /**
   * Exactly the escapes of UTF-16: one unit outside the high surrogates, or a high and a low one for a larger value.
   */
  lemma UnicodeEscapeIsUtf16(s: seq<byte>, value: int, size: nat)
    ensures UnicodeEscape(s) == Escape(value, size)
            <==> || (size == 6 && StartsUnicode(s) && Hex4(s[2..6]) == value >= 0 && !(0xD800 <= value < 0xDC00))
                 || (size == 12 && StartsUnicode(s) && StartsUnicode(s[6..]) && 0x1_0000 <= value < 0x11_0000
                     && Hex4(s[2..6]) == 0xD800 + (value - 0x1_0000) / 1024
                     && Hex4(s[8..12]) == 0xDC00 + (value - 0x1_0000) % 1024)
  {
    hide Hex4;
    if StartsUnicode(s) && StartsUnicode(s[6..]) {
      SurrogateDigits(Hex4(s[2..6]) - 0xD800, Hex4(s[8..12]) - 0xDC00, value - 0x1_0000);
    }
  }

  lemma SurrogateDigits(high: int, low: int, n: int)
    ensures 0 <= low < 1024 ==> (high * 1024 + low == n <==> high == n / 1024 && low == n % 1024)
  {
  }

  /** strings.Builder.WriteRune: a surrogate is written as the replacement character. */
  function Written(r: int): Scalar
    requires 0 <= r < 0x11_0000
  {
    if 0xD800 <= r < 0xE000 then REPLACEMENT else r
  }

  function SimpleEscape(b: byte): (r: int)
    ensures -1 <= r < 0x80
  {
    if b == QUOTE || b == BACKSLASH || b == 47 then b
    else if b == 98 then 8
    else if b == 102 then 12
    else if b == 110 then 10
    else if b == 114 then 13
    else if b == 116 then 9
    else -1
  }

  function NextToken(s: seq<byte>): (t: Token)
    ensures t.Char? ==> 1 <= t.size <= |s|
    ensures t.Close? ==> s != []
  {
    if s == [] then Stop
    else if s[0] == QUOTE then Close
    else if s[0] != BACKSLASH then
      match DecodeRune(s)
      case Malformed => Stop
      case Rune(value, size) => Char(value, size)
    else if |s| < 2 then Stop
    else if SimpleEscape(s[1]) >= 0 then Char(SimpleEscape(s[1]), 2)
    else if s[1] == 117 then
      match UnicodeEscape(s)
      case NoEscape => Stop
      case Escape(value, size) => Char(Written(value), size)
    else Stop
  }

  lemma TokenIsStable(a: seq<byte>, b: seq<byte>)
    ensures NextToken(a) != Stop ==> NextToken(a + b) == NextToken(a)
  {
    DecodeIsStable(a, b);
    hide DecodeRune, Hex4, SimpleEscape, Written;
    if |a| >= 6 {
      assert (a + b)[2..6] == a[2..6];
      assert (a + b)[6..] == a[6..] + b;
    }
    if |a| >= 12 {
      assert (a + b)[8..12] == a[8..12];
    }
  }

  // ----- The whole value -----

  datatype Decoded = Decoded(value: seq<Scalar>, complete: bool)

  function DecodeText(s: seq<byte>): Decoded
    decreases |s|
  {
    match NextToken(s)
    case Stop => Decoded([], false)
    case Close => Decoded([], true)
    case Char(c, size) =>
      var rest := DecodeText(s[size..]);
      Decoded([c] + rest.value, rest.complete)
  }

  datatype Partial = Partial(value: seq<Scalar>, started: bool, complete: bool)

  function PartialField(raw: seq<byte>, marker: seq<byte>): Partial {
    match ValueText(raw, marker)
    case Absent => Partial([], false, false)
    case Present(s) =>
      var d := DecodeText(s);
      Partial(d.value, true, d.complete)
  }

  lemma {:induction false} DecodeTextGrows(a: seq<byte>, b: seq<byte>)
    ensures DecodeText(a).value <= DecodeText(a + b).value
    ensures DecodeText(a).complete ==> DecodeText(a + b) == DecodeText(a)
    decreases |a|
  {
    hide NextToken;
    TokenIsStable(a, b);
    match NextToken(a) {
      case Stop =>
      case Close =>
      case Char(c, size) =>
        TokenFits(a);
        assert (a + b)[size..] == a[size..] + b;
        DecodeTextGrows(a[size..], b);
        assert NextToken(a + b) == Char(c, size);
    }
  }

  lemma TokenFits(s: seq<byte>)
    ensures NextToken(s).Char? ==> 1 <= NextToken(s).size <= |s|
  {
  }

  /**
   * More text never takes anything back: once started or complete the field stays so, the value only grows, and a
   * completed value is final. The cut may fall inside a UTF-8 sequence, an escape or a surrogate pair.
   */
  lemma PrefixMonotone(raw: seq<byte>, more: seq<byte>, marker: seq<byte>)
    ensures var before, after := PartialField(raw, marker), PartialField(raw + more, marker);
            && (before.started ==> after.started)
            && before.value <= after.value
            && (before.complete ==> after == before)
  {
    hide DecodeText;
    if ValueText(raw, marker).Present? {
      ValueTextIsStable(raw, more, marker);
      DecodeTextGrows(ValueText(raw, marker).s, more);
    }
  }

  // ----- The source's loop -----

  method PartialJSONStringField(raw: seq<byte>, marker: seq<byte>)
    returns (value: seq<Scalar>, started: bool, complete: bool)
    ensures Partial(value, started, complete) == PartialField(raw, marker)
  {
    hide IndexOf, DecodeText, NextToken, SkipBlanks;
    var index := IndexOf(raw, marker);
    if index < 0 {
      return [], false, false;
    }
    index := index + |marker|;
    ghost var s := raw[index..];
    index := SkipBlanksFrom(raw, index);
    if index >= |raw| || raw[index] != COLON {
      return [], false, false;
    }
    index := index + 1;
    assert Expect(s, COLON) == Present(raw[index..]);
    s := raw[index..];
    index := SkipBlanksFrom(raw, index);
    if index >= |raw| || raw[index] != QUOTE {
      return [], false, false;
    }
    started := true;
    index := index + 1;
    assert Expect(s, QUOTE) == Present(raw[index..]);
    value, complete := DecodeFrom(raw, index);
  }

  method SkipBlanksFrom(raw: seq<byte>, start: nat) returns (index: nat)
    requires start <= |raw|
    ensures start <= index <= |raw| && SkipBlanks(raw[start..]) == raw[index..]
  {
    index := start;
    while index < |raw| && (raw[index] == 32 || raw[index] == 9 || raw[index] == 13 || raw[index] == 10)
      invariant start <= index <= |raw| && SkipBlanks(raw[start..]) == SkipBlanks(raw[index..])
    {
      assert raw[index..][1..] == raw[index + 1..];
      index := index + 1;
    }
  }

  /** The decoding loop from just behind the opening quote. */
  method DecodeFrom(raw: seq<byte>, start: nat) returns (value: seq<Scalar>, complete: bool)
    requires start <= |raw|
    ensures Decoded(value, complete) == DecodeText(raw[start..])
  {
    hide DecodeText, DecodeRune, UnicodeEscape, Written;
    value := [];
    var index := start;
    while index < |raw|
      invariant start <= index <= |raw|
      invariant var rest := DecodeText(raw[index..]);
                DecodeText(raw[start..]) == Decoded(value + rest.value, rest.complete)
    {
      ghost var s := raw[index..];
      DecodeStep(s);
      assert s[0] == raw[index];
      if raw[index] == QUOTE {
        assert value + [] == value;
        return value, true;
      }
      if raw[index] != BACKSLASH {
        var r := DecodeRune(raw[index..]);
        if r.Malformed? {
          break;
        }
        assert s[r.size..] == raw[index + r.size..];
        assert value + ([r.value] + DecodeText(s[r.size..]).value)
            == (value + [r.value]) + DecodeText(s[r.size..]).value;
        value, index := value + [r.value], index + r.size;
        continue;
      }
      if index + 1 >= |raw| {
        break;
      }
      var escape := raw[index + 1];
      assert s[1] == escape;
      var simple := SimpleEscape(escape);
      if simple >= 0 {
        assert s[2..] == raw[index + 2..];
        assert value + ([simple] + DecodeText(s[2..]).value) == (value + [simple]) + DecodeText(s[2..]).value;
        value, index := value + [simple], index + 2;
      } else if escape == 117 {
        var e := UnicodeEscape(raw[index..]);
        if e.NoEscape? {
          assert value + [] == value;
          return value, false;
        }
        var c := Written(e.value);
        assert s[e.size..] == raw[index + e.size..];
        assert value + ([c] + DecodeText(s[e.size..]).value) == (value + [c]) + DecodeText(s[e.size..]).value;
        value, index := value + [c], index + e.size;
      } else {
        assert value + [] == value;
        return value, false;
      }
    }
    DecodeStep(raw[index..]);
    assert value + [] == value;
    complete := false;
  }

  lemma DecodeStep(s: seq<byte>)
    ensures NextToken(s).Stop? ==> DecodeText(s) == Decoded([], false)
    ensures NextToken(s).Close? ==> DecodeText(s) == Decoded([], true)
    ensures NextToken(s).Char? ==>
              var rest := DecodeText(s[NextToken(s).size..]);
              DecodeText(s) == Decoded([NextToken(s).value] + rest.value, rest.complete)
  {
  }

  // ----- Round trip -----

  /** The characters that have a two-character escape, and the letters that name them (RFC 8259, section 7). */
  const NAMED := "\"\\/\U{08}\U{0C}\n\r\t"
  const NAMES := "\"\\/bfnrt"

  const DIGITS := "0123456789abcdef"
  const CAPITALS := "0123456789ABCDEF"

  predicate IsDigit(b: byte, value: nat) {
    value < 16 && (b == DIGITS[value] as int || b == CAPITALS[value] as int)
  }

  /** The six characters that write one UTF-16 unit: a backslash, u and four hexadecimal digits. */
  predicate WritesUnit(e: seq<byte>, unit: nat) {
    && |e| == 6 && e[..2] == Ascii("\\u")
    && IsDigit(e[2], unit / 4096) && IsDigit(e[3], unit / 256 % 16)
    && IsDigit(e[4], unit / 16 % 16) && IsDigit(e[5], unit % 16)
  }

  predicate WritesNamed(e: seq<byte>, c: Scalar) {
    |e| == 2 && e[0] == '\\' as int && exists k :: 0 <= k < 8 && e[1] == NAMES[k] as int && c == NAMED[k] as int
  }

  predicate WritesPair(e: seq<byte>, c: Scalar) {
    && |e| == 12 && c >= 0x1_0000
    && WritesUnit(e[..6], 0xD800 + (c - 0x1_0000) / 0x400) && WritesUnit(e[6..], 0xDC00 + (c - 0x1_0000) % 0x400)
  }

  /** The legal ways to write one character inside a JSON string (RFC 8259, section 7). */
  predicate Escapes(c: Scalar, e: seq<byte>) {
    || (c >= 0x20 && c != '"' as int && c != '\\' as int && e == EncodeRune(c))
    || WritesNamed(e, c) || WritesUnit(e, c) || WritesPair(e, c)
  }

  /** What the decoder accepts beside them: control characters as they are, and lone low surrogates. */
  ghost predicate Tolerates(c: Scalar, e: seq<byte>) {
    || (c < 0x20 && e == [c])
    || (c == 0xFFFD && LoneLow(e))
  }

  ghost predicate LoneLow(e: seq<byte>) {
    exists unit :: 0xDC00 <= unit < 0xE000 && WritesUnit(e, unit)
  }

  lemma DigitIsRead(b: byte, value: nat)
    ensures HexDigit(b) == value <==> IsDigit(b, value)
  {
  }

  lemma UnitIsRead(s: seq<byte>, unit: nat)
    ensures StartsUnicode(s) && Hex4(s[2..6]) == unit <==> |s| >= 6 && WritesUnit(s[..6], unit)
  {
    hide HexDigit, IsDigit;
    if |s| >= 6 {
      var e := s[..6];
      assert e[..2] == [s[0], s[1]] && Ascii("\\u") == [BACKSLASH, 117];
      assert s[2..6] == [e[2], e[3], e[4], e[5]];
      DigitIsRead(e[2], unit / 4096);
      DigitIsRead(e[3], unit / 256 % 16);
      DigitIsRead(e[4], unit / 16 % 16);
      DigitIsRead(e[5], unit % 16);
      DigitsOfUnit(HexDigit(e[2]), HexDigit(e[3]), HexDigit(e[4]), HexDigit(e[5]), unit);
    }
  }

  lemma DigitsOfUnit(a: int, b: int, c: int, d: int, unit: nat)
    requires a < 16 && b < 16 && c < 16 && d < 16
    ensures a >= 0 && b >= 0 && c >= 0 && d >= 0 && ((a * 16 + b) * 16 + c) * 16 + d == unit
            <==> a == unit / 4096 && b == unit / 256 % 16 && c == unit / 16 % 16 && d == unit % 16
  {
    var p, q, r := unit / 16, unit / 256, unit / 4096;
    assert unit == p * 16 + unit % 16 && p == q * 16 + p % 16 && q == r * 16 + q % 16;
  }

  lemma NamedIsRead(b: byte, c: Scalar)
    ensures SimpleEscape(b) == c <==> WritesNamed([BACKSLASH, b], c)
  {
    assert NAMES[0] == '"' && NAMES[1] == '\\' && NAMES[2] == '/' && NAMES[3] == 'b';
    assert NAMES[4] == 'f' && NAMES[5] == 'n' && NAMES[6] == 'r' && NAMES[7] == 't';
    forall k | 0 <= k < 8 ensures SimpleEscape(NAMES[k] as int) == NAMED[k] as int {
    }
  }

  lemma UnicodeIsForm(s: seq<byte>, value: nat, size: nat)
    ensures UnicodeEscape(s) == Escape(value, size)
            <==> || (size == 6 <= |s| && WritesUnit(s[..6], value) && !(0xD800 <= value < 0xDC00))
                 || (size == 12 <= |s| && 0x1_0000 <= value < 0x11_0000 && WritesPair(s[..12], value))
  {
    hide UnicodeEscape, WritesUnit, Hex4, StartsUnicode;
    UnicodeEscapeIsUtf16(s, value, size);
    UnitIsRead(s, value);
    if size == 12 <= |s| && 0x1_0000 <= value < 0x11_0000 {
      UnitIsRead(s, 0xD800 + (value - 0x1_0000) / 0x400);
      UnitIsRead(s[6..], 0xDC00 + (value - 0x1_0000) % 0x400);
      assert s[..12][..6] == s[..6] && s[6..][..6] == s[..12][6..] && s[6..][2..6] == s[8..12];
    }
    StartsMeans(s);
    if |s| >= 6 {
      StartsMeans(s[6..]);
    }
  }

  lemma StartsMeans(s: seq<byte>)
    ensures StartsUnicode(s) ==> |s| >= 6
  {
  }

  predicate IsNamed(s: seq<byte>, c: Scalar, n: nat) {
    n == 2 <= |s| && SimpleEscape(s[1]) == c
  }

  predicate IsUnicode(s: seq<byte>, c: Scalar, n: nat) {
    var e := UnicodeEscape(s);
    e.Escape? && e.size == n && Written(e.value) == c
  }

  lemma NamedForm(s: seq<byte>, c: Scalar, n: nat)
    requires s != [] && s[0] == BACKSLASH && n <= |s|
    ensures IsNamed(s, c, n) <==> WritesNamed(s[..n], c)
  {
    if n == 2 {
      NamedIsRead(s[1], c);
      assert s[..2] == [BACKSLASH, s[1]];
    }
  }

  lemma UnicodeForm(s: seq<byte>, c: Scalar, n: nat)
    requires n <= |s|
    ensures IsUnicode(s, c, n)
            <==> WritesUnit(s[..n], c) || WritesPair(s[..n], c) || (c == 0xFFFD && LoneLow(s[..n]))
  {
    hide UnicodeEscape, WritesUnit;
    if UnicodeEscape(s).Escape? {
      var Escape(value, size) := UnicodeEscape(s);
      UnicodeIsForm(s, value, size);
    }
    UnicodeIsForm(s, c, n);
    UnitSize(s[..n]);
    if LoneLow(s[..n]) {
      var unit :| 0xDC00 <= unit < 0xE000 && WritesUnit(s[..n], unit);
      UnicodeIsForm(s, unit, n);
    }
  }

  lemma UnitSize(e: seq<byte>)
    ensures forall unit :: WritesUnit(e, unit) ==> |e| == 6 && unit < 0x1_0000
  {
  }

  /** What the escape branch of the decoder does. */
  lemma NamedOrUnicode(s: seq<byte>, c: Scalar, n: nat)
    requires s != [] && s[0] == BACKSLASH
    ensures NextToken(s) == Char(c, n) <==> IsNamed(s, c, n) || IsUnicode(s, c, n)
  {
    hide UnicodeEscape;
    StartsWithU(s);
  }

  lemma StartsWithU(s: seq<byte>)
    ensures UnicodeEscape(s).Escape? ==> |s| >= 6 && s[1] == 117 && SimpleEscape(s[1]) < 0
  {
  }

  lemma EscapeIsForm(s: seq<byte>, c: Scalar, n: nat)
    requires s != [] && s[0] == BACKSLASH
    ensures NextToken(s) == Char(c, n)
            <==> n <= |s| && (|| WritesNamed(s[..n], c) || WritesUnit(s[..n], c) || WritesPair(s[..n], c)
                              || (c == 0xFFFD && LoneLow(s[..n])))
  {
    hide NextToken, UnicodeEscape, WritesUnit, SimpleEscape, WritesPair, WritesNamed, LoneLow, IsNamed, IsUnicode;
    if n <= |s| {
      NamedForm(s, c, n);
      UnicodeForm(s, c, n);
    }
    if NextToken(s) == Char(c, n) {
      TokenFits(s);
    }
    NamedOrUnicode(s, c, n);
  }

  /** The decoder reads exactly the characters so written: nothing else, and nothing in a second way. */
  lemma TokenIsForm(s: seq<byte>, c: Scalar, n: nat)
    ensures NextToken(s) == Char(c, n) <==> 1 <= n <= |s| && (Escapes(c, s[..n]) || Tolerates(c, s[..n]))
    ensures NextToken(s) == Close <==> s != [] && s[0] == '"' as int
  {
    hide NextToken, EncodeRune, WritesNamed, WritesUnit, WritesPair, LoneLow;
    ClosesAtQuote(s);
    EncodedFirst(c);
    if s == [] {
    } else if s[0] == BACKSLASH {
      EscapeIsForm(s, c, n);
    } else {
      PlainIsForm(s, c, n);
      if 1 <= n <= |s| {
        FormsStart(s[..n], c);
      }
    }
    if NextToken(s) == Char(c, n) {
      TokenFits(s);
    }
  }

  lemma ClosesAtQuote(s: seq<byte>)
    ensures NextToken(s) == Close <==> s != [] && s[0] == QUOTE
    ensures s == [] ==> NextToken(s) == Stop
  {
  }

  lemma FormsStart(e: seq<byte>, c: Scalar)
    ensures WritesNamed(e, c) || WritesUnit(e, c) || WritesPair(e, c) || LoneLow(e) ==> e != [] && e[0] == BACKSLASH
  {
    forall unit | WritesUnit(e, unit) ensures e[0] == BACKSLASH {
      assert e[0] == e[..2][0];
    }
    if WritesPair(e, c) {
      assert e[0] == e[..6][..2][0];
    }
  }

  lemma PlainIsForm(s: seq<byte>, c: Scalar, n: nat)
    requires s != [] && s[0] != BACKSLASH
    ensures NextToken(s) == Char(c, n) <==> s[0] != QUOTE && 1 <= n <= |s| && s[..n] == EncodeRune(c)
  {
    hide DecodeRune, EncodeRune;
    EncodeDecoded(s);
    if 1 <= n <= |s| && s[..n] == EncodeRune(c) {
      assert s == EncodeRune(c) + s[n..];
      DecodeEncoded(c, s[n..]);
    }
  }

  lemma EncodedFirst(c: Scalar)
    ensures EncodeRune(c)[0] == c || EncodeRune(c)[0] >= 0x80
    ensures c < 0x80 ==> EncodeRune(c) == [c]
  {
  }

  lemma EscapedCharDecodes(c: Scalar, e: seq<byte>, rest: seq<byte>)
    requires Escapes(c, e)
    ensures e != [] && NextToken(e + rest) == Char(c, |e|)
  {
    hide NextToken, EncodeRune;
    assert (e + rest)[..|e|] == e;
    TokenIsForm(e + rest, c, |e|);
  }

  lemma BlankMeans(b: byte)
    ensures IsBlank(b) <==> b in Ascii(" \t\r\n")
  {
    assert Ascii(" \t\r\n") == [32, 9, 13, 10];
  }

  /** After the text of the first |chars| characters the decoder has exactly those characters. */
  lemma {:induction false} EscapedTextDecodes(chars: seq<Scalar>, forms: seq<seq<byte>>, rest: seq<byte>)
    requires |chars| == |forms| && forall i :: 0 <= i < |chars| ==> Escapes(chars[i], forms[i])
    ensures var after := DecodeText(rest);
            DecodeText(Flatten(forms) + rest) == Decoded(chars + after.value, after.complete)
    decreases |chars|
  {
    hide NextToken, Escapes, DecodeText;
    if chars == [] {
      assert Flatten(forms) + rest == rest;
      assert chars + DecodeText(rest).value == DecodeText(rest).value;
    } else {
      var tail := Flatten(forms[1..]) + rest;
      assert Flatten(forms) + rest == forms[0] + tail;
      EscapedCharDecodes(chars[0], forms[0], tail);
      assert (forms[0] + tail)[|forms[0]|..] == tail;
      DecodeStep(forms[0] + tail);
      EscapedTextDecodes(chars[1..], forms[1..], rest);
      assert [chars[0]] + (chars[1..] + DecodeText(rest).value) == chars + DecodeText(rest).value;
    }
  }

  predicate AllBlank(s: seq<byte>) {
    forall k :: 0 <= k < |s| ==> IsBlank(s[k])
  }

  lemma ExpectFinds(blanks: seq<byte>, delimiter: byte, rest: seq<byte>)
    requires AllBlank(blanks) && !IsBlank(delimiter)
    ensures Expect(blanks + [delimiter] + rest, delimiter) == Present(rest)
  {
    assert blanks + [delimiter] + rest == blanks + ([delimiter] + rest);
    SkipFinds(blanks, [delimiter] + rest);
  }

  /** A document up to and including the opening quote of the field. */
  function Opening(front: seq<byte>, marker: seq<byte>, blanks1: seq<byte>, blanks2: seq<byte>): seq<byte> {
    front + marker + blanks1 + [COLON] + blanks2 + [QUOTE]
  }

  /** The value is found whenever the marker's first occurrence is the field's own key. */
  lemma ValueIsFound(front: seq<byte>, marker: seq<byte>, blanks1: seq<byte>, blanks2: seq<byte>, rest: seq<byte>)
    requires AllBlank(blanks1) && AllBlank(blanks2)
    requires IndexOf(Opening(front, marker, blanks1, blanks2) + rest, marker) == |front|
    ensures ValueText(Opening(front, marker, blanks1, blanks2) + rest, marker) == Present(rest)
  {
    hide IndexOf, Expect;
    var raw := Opening(front, marker, blanks1, blanks2) + rest;
    var tail := blanks2 + [QUOTE] + rest;
    assert raw[|front| + |marker|..] == blanks1 + [COLON] + tail;
    ExpectFinds(blanks1, COLON, tail);
    ExpectFinds(blanks2, QUOTE, rest);
  }

  /** A field name in quotes: what strconv.Quote makes of any name ends in a quote. */
  predicate IsMarker(marker: seq<byte>) {
    marker != [] && marker[|marker| - 1] == QUOTE
  }

  lemma FieldMarkers()
    ensures IsMarker(KIND_MARKER) && IsMarker(REPLY_MARKER)
    ensures KIND_MARKER == Ascii("\"kind\"") && REPLY_MARKER == Ascii("\"reply\"")
    ensures [QUOTE, COLON, BACKSLASH] == Ascii("\":\\")
  {
  }

  /** What is expected is found only after nothing but blanks. */
  lemma {:induction false} SkipLeaves(s: seq<byte>)
    ensures var n := |s| - |SkipBlanks(s)|;
            n >= 0 && SkipBlanks(s) == s[n..] && AllBlank(s[..n])
  {
    if s != [] && IsBlank(s[0]) {
      SkipLeaves(s[1..]);
      var n := |s[1..]| - |SkipBlanks(s[1..])|;
      assert s[1..][n..] == s[n + 1..];
      assert s[..n + 1] == [s[0]] + s[1..][..n];
    } else {
      assert s[0..] == s && s[..0] == [];
    }
  }

  lemma ExpectLeaves(s: seq<byte>, delimiter: byte)
    requires Expect(s, delimiter).Present?
    ensures var n := |s| - |Expect(s, delimiter).s| - 1;
            0 <= n < |s| && AllBlank(s[..n]) && s[n] == delimiter && Expect(s, delimiter).s == s[n + 1..]
  {
    SkipLeaves(s);
  }

  /** Where a value that is found starts: behind a marker, blanks, a colon, blanks and a quote. */
  ghost predicate StartsValue(raw: seq<byte>, start: int, colon: int, end: int) {
    && 0 < start <= colon < end - 1 < end <= |raw| && raw[start - 1] == QUOTE
    && AllBlank(raw[start..colon]) && raw[colon] == COLON && AllBlank(raw[colon + 1..end - 1]) && raw[end - 1] == QUOTE
  }

  /** Read backwards there is only one way: the end of the value's opening fixes its colon and the end of its marker. */
  lemma StartIsFixed(raw: seq<byte>, start: int, colon: int, start': int, colon': int, end: int)
    requires StartsValue(raw, start, colon, end) && StartsValue(raw, start', colon', end)
    ensures start == start' && colon == colon'
  {
    BlankInside(raw, colon + 1, end - 1, colon');
    BlankInside(raw, colon' + 1, end - 1, colon);
    BlankInside(raw, start, colon, start' - 1);
    BlankInside(raw, start', colon', start - 1);
  }

  lemma BlankInside(raw: seq<byte>, a: int, b: int, k: int)
    requires 0 <= a <= b <= |raw| && AllBlank(raw[a..b])
    ensures a <= k < b ==> IsBlank(raw[k])
  {
    if a <= k < b {
      assert raw[k] == raw[a..b][k - a];
    }
  }

  lemma FoundStarts(raw: seq<byte>, marker: seq<byte>) returns (colon: int)
    requires IsMarker(marker) && ValueText(raw, marker).Present?
    ensures IndexOf(raw, marker) >= 0
    ensures StartsValue(raw, IndexOf(raw, marker) + |marker|, colon, |raw| - |ValueText(raw, marker).s|)
  {
    hide Expect;
    var i := IndexOf(raw, marker);
    var start := i + |marker|;
    hide IndexOf;
    var first := raw[start..];
    ExpectLeaves(first, COLON);
    var second := Expect(first, COLON).s;
    ExpectLeaves(second, QUOTE);
    colon := |raw| - |second| - 1;
    assert first[..colon - start] == raw[start..colon];
    var end := |raw| - |Expect(second, QUOTE).s|;
    assert second == raw[colon + 1..];
    assert second[..end - colon - 2] == raw[colon + 1..end - 1];
    assert raw[start - 1] == raw[i..i + |marker|][|marker| - 1];
  }

  lemma OpeningStarts(front: seq<byte>, marker: seq<byte>, blanks1: seq<byte>, blanks2: seq<byte>, rest: seq<byte>)
    requires IsMarker(marker) && AllBlank(blanks1) && AllBlank(blanks2)
    ensures var start := |front| + |marker|;
            var colon := start + |blanks1|;
            StartsValue(Opening(front, marker, blanks1, blanks2) + rest, start, colon, colon + |blanks2| + 2)
  {
    var raw := Opening(front, marker, blanks1, blanks2) + rest;
    var start := |front| + |marker|;
    var colon := start + |blanks1|;
    assert raw[start..colon] == blanks1;
    assert raw[colon + 1..colon + 1 + |blanks2|] == blanks2;
  }

  /**
   * Exactly when the value behind a given key is the one that is read: when no earlier text holds the quoted name. An
   * earlier occurrence hides it, be it a value, a nested key or an earlier one.
   */
  lemma FoundExactlyWhenFirst(front: seq<byte>, marker: seq<byte>, blanks1: seq<byte>, blanks2: seq<byte>,
                              rest: seq<byte>)
    requires IsMarker(marker) && AllBlank(blanks1) && AllBlank(blanks2)
    ensures var raw := Opening(front, marker, blanks1, blanks2) + rest;
            ValueText(raw, marker) == Present(rest) <==> IndexOf(raw, marker) == |front|
  {
    hide IndexOf, ValueText, StartsValue, Opening, IsMarker;
    var raw := Opening(front, marker, blanks1, blanks2) + rest;
    if ValueText(raw, marker) == Present(rest) {
      OpeningSize(front, marker, blanks1, blanks2);
      OpeningStarts(front, marker, blanks1, blanks2, rest);
      var colon := FoundStarts(raw, marker);
      var start := |front| + |marker|;
      StartIsFixed(raw, IndexOf(raw, marker) + |marker|, colon, start, start + |blanks1|, |raw| - |rest|);
    } else if IndexOf(raw, marker) == |front| {
      ValueIsFound(front, marker, blanks1, blanks2, rest);
    }
  }

  lemma OpeningSize(front: seq<byte>, marker: seq<byte>, blanks1: seq<byte>, blanks2: seq<byte>)
    ensures |Opening(front, marker, blanks1, blanks2)| == |front| + |marker| + |blanks1| + |blanks2| + 2
  {
  }

  /**
   * For every string, every legal escaping of each of its characters and everything around it, the decoder returns the
   * string complete; cut after any number of characters it returns exactly those; cut anywhere, a prefix.
   */
  lemma StringRoundTrip(front: seq<byte>, marker: seq<byte>, blanks1: seq<byte>, blanks2: seq<byte>,
                        chars: seq<Scalar>, forms: seq<seq<byte>>, back: seq<byte>)
    requires AllBlank(blanks1) && AllBlank(blanks2)
    requires |chars| == |forms| && forall i :: 0 <= i < |chars| ==> Escapes(chars[i], forms[i])
    requires var raw := Opening(front, marker, blanks1, blanks2) + (Flatten(forms) + ([QUOTE] + back));
             IndexOf(raw, marker) == |front|
    ensures var raw := Opening(front, marker, blanks1, blanks2) + (Flatten(forms) + ([QUOTE] + back));
            && PartialField(raw, marker) == Partial(chars, true, true)
            && forall k :: 0 <= k <= |raw| ==> PartialField(raw[..k], marker).value <= chars
  {
    var text := Flatten(forms) + ([QUOTE] + back);
    var raw := Opening(front, marker, blanks1, blanks2) + text;
    hide IndexOf, Opening, ValueText, Escapes, DecodeText;
    ValueIsFound(front, marker, blanks1, blanks2, text);
    EscapedTextDecodes(chars, forms, [QUOTE] + back);
    DecodeStep([QUOTE] + back);
    assert chars + [] == chars;
    assert PartialField(raw, marker) == Partial(chars, true, true);
    forall k | 0 <= k <= |raw| ensures PartialField(raw[..k], marker).value <= chars {
      assert raw == raw[..k] + raw[k..];
      PrefixMonotone(raw[..k], raw[k..], marker);
    }
  }

  lemma CutBetweenCharacters(front: seq<byte>, marker: seq<byte>, blanks1: seq<byte>, blanks2: seq<byte>,
                             chars: seq<Scalar>, forms: seq<seq<byte>>)
    requires AllBlank(blanks1) && AllBlank(blanks2)
    requires |chars| == |forms| && forall i :: 0 <= i < |chars| ==> Escapes(chars[i], forms[i])
    requires IndexOf(Opening(front, marker, blanks1, blanks2) + Flatten(forms), marker) == |front|
    ensures PartialField(Opening(front, marker, blanks1, blanks2) + Flatten(forms), marker)
            == Partial(chars, true, false)
  {
    hide IndexOf, Opening, ValueText, Escapes, DecodeText;
    ValueIsFound(front, marker, blanks1, blanks2, Flatten(forms));
    EscapedTextDecodes(chars, forms, []);
    DecodeStep([]);
    assert chars + [] == chars && Flatten(forms) + [] == Flatten(forms);
  }

  /**
   * The first-occurrence condition is needed: when the marker first occurs as anything but a key, such as a value, the
   * field is never found, whatever follows.
   */
  lemma ShadowedMarkerIsNeverFound(front: seq<byte>, marker: seq<byte>, blanks: seq<byte>, next: byte, rest: seq<byte>)
    requires AllBlank(blanks) && !IsBlank(next) && next != COLON
    requires IndexOf(front + marker + (blanks + [next] + rest), marker) == |front|
    ensures PartialField(front + marker + (blanks + [next] + rest), marker) == Partial([], false, false)
  {
    hide IndexOf;
    var raw, tail := front + marker + (blanks + [next] + rest), blanks + [next] + rest;
    assert raw[|front| + |marker|..] == tail;
    assert tail == blanks + ([next] + rest);
    SkipFinds(blanks, [next] + rest);
  }

  // ----- Two documents in which the reply is hidden -----

  /** {"kind":"reply","reply":"y"} */
  const SHADOWED: seq<byte> :=
    [123] + KIND_MARKER + [58] + REPLY_MARKER + [44] + REPLY_MARKER + [58, 34, 121, 34, 125]

  lemma ReplyHiddenByValue()
    ensures PartialField(SHADOWED, REPLY_MARKER) == Partial([], false, false)
  {
    var front := [123] + KIND_MARKER + [58];
    var rest := REPLY_MARKER + [58, 34, 121, 34, 125];
    assert SHADOWED == front + REPLY_MARKER + ([] + [44] + rest);
    FirstAt(SHADOWED, REPLY_MARKER, |front|);
    hide IndexOf;
    ShadowedMarkerIsNeverFound(front, REPLY_MARKER, [], 44, rest);
  }

  /** {"a":{"reply":"x"},"reply":"y"} */
  const NESTED: seq<byte> :=
    [123, 34, 97, 34, 58, 123] + REPLY_MARKER + [58, 34, 120, 34, 125, 44] + REPLY_MARKER + [58, 34, 121, 34, 125]

  /** The nested x is read, not the reply y. */
  lemma ReplyHiddenByNestedKey()
    ensures PartialField(NESTED, REPLY_MARKER) == Partial([120], true, true)
  {
    var front := [123, 34, 97, 34, 58, 123];
    var rest := [120, 34, 125, 44] + REPLY_MARKER + [58, 34, 121, 34, 125];
    assert NESTED == Opening(front, REPLY_MARKER, [], []) + rest;
    FirstAt(NESTED, REPLY_MARKER, |front|);
    hide IndexOf, Opening;
    ValueIsFound(front, REPLY_MARKER, [], [], rest);
    hide ValueText, NextToken;
    DecodeStep(rest);
    DecodeStep(rest[1..]);
    Letters(rest);
  }

  lemma Letters(s: seq<byte>)
    requires |s| >= 2 && s[0] == 120 && s[1] == QUOTE
    ensures NextToken(s) == Char(120, 1) && NextToken(s[1..]) == Close
  {
  }

  /** The marker starts at k, and before that no quote is followed by its first letter. */
  lemma FirstAt(raw: seq<byte>, marker: seq<byte>, k: nat)
    requires |marker| >= 2 && k + |marker| <= |raw| && raw[k..k + |marker|] == marker
    requires forall i :: 0 <= i < k ==> raw[i] != marker[0] || raw[i + 1] != marker[1]
    ensures IndexOf(raw, marker) == k
  {
    assert OccursAt(raw, marker, k);
    forall i | 0 <= i < k ensures !OccursAt(raw, marker, i) {
      OccursMeans(raw, marker, i);
    }
  }

  lemma OccursMeans(raw: seq<byte>, marker: seq<byte>, i: nat)
    requires |marker| >= 2
    ensures OccursAt(raw, marker, i) ==> raw[i] == marker[0] && raw[i + 1] == marker[1]
  {
    if OccursAt(raw, marker, i) {
      assert raw[i..i + |marker|][0] == raw[i] && raw[i..i + |marker|][1] == raw[i + 1];
    }
  }
}
