/**
 * What the Ogg checksum is, on bytes and without a register: the remainder of the message, times x^32, in the
 * division by the generator of section 6 of RFC 3533.
 */
module OggRemainder {
  import opened Arithmetic
  import opened Bytes
  import opened OggCrc

  // ----- Bits of bytes and of registers -----

  /** The k low binary digits of a number, the highest first. */
  function Digits(n: nat, k: nat): (r: seq<bool>)
    ensures |r| == k
  {
    if k == 0 then [] else Digits(n / 2, k - 1) + [n % 2 == 1]
  }

  function Pow2(k: nat): (p: nat)
    ensures p > 0
  {
    if k == 0 then 1 else 2 * Pow2(k - 1)
  }

  lemma {:induction false} DigitAt(n: nat, k: nat, j: nat)
    requires j < k
    ensures Digits(n, k)[j] == (n / Pow2(k - 1 - j) % 2 == 1)
    decreases k
  {
    if j == k - 1 {
    } else {
      DigitAt(n / 2, k - 1, j);
      HalfQuotient(n, Pow2(k - 2 - j));
    }
  }

  lemma HalfQuotient(n: nat, d: nat)
    requires d > 0
    ensures n / (2 * d) == n / 2 / d
  {
    var q, r := n / 2 / d, n / 2 % d;
    assert n / 2 == q * d + r;
    assert q * (2 * d) == 2 * (q * d);
    QuotientIsUnique(n, 2 * d, q, 2 * r + n % 2);
  }

  function ByteBits(b: byte): (r: seq<bool>)
    ensures |r| == 8
  {
    Digits(b, 8)
  }

  function MessageBits(data: seq<byte>): (r: seq<bool>)
    ensures |r| == 8 * |data|
  {
    if data == [] then [] else ByteBits(data[0]) + MessageBits(data[1..])
  }

  lemma OctetBits(b: byte)
    ensures BitsOfOctet(OctetOf(b)) == ByteBits(b)
  {
    hide BitsOfOctet, Digits, LowDigits;
    LowDigitsAre(b, 8);
    assert BitsOfOctet(OctetOf(b))[0..] == BitsOfOctet(OctetOf(b));
  }

  lemma {:induction false} LowDigitsAre(n: nat, k: nat)
    requires k <= 8
    ensures BitsOfOctet(LowDigits(n, k))[8 - k..] == Digits(n, k)
  {
    hide BitsOfOctet;
    if k == 0 {
    } else {
      LowDigitsAre(n / 2, k - 1);
      var x := LowDigits(n / 2, k - 1);
      ShiftedIn(x, n % 2 == 1);
      var old' := BitsOfOctet(x);
      assert (old'[1..] + [n % 2 == 1])[8 - k..] == old'[8 - (k - 1)..] + [n % 2 == 1];
    }
  }

  lemma ShiftedIn(x: bv8, bit: bool)
    ensures BitsOfOctet((x << 1) | (if bit then 1 else 0)) == BitsOfOctet(x)[1..] + [bit]
  {
  }

  lemma {:induction false} OctetsAreBits(data: seq<byte>)
    ensures BitsOf(Octets(data)) == MessageBits(data)
    decreases |data|
  {
    hide BitsOfOctet, ByteBits, OctetOf;
    if data == [] {
    } else {
      OctetBits(data[0]);
      OctetsAreBits(data[1..]);
      assert Octets(data)[1..] == Octets(data[1..]);
    }
  }

  /** The n highest bits of a register. */
  function Top(c: bv32, n: nat): (r: seq<bool>)
    ensures |r| == n
    decreases n
  {
    if n == 0 then [] else [HighBit(c)] + Top(Double(c), n - 1)
  }

  function WordBits(c: bv32): (r: seq<bool>)
    ensures |r| == 32
  {
    Top(c, 32)
  }

  function Doubles(c: bv32, i: nat): bv32
    decreases i
  {
    if i == 0 then c else Doubles(Double(c), i - 1)
  }

  lemma {:induction false} TopAt(c: bv32, n: nat, i: nat)
    requires i < n
    ensures Top(c, n)[i] == HighBit(Doubles(c, i))
    decreases i
  {
    hide Double, HighBit;
    if i == 0 {
    } else {
      TopAt(Double(c), n - 1, i - 1);
    }
  }

  lemma {:induction false} DoublesPlus(a: bv32, b: bv32, i: nat)
    ensures Doubles(Plus(a, b), i) == Plus(Doubles(a, i), Doubles(b, i))
    decreases i
  {
    hide Double, Plus;
    if i == 0 {
    } else {
      DoubleLinear(a, b);
      DoublesPlus(Double(a), Double(b), i - 1);
    }
  }

  lemma {:induction false} DoublesTwice(c: bv32, i: nat, j: nat)
    ensures Doubles(Doubles(c, i), j) == Doubles(c, i + j)
    decreases i
  {
    hide Double;
    if i == 0 {
    } else {
      DoublesTwice(Double(c), i - 1, j);
    }
  }

  lemma EightDoubles(c: bv32)
    ensures Doubles(c, 8) == c << 8
  {
    var a := Double(Double(c));
    var b := Double(Double(a));
    var d := Double(Double(b));
    assert Doubles(c, 8) == Doubles(Double(c), 7) == Doubles(a, 6);
    assert Doubles(a, 6) == Doubles(Double(a), 5) == Doubles(b, 4);
    assert Doubles(b, 4) == Doubles(Double(b), 3) == Doubles(d, 2);
    assert Doubles(d, 2) == Doubles(Double(d), 1) == Double(Double(d));
  }

  /** A register runs empty. */
  lemma RunsEmpty(c: bv32)
    ensures Doubles(c, 32) == 0
  {
    hide Doubles;
    EightDoubles(c);
    EightMore(c, 8);
    EightMore(c, 16);
    EightMore(c, 24);
    assert c << 8 << 8 << 8 << 8 == 0;
  }

  lemma EightMore(c: bv32, i: nat)
    ensures Doubles(c, i + 8) == Doubles(c, i) << 8
  {
    hide Doubles;
    var d := Doubles(c, i);
    EightDoubles(d);
    DoublesTwice(c, i, 8);
    assert Doubles(d, 8) == Doubles(c, i + 8);
  }

  lemma BitOfPlus(a: bv32, b: bv32, i: nat)
    requires i < 32
    ensures WordBits(Plus(a, b))[i] == (WordBits(a)[i] != WordBits(b)[i])
  {
    hide Plus, Double, HighBit, Doubles;
    TopAt(Plus(a, b), 32, i);
    TopAt(a, 32, i);
    TopAt(b, 32, i);
    DoublesPlus(a, b, i);
    HighBitLinear(Doubles(a, i), Doubles(b, i));
  }

  lemma BitOfDouble(c: bv32, i: nat)
    requires i < 32
    ensures WordBits(Double(c))[i] == (i < 31 && WordBits(c)[i + 1])
  {
    hide Double, HighBit;
    TopAt(Double(c), 32, i);
    if i < 31 {
      TopAt(c, 32, i + 1);
    } else {
      RunsEmpty(c);
      ZeroShifts();
    }
  }

  lemma BitOfZero(i: nat)
    requires i < 32
    ensures !WordBits(0)[i]
  {
    hide Double, HighBit;
    TopAt(0, 32, i);
    ZeroDoubles(i);
    ZeroShifts();
  }

  lemma {:induction false} ZeroDoubles(i: nat)
    ensures Doubles(0, i) == 0
  {
    hide Double;
    ZeroShifts();
    if i > 0 {
      ZeroDoubles(i - 1);
    }
  }

  lemma BitOfPlace(bit: bool, i: nat)
    requires i < 32
    ensures WordBits(Place(bit, 0))[i] == (i == 0 && bit)
  {
    hide Double, HighBit;
    TopAt(Place(bit, 0), 32, i);
    PlaceZero(bit);
    PlaceRunsOut(bit);
    if i > 0 {
      ZeroDoubles(i - 1);
      ZeroShifts();
    }
  }

  lemma PlaceRunsOut(bit: bool)
    ensures Double(Place(bit, 0)) == 0
  {
  }

  // ----- Long division -----

  /** x^32 + x^26 + x^23 + x^22 + x^16 + x^12 + x^11 + x^10 + x^8 + x^7 + x^5 + x^4 + x^2 + x + 1 */
  predicate HasTerm(e: int) {
    || e == 32 || e == 26 || e == 23 || e == 22 || e == 16 || e == 12 || e == 11 || e == 10 || e == 8 || e == 7
       || e == 5
    || e == 4 || e == 2 || e == 1 || e == 0
  }

  /** One step of long division: drops the leading coefficient, having subtracted the generator when it is one. */
  function Reduce(p: seq<bool>): (r: seq<bool>)
    requires |p| > 32
    ensures |r| == |p| - 1
  {
    seq(|p| - 1, i requires 0 <= i < |p| - 1 => p[i + 1] != (p[0] && i < 32 && HasTerm(31 - i)))
  }

  function Remainder(p: seq<bool>): (r: seq<bool>)
    requires |p| >= 32
    ensures |r| == 32
    decreases |p|
  {
    if |p| == 32 then p else Remainder(Reduce(p))
  }

  function Zeros(n: nat): (r: seq<bool>)
    ensures |r| == n
  {
    seq(n, _ => false)
  }

  lemma EightOfTop(c: bv32, n: nat)
    ensures Top(c, 8 + n) == BitsOfOctet(((c >> 24) & 255) as bv8) + Top(c << 8, n)
  {
    hide HighBit, Double, Top, BitsOfOctet;
    var c4 := Double(Double(Double(Double(c))));
    FourOfTop(c, 8 + n);
    FourOfTop(c4, 4 + n);
    HighOctet(c);
  }

  lemma FourOfTop(c: bv32, m: nat)
    requires m >= 4
    ensures Top(c, m)
            == [HighBit(c), HighBit(Double(c)), HighBit(Double(Double(c))), HighBit(Double(Double(Double(c))))]
                         + Top(Double(Double(Double(Double(c)))), m - 4)
  {
    hide HighBit, Double, Top;
    TopStep(c, m);
    TopStep(Double(c), m - 1);
    TopStep(Double(Double(c)), m - 2);
    TopStep(Double(Double(Double(c))), m - 3);
  }

  lemma TopStep(c: bv32, m: nat)
    requires m > 0
    ensures Top(c, m) == [HighBit(c)] + Top(Double(c), m - 1)
  {
  }

  lemma HighOctet(c: bv32)
    ensures var c1 := Double(c); var c2 := Double(c1); var c3 := Double(c2); var c4 := Double(c3);
            var c5 := Double(c4); var c6 := Double(c5); var c7 := Double(c6);
            && Double(c7) == c << 8
            && BitsOfOctet(((c >> 24) & 255) as bv8)
               == [HighBit(c), HighBit(c1), HighBit(c2), HighBit(c3), HighBit(c4), HighBit(c5), HighBit(c6),
                   HighBit(c7)]
  {
  }

  /** The constant of the source is the generator without its leading term. */
  lemma PolynomialBits(i: nat)
    requires i < 32
    ensures WordBits(0x04c1_1db7)[i] == HasTerm(31 - i)
  {
    hide Top, BitsOfOctet;
    PolynomialWord();
    PolynomialOctets();
    var a, b, c, d := BitsOfOctet(0x04), BitsOfOctet(0xc1), BitsOfOctet(0x1d), BitsOfOctet(0xb7);
    if i < 8 {
      assert WordBits(0x04c1_1db7)[i] == a[i];
    } else if i < 16 {
      assert WordBits(0x04c1_1db7)[i] == b[i - 8];
    } else if i < 24 {
      assert WordBits(0x04c1_1db7)[i] == c[i - 16];
    } else {
      assert WordBits(0x04c1_1db7)[i] == d[i - 24];
    }
  }

  lemma PolynomialWord()
    ensures WordBits(0x04c1_1db7) == BitsOfOctet(0x04) + BitsOfOctet(0xc1) + BitsOfOctet(0x1d) + BitsOfOctet(0xb7)
  {
    hide Top, BitsOfOctet;
    EightOfTop(0x04c1_1db7, 24);
    EightOfTop(0xc11d_b700, 16);
    EightOfTop(0x1db7_0000, 8);
    EightOfTop(0xb700_0000, 0);
    TopNone(0);
  }

  lemma TopNone(c: bv32)
    ensures Top(c, 0) == []
  {
  }

  lemma PolynomialOctets()
    ensures BitsOfOctet(0x04) == [false, false, false, false, false, true, false, false]
    ensures BitsOfOctet(0xc1) == [true, true, false, false, false, false, false, true]
    ensures BitsOfOctet(0x1d) == [false, false, false, true, true, true, false, true]
    ensures BitsOfOctet(0xb7) == [true, false, true, true, false, true, true, true]
  {
  }

  /** The dividend while the register c stands for what has been read and `bits` is still to come. */
  function Pending(c: bv32, bits: seq<bool>): (p: seq<bool>)
    ensures |p| == |bits| + 32
  {
    seq(|bits| + 32, i requires 0 <= i < |bits| + 32 => (i < 32 && WordBits(c)[i]) != (i < |bits| && bits[i]))
  }

  lemma BitOfShift(c: bv32, i: nat)
    requires i < 32
    ensures WordBits(Shift(c))[i] == ((i < 31 && WordBits(c)[i + 1]) != (WordBits(c)[0] && HasTerm(31 - i)))
  {
    hide Double, HighBit, Plus, Top, HasTerm;
    BitOfDouble(c, i);
    BitOfPlus(Double(c), 0x04c1_1db7, i);
    PolynomialBits(i);
    TopStep(c, 32);
  }

  /** One turn of the register is one step of the division. */
  lemma DivideStep(c: bv32, bits: seq<bool>)
    requires bits != []
    ensures Reduce(Pending(c, bits)) == Pending(Shift(Plus(c, Place(bits[0], 0))), bits[1..])
  {
    hide WordBits, Shift, Plus, Place, HasTerm;
    var d := Plus(c, Place(bits[0], 0));
    var old', new' := Reduce(Pending(c, bits)), Pending(Shift(d), bits[1..]);
    forall i: nat | i < 32 ensures WordBits(d)[i] == (WordBits(c)[i] != (i == 0 && bits[0])) {
      BitOfPlus(c, Place(bits[0], 0), i);
      BitOfPlace(bits[0], i);
    }
    forall i: nat | i < |old'| ensures old'[i] == new'[i] {
      if i < 32 {
        BitOfShift(d, i);
      }
    }
  }

  lemma {:induction false} DivisionIsRegister(c: bv32, bits: seq<bool>)
    ensures Remainder(Pending(c, bits)) == WordBits(CrcBits(c, bits))
    decreases |bits|
  {
    hide WordBits, Shift, Plus, Place, Reduce;
    if bits == [] {
      assert Pending(c, bits) == WordBits(c);
    } else {
      DivideStep(c, bits);
      DivisionIsRegister(Shift(Plus(c, Place(bits[0], 0))), bits[1..]);
    }
  }

  /** The checksum of a message is the remainder of its bits, followed by 32 zeros, divided by the generator. */
  lemma CrcIsRemainder(data: seq<byte>)
    ensures WordBits(Crc(data)) == Remainder(MessageBits(data) + Zeros(32))
  {
    hide WordBits, Remainder, CrcFrom, CrcBits, BitsOf, MessageBits;
    var bits := MessageBits(data);
    BytesAreBits(0, Octets(data));
    OctetsAreBits(data);
    DivisionIsRegister(0, bits);
    forall i: nat | i < |bits| + 32 ensures Pending(0, bits)[i] == (bits + Zeros(32))[i] {
      if i < 32 {
        BitOfZero(i);
      }
    }
    assert Pending(0, bits) == bits + Zeros(32);
  }

  // ----- The checksum as a number -----

  function Unit(bit: bool): nat {
    if bit then 1 else 0
  }

  function Horner(bits: seq<bool>): (n: nat)
    ensures n < Pow2(|bits|)
  {
    if bits == [] then 0 else 2 * Horner(bits[..|bits| - 1]) + Unit(bits[|bits| - 1])
  }

  function ByteOf(bits: seq<bool>): byte
    requires |bits| == 8
  {
    EightBits();
    Horner(bits)
  }

  lemma EightBits()
    ensures Pow2(8) == 256
  {
    assert Pow2(4) == 16 && Pow2(8) == 16 * Pow2(4) by {
      assert Pow2(6) == 4 * Pow2(4);
    }
  }

  lemma {:induction false} DigitsOfHorner(bits: seq<bool>)
    ensures Digits(Horner(bits), |bits|) == bits
    decreases |bits|
  {
    if bits == [] {
    } else {
      DigitsOfHorner(bits[..|bits| - 1]);
      assert bits == bits[..|bits| - 1] + [bits[|bits| - 1]];
    }
  }

  lemma {:induction false} HornerOfDigits(n: nat, k: nat)
    requires n < Pow2(k)
    ensures Horner(Digits(n, k)) == n
    decreases k
  {
    if k == 0 {
    } else {
      HornerOfDigits(n / 2, k - 1);
      assert Digits(n, k)[..k - 1] == Digits(n / 2, k - 1);
    }
  }

  lemma ByteRoundTrip(bits: seq<bool>)
    requires |bits| == 8
    ensures ByteBits(ByteOf(bits)) == bits
  {
    hide Digits, Horner;
    DigitsOfHorner(bits);
  }

  lemma BitsRoundTrip(b: byte)
    ensures ByteOf(ByteBits(b)) == b
  {
    hide Digits, Horner;
    EightBits();
    HornerOfDigits(b, 8);
  }

  /** The four bytes of a register, the highest first. */
  function WordBytes(c: bv32): (r: seq<byte>)
    ensures |r| == 4
  {
    var bits := WordBits(c);
    [ByteOf(bits[0..8]), ByteOf(bits[8..16]), ByteOf(bits[16..24]), ByteOf(bits[24..32])]
  }

  /** The register read as a binary number. */
  function Number(c: bv32): (n: nat)
    ensures n < 0x1_0000_0000
  {
    ThirtyTwoBits();
    Horner(WordBits(c))
  }

  lemma ThirtyTwoBits()
    ensures Pow2(32) == 0x1_0000_0000
  {
    EightBits();
    Pow2Adds(8, 8);
    Pow2Adds(16, 16);
  }

  lemma {:induction false} Pow2Adds(a: nat, b: nat)
    ensures Pow2(a + b) == Pow2(a) * Pow2(b)
  {
    if b == 0 {
    } else {
      Pow2Adds(a, b - 1);
      assert 2 * (Pow2(a) * Pow2(b - 1)) == Pow2(a) * (2 * Pow2(b - 1));
    }
  }

  lemma {:induction false} HornerAppend(a: seq<bool>, b: seq<bool>)
    ensures Horner(a + b) == Horner(a) * Pow2(|b|) + Horner(b)
    decreases |b|
  {
    if b == [] {
      assert a + b == a;
    } else {
      var n := |b| - 1;
      hide Unit, Horner, Pow2;
      HornerStep(a + b);
      HornerStep(b);
      assert (a + b)[..|a| + n] == a + b[..n];
      HornerAppend(a, b[..n]);
      PowStep(n);
      TwiceTimes(Horner(a), Pow2(n));
    }
  }

  lemma PowStep(n: nat)
    ensures Pow2(n + 1) == 2 * Pow2(n)
  {
  }

  lemma HornerStep(bits: seq<bool>)
    requires bits != []
    ensures Horner(bits) == 2 * Horner(bits[..|bits| - 1]) + Unit(bits[|bits| - 1])
  {
  }

  lemma TwiceTimes(x: int, y: int)
    ensures 2 * (x * y) == x * (2 * y)
  {
  }

  /** It is the number whose base 256 digits are the register's bytes. */
  lemma NumberOfBytes(c: bv32)
    ensures var b := WordBytes(c);
            Number(c) == ((b[0] as int * 256 + b[1] as int) * 256 + b[2] as int) * 256 + b[3] as int
  {
    hide Horner, WordBits, Pow2;
    var w := WordBits(c);
    EightBits();
    HornerAppend(w[0..8], w[8..16]);
    HornerAppend(w[0..16], w[16..24]);
    HornerAppend(w[0..24], w[24..32]);
    assert w[0..8] + w[8..16] == w[0..16] && w[0..16] + w[16..24] == w[0..24] && w[0..24] + w[24..32] == w;
  }

  lemma {:induction false} MessageBitsAppend(a: seq<byte>, b: seq<byte>)
    ensures MessageBits(a + b) == MessageBits(a) + MessageBits(b)
    decreases |a|
  {
    hide ByteBits;
    if a == [] {
      assert a + b == b;
    } else {
      assert (a + b)[1..] == a[1..] + b;
      MessageBitsAppend(a[1..], b);
    }
  }

  lemma WordBytesBits(c: bv32)
    ensures MessageBits(WordBytes(c)) == WordBits(c)
  {
    hide ByteBits, ByteOf, WordBits;
    var bits, b := WordBits(c), WordBytes(c);
    ByteRoundTrip(bits[0..8]);
    ByteRoundTrip(bits[8..16]);
    ByteRoundTrip(bits[16..24]);
    ByteRoundTrip(bits[24..32]);
    assert MessageBits(b[3..]) == ByteBits(b[3]) + MessageBits([]);
    assert b[2..][1..] == b[3..] && b[1..][1..] == b[2..];
    assert MessageBits(b[2..]) == ByteBits(b[2]) + MessageBits(b[3..]);
    assert MessageBits(b[1..]) == ByteBits(b[1]) + MessageBits(b[2..]);
  }

  lemma {:induction false} OwnBitsCancel(c: bv32, n: nat)
    ensures CrcBits(c, Top(c, n)) == Doubles(c, n)
    decreases n
  {
    if n == 0 {
    } else {
      TopStep(c, n);
      assert Top(c, n)[1..] == Top(Double(c), n - 1);
      LeadCancels(c);
      hide Shift, Plus, Place, Double, HighBit;
      OwnBitsCancel(Double(c), n - 1);
    }
  }

  lemma LeadCancels(c: bv32)
    ensures Shift(Plus(c, Place(HighBit(c), 0))) == Double(c)
  {
    hide Plus, HighBit, Double;
    LeadPlace(c);
    LeadCleared(c);
    PlusZero(c);
  }

  lemma LeadPlace(c: bv32)
    ensures Place(HighBit(c), 0) == if HighBit(c) then 0x8000_0000 else 0
  {
  }

  lemma LeadCleared(c: bv32)
    ensures HighBit(c) ==> !HighBit(Plus(c, 0x8000_0000)) && Double(Plus(c, 0x8000_0000)) == Double(c)
  {
  }

  /** A message followed by its own checksum, high byte first, has checksum zero. */
  lemma CrcOfCheckedIsZero(data: seq<byte>)
    ensures Crc(data + WordBytes(Crc(data))) == 0
  {
    hide WordBits, WordBytes, CrcFrom, CrcBits, BitsOf, MessageBits, Top;
    var c := Crc(data);
    var all := data + WordBytes(c);
    BytesAreBits(0, Octets(all));
    OctetsAreBits(all);
    BytesAreBits(0, Octets(data));
    OctetsAreBits(data);
    MessageBitsAppend(data, WordBytes(c));
    WordBytesBits(c);
    CrcBitsAppend(0, MessageBits(data), WordBits(c));
    WordIsTop(c);
    OwnBitsCancel(c, 32);
    RunsEmpty(c);
  }

  lemma WordIsTop(c: bv32)
    ensures WordBits(c) == Top(c, 32)
  {
  }

  // ----- The laws on bytes -----

  function XorBits(a: seq<bool>, b: seq<bool>): (r: seq<bool>)
    requires |a| == |b|
    ensures |r| == |a|
  {
    seq(|a|, i requires 0 <= i < |a| => a[i] != b[i])
  }

  /** Exclusive or, digit by digit. */
  function XorByte(x: byte, y: byte): byte {
    ByteOf(XorBits(ByteBits(x), ByteBits(y)))
  }

  function XorBytes(a: seq<byte>, b: seq<byte>): (r: seq<byte>)
    requires |a| == |b|
    ensures |r| == |a|
  {
    seq(|a|, i requires 0 <= i < |a| => XorByte(a[i], b[i]))
  }

  lemma OctetOfXor(x: byte, y: byte)
    ensures OctetOf(XorByte(x, y)) == OctetOf(x) ^ OctetOf(y)
  {
    hide OctetOf, ByteBits, ByteOf, BitsOfOctet, XorBits;
    ByteRoundTrip(XorBits(ByteBits(x), ByteBits(y)));
    OctetBits(x);
    OctetBits(y);
    OctetBits(XorByte(x, y));
    BitsOfXor(OctetOf(x), OctetOf(y));
    OctetBitsInjective(OctetOf(XorByte(x, y)), OctetOf(x) ^ OctetOf(y));
  }

  lemma BitsOfXor(x: bv8, y: bv8)
    ensures BitsOfOctet(x ^ y) == XorBits(BitsOfOctet(x), BitsOfOctet(y))
  {
    hide BitsOfOctet, Bit;
    forall i | 0 <= i < 8 ensures BitsOfOctet(x ^ y)[i] == (BitsOfOctet(x)[i] != BitsOfOctet(y)[i]) {
      BitIs(x, i);
      BitIs(y, i);
      BitIs(x ^ y, i);
      BitOfXor(x, y, i);
    }
  }

  function Bit(x: bv8, i: int): bool {
    x & (if i == 0 then 128 else if i == 1 then 64 else if i == 2 then 32 else if i == 3 then 16
         else if i == 4 then 8 else if i == 5 then 4 else if i == 6 then 2 else 1) != 0
  }

  lemma BitIs(x: bv8, i: int)
    requires 0 <= i < 8
    ensures BitsOfOctet(x)[i] == Bit(x, i)
  {
  }

  lemma BitOfXor(x: bv8, y: bv8, i: int)
    ensures Bit(x ^ y, i) == (Bit(x, i) != Bit(y, i))
  {
    var m: bv8 := if i == 0 then 128 else if i == 1 then 64 else if i == 2 then 32 else if i == 3 then 16
                  else if i == 4 then 8 else if i == 5 then 4 else if i == 6 then 2 else 1;
    MaskOfXor(x, y, m);
  }

  lemma MaskOfXor(x: bv8, y: bv8, m: bv8)
    requires m == 128 || m == 64 || m == 32 || m == 16 || m == 8 || m == 4 || m == 2 || m == 1
    ensures ((x ^ y) & m != 0) == ((x & m != 0) != (y & m != 0))
  {
  }

  /** For equally long messages the checksum of the bytewise exclusive or is the exclusive or of the checksums. */
  lemma CrcOfXor(a: seq<byte>, b: seq<byte>)
    requires |a| == |b|
    ensures Crc(XorBytes(a, b)) == Crc(a) ^ Crc(b)
  {
    hide OctetOf, XorByte, CrcFrom;
    forall i | 0 <= i < |a| ensures Octets(XorBytes(a, b))[i] == Xor(Octets(a), Octets(b))[i] {
      OctetOfXor(a[i], b[i]);
    }
    assert Octets(XorBytes(a, b)) == Xor(Octets(a), Octets(b));
    CrcLinear(0, 0, Octets(a), Octets(b));
    PlusZero(0);
  }

  lemma {:induction false} MessageBitsInjective(a: seq<byte>, b: seq<byte>)
    requires |a| == |b| && MessageBits(a) == MessageBits(b)
    ensures a == b
    decreases |a|
  {
    hide ByteBits, ByteOf;
    if a == [] {
    } else {
      assert MessageBits(a)[..8] == ByteBits(a[0]) && MessageBits(b)[..8] == ByteBits(b[0]);
      assert MessageBits(a)[8..] == MessageBits(a[1..]) && MessageBits(b)[8..] == MessageBits(b[1..]);
      BitsRoundTrip(a[0]);
      BitsRoundTrip(b[0]);
      MessageBitsInjective(a[1..], b[1..]);
      assert a == [a[0]] + a[1..] && b == [b[0]] + b[1..];
    }
  }

  /** The messages differ, and only within 32 consecutive bits, lo up to hi. */
  ghost predicate DifferInBurst(a: seq<byte>, b: seq<byte>, lo: nat, hi: nat) {
    && a != b && |a| == |b| && lo <= hi <= 8 * |a| && hi - lo <= 32
    && MessageBits(a)[..lo] == MessageBits(b)[..lo] && MessageBits(a)[hi..] == MessageBits(b)[hi..]
  }

  /** Such damage always changes the checksum. */
  lemma BurstChangesCrc(a: seq<byte>, b: seq<byte>, lo: nat, hi: nat)
    requires DifferInBurst(a, b, lo, hi)
    ensures Crc(a) != Crc(b)
  {
    hide MessageBits, BitsOf, CrcFrom;
    OctetsAreBits(a);
    OctetsAreBits(b);
    if Octets(a) == Octets(b) {
      MessageBitsInjective(a, b);
    }
    BurstDetected(Octets(a), Octets(b), lo, hi);
  }

  /** Different registers are different numbers. */
  lemma NumberInjective(c: bv32, d: bv32)
    requires Number(c) == Number(d)
    ensures c == d
  {
    hide WordBits, Horner, Digits;
    DigitsOfHorner(WordBits(c));
    DigitsOfHorner(WordBits(d));
    SameWord(c, d);
  }

  predicate SameHigh(c: bv32, d: bv32) {
    ((c >> 24) & 255) as bv8 == ((d >> 24) & 255) as bv8
  }

  function Next8(c: bv32): bv32 {
    c << 8
  }

  lemma SameWord(c: bv32, d: bv32)
    requires WordBits(c) == WordBits(d)
    ensures c == d
  {
    hide Top, SameHigh, Next8;
    var c1, d1 := Next8(c), Next8(d);
    var c2, d2 := Next8(c1), Next8(d1);
    SameOctet(c, d, 24);
    SameOctet(c1, d1, 16);
    SameOctet(c2, d2, 8);
    SameOctet(Next8(c2), Next8(d2), 0);
    FourOctets(c, d);
  }

  lemma SameOctet(c: bv32, d: bv32, n: nat)
    requires Top(c, 8 + n) == Top(d, 8 + n)
    ensures SameHigh(c, d) && Top(Next8(c), n) == Top(Next8(d), n)
  {
    hide Top, BitsOfOctet;
    EightOfTop(c, n);
    EightOfTop(d, n);
    var a, b := BitsOfOctet(((c >> 24) & 255) as bv8), BitsOfOctet(((d >> 24) & 255) as bv8);
    assert a == (a + Top(c << 8, n))[..8] && b == (b + Top(d << 8, n))[..8];
    assert Top(c << 8, n) == (a + Top(c << 8, n))[8..] && Top(d << 8, n) == (b + Top(d << 8, n))[8..];
    OctetBitsInjective(((c >> 24) & 255) as bv8, ((d >> 24) & 255) as bv8);
  }

  lemma FourOctets(c: bv32, d: bv32)
    requires SameHigh(c, d) && SameHigh(Next8(c), Next8(d)) && SameHigh(Next8(Next8(c)), Next8(Next8(d)))
    requires SameHigh(Next8(Next8(Next8(c))), Next8(Next8(Next8(d))))
    ensures c == d
  {
  }
}
