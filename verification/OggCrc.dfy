/**
 * The Ogg page checksum of internal/dashscopeapi/ogg_opus.go (RFC 3533, section 6): generator 0x04c11db7, no
 * inversion.
 */
module OggCrc {
  import opened Bytes

  /** Addition of registers. */
  function Plus(a: bv32, b: bv32): bv32 {
    a ^ b
  }

  predicate HighBit(c: bv32) {
    c & 0x8000_0000 != 0
  }

  function Double(c: bv32): bv32 {
    c << 1
  }

  /** One turn of the inner loop: multiply the register by x modulo the generator. */
  function Shift(c: bv32): bv32 {
    if HighBit(c) then Plus(Double(c), 0x04c1_1db7) else Double(c)
  }

  function Shifts(c: bv32, n: nat): bv32
    decreases n
  {
    if n == 0 then c else Shifts(Shift(c), n - 1)
  }

  function AtTop(octet: bv8): bv32 {
    (octet as bv32) << 24
  }

  function Absorb(c: bv32, octet: bv8): bv32 {
    Shifts(Plus(c, AtTop(octet)), 8)
  }

  function CrcFrom(c: bv32, data: seq<bv8>): bv32
    decreases |data|
  {
    if data == [] then c else CrcFrom(Absorb(c, data[0]), data[1..])
  }

  /** The k low binary digits of a number, as a bit vector. */
  function LowDigits(n: nat, k: nat): bv8 {
    if k == 0 then 0 else (LowDigits(n / 2, k - 1) << 1) | (if n % 2 == 1 then 1 else 0)
  }

  function OctetOf(b: byte): bv8 {
    LowDigits(b, 8)
  }

  function Octets(data: seq<byte>): (r: seq<bv8>)
    ensures |r| == |data|
  {
    seq(|data|, i requires 0 <= i < |data| => OctetOf(data[i]))
  }

  function Crc(data: seq<byte>): bv32 {
    CrcFrom(0, Octets(data))
  }

  lemma CrcFromStep(c: bv32, octets: seq<bv8>, i: nat)
    requires i < |octets|
    ensures CrcFrom(c, octets[i..]) == CrcFrom(Absorb(c, octets[i]), octets[i + 1..])
  {
    assert octets[i..][1..] == octets[i + 1..];
  }

  /** The source's nested loops. */
  method OggCRC(data: seq<byte>) returns (crc: bv32)
    ensures crc == Crc(data)
  {
    crc := 0;
    ghost var octets := Octets(data);
    assert octets[0..] == octets;
    for i := 0 to |data|
      invariant CrcFrom(crc, octets[i..]) == Crc(data)
    {
      CrcFromStep(crc, octets, i);
      ghost var before := crc;
      crc := ShiftByte(crc ^ ((OctetOf(data[i]) as bv32) << 24));
      assert crc == Absorb(before, octets[i]);
    }
    assert octets[|data|..] == [];
  }

  method ShiftByte(start: bv32) returns (crc: bv32)
    ensures crc == Shifts(start, 8)
  {
    crc := start;
    for j := 0 to 8
      invariant Shifts(crc, 8 - j) == Shifts(start, 8)
    {
      hide Shift;
      ShiftIs(crc);
      crc := if crc & 0x8000_0000 != 0 then (crc << 1) ^ 0x04c1_1db7 else crc << 1;
    }
  }

  lemma ShiftIs(c: bv32)
    ensures Shift(c) == if c & 0x8000_0000 != 0 then (c << 1) ^ 0x04c1_1db7 else c << 1
  {
  }

  // ----- Algebra of the register -----

  lemma DoubleLinear(x: bv32, y: bv32)
    ensures Double(Plus(x, y)) == Plus(Double(x), Double(y))
  {
  }

  lemma HighBitLinear(x: bv32, y: bv32)
    ensures HighBit(Plus(x, y)) <==> (HighBit(x) != HighBit(y))
  {
  }

  lemma PlusCommutes(a: bv32, b: bv32)
    ensures Plus(a, b) == Plus(b, a)
  {
  }

  lemma PlusAssociates(a: bv32, b: bv32, c: bv32)
    ensures Plus(Plus(a, b), c) == Plus(a, Plus(b, c))
  {
  }

  lemma PlusZero(a: bv32)
    ensures Plus(a, 0) == a && Plus(0, a) == a && Plus(a, a) == 0
  {
  }

  lemma PlusInjective(a: bv32, b: bv32, c: bv32)
    requires Plus(c, a) == Plus(c, b)
    ensures a == b
  {
  }

  lemma PlusCancels(a: bv32, b: bv32, p: bv32)
    ensures Plus(Plus(a, p), Plus(b, p)) == Plus(a, b)
    ensures Plus(Plus(a, p), b) == Plus(Plus(a, b), p) == Plus(a, Plus(b, p))
  {
    hide Plus;
    PlusAssociates(a, p, Plus(b, p));
    PlusCommutes(b, p);
    PlusAssociates(p, p, b);
    PlusZero(p);
    PlusZero(b);
    PlusAssociates(a, p, b);
    PlusAssociates(a, b, p);
  }

  lemma ShiftLinear(x: bv32, y: bv32)
    ensures Shift(Plus(x, y)) == Plus(Shift(x), Shift(y))
  {
    hide Plus, HighBit, Double;
    DoubleLinear(x, y);
    HighBitLinear(x, y);
    PlusCancels(Double(x), Double(y), 0x04c1_1db7);
  }

  lemma DoubleInjective(x: bv32, y: bv32)
    ensures HighBit(x) == HighBit(y) && Double(x) == Double(y) ==> x == y
    ensures Plus(0x04c1_1db7, Double(x)) != Double(y)
  {
  }

  lemma ShiftInjective(x: bv32, y: bv32)
    requires x != y
    ensures Shift(x) != Shift(y)
  {
    hide Plus, HighBit, Double;
    DoubleInjective(x, y);
    DoubleInjective(y, x);
    PlusCommutes(Double(x), 0x04c1_1db7);
    PlusCommutes(Double(y), 0x04c1_1db7);
    if Shift(x) == Shift(y) && HighBit(x) && HighBit(y) {
      PlusInjective(Double(x), Double(y), 0x04c1_1db7);
    }
  }

  lemma {:induction false} ShiftsLinear(x: bv32, y: bv32, n: nat)
    ensures Shifts(Plus(x, y), n) == Plus(Shifts(x, n), Shifts(y, n))
    decreases n
  {
    hide Plus, Shift;
    if n == 0 {
    } else {
      ShiftLinear(x, y);
      ShiftsLinear(Shift(x), Shift(y), n - 1);
    }
  }

  lemma {:induction false} ShiftsInjective(x: bv32, y: bv32, n: nat)
    requires x != y
    ensures Shifts(x, n) != Shifts(y, n)
    decreases n
  {
    if n == 0 {
    } else {
      ShiftInjective(x, y);
      ShiftsInjective(Shift(x), Shift(y), n - 1);
    }
  }

  function Xor(a: seq<bv8>, b: seq<bv8>): (r: seq<bv8>)
    requires |a| == |b|
    ensures |r| == |a|
  {
    seq(|a|, i requires 0 <= i < |a| => a[i] ^ b[i])
  }

  lemma AtTopLinear(s: bv32, t: bv32, x: bv8, y: bv8)
    ensures Plus(Plus(s, t), AtTop(x ^ y)) == Plus(Plus(s, AtTop(x)), Plus(t, AtTop(y)))
  {
  }

  lemma AbsorbLinear(s: bv32, t: bv32, x: bv8, y: bv8)
    ensures Absorb(Plus(s, t), x ^ y) == Plus(Absorb(s, x), Absorb(t, y))
  {
    hide Plus, AtTop, Shifts;
    AtTopLinear(s, t, x, y);
    ShiftsLinear(Plus(s, AtTop(x)), Plus(t, AtTop(y)), 8);
  }

  /** The checksum of a bytewise exclusive-or is the exclusive-or of the checksums. */
  lemma {:induction false} CrcLinear(s: bv32, t: bv32, a: seq<bv8>, b: seq<bv8>)
    requires |a| == |b|
    ensures CrcFrom(Plus(s, t), Xor(a, b)) == Plus(CrcFrom(s, a), CrcFrom(t, b))
    decreases |a|
  {
    hide Plus, Absorb;
    if a == [] {
    } else {
      AbsorbLinear(s, t, a[0], b[0]);
      assert Xor(a, b)[1..] == Xor(a[1..], b[1..]);
      CrcLinear(Absorb(s, a[0]), Absorb(t, b[0]), a[1..], b[1..]);
    }
  }

  // ----- The same checksum, one bit at a time -----

  /** The k-th place of the register, counted down from its high bit. */
  function PlaceValue(k: bv6): bv32
    requires k < 32
  {
    0x8000_0000 >> k
  }

  function Place(bit: bool, k: bv6): bv32
    requires k < 32
  {
    if bit then PlaceValue(k) else 0
  }

  lemma PlaceValueDoubles(k: bv6)
    requires 1 <= k < 32
    ensures !HighBit(PlaceValue(k)) && Double(PlaceValue(k)) == PlaceValue(k - 1)
  {
  }

  lemma PlaceShifts(bit: bool, k: bv6)
    requires 1 <= k < 32
    ensures !HighBit(Place(bit, k)) && Shift(Place(bit, k)) == Place(bit, k - 1)
  {
    hide PlaceValue, Double, HighBit, Plus;
    ZeroShifts();
    PlaceValueDoubles(k);
  }

  lemma Next(k: bv6)
    requires k < 32
    ensures (k + 1) as int == k as int + 1
  {
  }

  /** The bits laid out in a word from place k downwards. */
  function Word(bits: seq<bool>, k: bv6): bv32
    requires k as int + |bits| <= 32
    decreases |bits|
  {
    if bits == [] then 0
    else
      Next(k);
      Plus(Place(bits[0], k), Word(bits[1..], k + 1))
  }

  lemma ZeroShifts()
    ensures !HighBit(0) && Double(0) == 0 && Shift(0) == 0
  {
  }

  lemma {:induction false} WordShifts(bits: seq<bool>, k: bv6)
    requires 1 <= k && k as int + |bits| <= 32
    ensures (k - 1) as int == k as int - 1
    ensures !HighBit(Word(bits, k)) && Shift(Word(bits, k)) == Word(bits, k - 1)
    decreases |bits|
  {
    hide Plus, HighBit, Shift, Place;
    ZeroShifts();
    Next(k - 1);
    if bits == [] {
    } else {
      Next(k);
      PlaceShifts(bits[0], k);
      WordShifts(bits[1..], k + 1);
      HighBitLinear(Place(bits[0], k), Word(bits[1..], k + 1));
      ShiftLinear(Place(bits[0], k), Word(bits[1..], k + 1));
    }
  }

  function CrcBits(c: bv32, bits: seq<bool>): bv32
    decreases |bits|
  {
    if bits == [] then c else CrcBits(Shift(Plus(c, Place(bits[0], 0))), bits[1..])
  }

  lemma {:induction false} CrcBitsAppend(c: bv32, a: seq<bool>, b: seq<bool>)
    ensures CrcBits(c, a + b) == CrcBits(CrcBits(c, a), b)
    decreases |a|
  {
    hide Plus, Shift, Place;
    if a == [] {
      assert a + b == b;
    } else {
      assert (a + b)[1..] == a[1..] + b;
      CrcBitsAppend(Shift(Plus(c, Place(a[0], 0))), a[1..], b);
    }
  }

  /** Shifting once per bit a register with the bits added at its top is the same as feeding the bits one by one. */
  lemma {:induction false} FeedBits(c: bv32, bits: seq<bool>)
    requires |bits| <= 32
    ensures Shifts(Plus(c, Word(bits, 0)), |bits|) == CrcBits(c, bits)
    decreases |bits|
  {
    hide Plus, Shift, Place;
    PlusZero(c);
    if bits == [] {
    } else {
      var top, low := Place(bits[0], 0), Word(bits[1..], 1);
      PlusAssociates(c, top, low);
      ShiftLinear(Plus(c, top), low);
      WordShifts(bits[1..], 1);
      FeedBits(Shift(Plus(c, top)), bits[1..]);
    }
  }

  function BitsOfOctet(b: bv8): (r: seq<bool>)
    ensures |r| == 8
  {
    [b & 128 != 0, b & 64 != 0, b & 32 != 0, b & 16 != 0, b & 8 != 0, b & 4 != 0, b & 2 != 0, b & 1 != 0]
  }

  /** The message as a bit string, most significant bit of each byte first. */
  function BitsOf(data: seq<bv8>): (r: seq<bool>)
    ensures |r| == 8 * |data|
  {
    if data == [] then [] else BitsOfOctet(data[0]) + BitsOf(data[1..])
  }

  lemma WordOfOctet(b: bv8)
    ensures Word(BitsOfOctet(b), 0) == AtTop(b)
  {
    hide Plus, Place, AtTop;
    var bits := BitsOfOctet(b);
    WordCons(bits, 0); WordCons(bits[1..], 1); WordCons(bits[2..], 2); WordCons(bits[3..], 3);
    WordCons(bits[4..], 4); WordCons(bits[5..], 5); WordCons(bits[6..], 6); WordCons(bits[7..], 7);
    OctetPlaces(b);
  }

  lemma WordCons(bits: seq<bool>, k: bv6)
    requires bits != [] && k as int + |bits| <= 32
    ensures k < 32 && (k + 1) as int == k as int + 1
    ensures Word(bits, k) == Plus(Place(bits[0], k), Word(bits[1..], k + 1))
  {
    Next(k);
  }

  lemma OctetPlaces(b: bv8)
    ensures Plus(Place(b & 128 != 0, 0), Plus(Place(b & 64 != 0, 1), Plus(Place(b & 32 != 0, 2),
              Plus(Place(b & 16 != 0, 3), Plus(Place(b & 8 != 0, 4), Plus(Place(b & 4 != 0, 5),
                Plus(Place(b & 2 != 0, 6), Plus(Place(b & 1 != 0, 7), 0))))))))
         == AtTop(b)
  {
  }

  /** The source's byte-at-a-time register equals the bit-at-a-time one. */
  lemma {:induction false} BytesAreBits(c: bv32, data: seq<bv8>)
    ensures CrcFrom(c, data) == CrcBits(c, BitsOf(data))
    decreases |data|
  {
    hide Plus, Shift, Place, AtTop, BitsOfOctet, Shifts;
    if data == [] {
    } else {
      var bits := BitsOfOctet(data[0]);
      WordOfOctet(data[0]);
      FeedBits(c, bits);
      CrcBitsAppend(c, bits, BitsOf(data[1..]));
      BytesAreBits(Absorb(c, data[0]), data[1..]);
    }
  }

  // ----- Burst errors -----

  lemma {:induction false} WordInjective(a: seq<bool>, b: seq<bool>, k: bv6)
    requires |a| == |b| && k as int + |a| <= 32 && a != b
    ensures Word(a, k) != Word(b, k)
    decreases |a|, k
  {
    hide Plus, HighBit, Shift, Place;
    if 1 <= k {
      WordShifts(a, k);
      WordShifts(b, k);
      WordInjective(a, b, k - 1);
    } else {
      var restA, restB := Word(a[1..], 1), Word(b[1..], 1);
      WordShifts(a[1..], 1);
      WordShifts(b[1..], 1);
      HighBitLinear(Place(a[0], 0), restA);
      HighBitLinear(Place(b[0], 0), restB);
      PlaceZero(a[0]);
      PlaceZero(b[0]);
      if a[0] == b[0] {
        assert a[1..] != b[1..] by { assert a == [a[0]] + a[1..] && b == [b[0]] + b[1..]; }
        WordInjective(a[1..], b[1..], 1);
        if Word(a, k) == Word(b, k) {
          PlusInjective(restA, restB, Place(a[0], 0));
        }
      }
    }
  }

  lemma PlaceZero(bit: bool)
    ensures HighBit(Place(bit, 0)) <==> bit
  {
  }

  lemma {:induction false} TailKeepsDifference(s: bv32, t: bv32, bits: seq<bool>)
    requires s != t
    ensures CrcBits(s, bits) != CrcBits(t, bits)
    decreases |bits|
  {
    hide Plus, Shift, Place;
    if bits == [] {
    } else {
      var p := Place(bits[0], 0);
      PlusCommutes(s, p);
      PlusCommutes(t, p);
      if Plus(s, p) == Plus(t, p) {
        PlusInjective(s, t, p);
      }
      ShiftInjective(Plus(s, p), Plus(t, p));
      TailKeepsDifference(Shift(Plus(s, p)), Shift(Plus(t, p)), bits[1..]);
    }
  }

  lemma WindowKeepsDifference(s: bv32, a: seq<bool>, b: seq<bool>)
    requires |a| == |b| <= 32 && a != b
    ensures CrcBits(s, a) != CrcBits(s, b)
  {
    hide Plus, Shifts;
    WordInjective(a, b, 0);
    if Plus(s, Word(a, 0)) == Plus(s, Word(b, 0)) {
      PlusInjective(Word(a, 0), Word(b, 0), s);
    }
    ShiftsInjective(Plus(s, Word(a, 0)), Plus(s, Word(b, 0)), |a|);
    FeedBits(s, a);
    FeedBits(s, b);
  }

  lemma BurstInBits(a: seq<bool>, b: seq<bool>, lo: nat, hi: nat)
    requires |a| == |b| && lo <= hi <= |a| && hi - lo <= 32
    requires a[..lo] == b[..lo] && a[hi..] == b[hi..] && a != b
    ensures CrcBits(0, a) != CrcBits(0, b)
  {
    var wa, wb := a[lo..hi], b[lo..hi];
    assert a == (a[..lo] + wa) + a[hi..];
    assert b == (b[..lo] + wb) + b[hi..];
    CrcBitsAppend(0, a[..lo] + wa, a[hi..]);
    CrcBitsAppend(0, b[..lo] + wb, b[hi..]);
    CrcBitsAppend(0, a[..lo], wa);
    CrcBitsAppend(0, b[..lo], wb);
    var s := CrcBits(0, a[..lo]);
    WindowKeepsDifference(s, wa, wb);
    TailKeepsDifference(CrcBits(s, wa), CrcBits(s, wb), a[hi..]);
  }

  lemma OctetBitsInjective(x: bv8, y: bv8)
    requires BitsOfOctet(x) == BitsOfOctet(y)
    ensures x == y
  {
    var a, b := BitsOfOctet(x), BitsOfOctet(y);
    assert a[0] == b[0] && a[1] == b[1] && a[2] == b[2] && a[3] == b[3];
    assert a[4] == b[4] && a[5] == b[5] && a[6] == b[6] && a[7] == b[7];
  }

  lemma {:induction false} BitsInjective(a: seq<bv8>, b: seq<bv8>)
    requires |a| == |b| && BitsOf(a) == BitsOf(b)
    ensures a == b
    decreases |a|
  {
    hide BitsOfOctet;
    if a == [] {
    } else {
      assert BitsOf(a)[..8] == BitsOfOctet(a[0]) && BitsOf(b)[..8] == BitsOfOctet(b[0]);
      assert BitsOf(a)[8..] == BitsOf(a[1..]) && BitsOf(b)[8..] == BitsOf(b[1..]);
      OctetBitsInjective(a[0], b[0]);
      BitsInjective(a[1..], b[1..]);
      assert a == [a[0]] + a[1..] && b == [b[0]] + b[1..];
    }
  }

  /** Damage confined to any 32 consecutive bits always changes the checksum. */
  lemma BurstDetected(a: seq<bv8>, b: seq<bv8>, lo: nat, hi: nat)
    requires |a| == |b| && lo <= hi <= 8 * |a| && hi - lo <= 32
    requires BitsOf(a)[..lo] == BitsOf(b)[..lo] && BitsOf(a)[hi..] == BitsOf(b)[hi..]
    requires a != b
    ensures CrcFrom(0, a) != CrcFrom(0, b)
  {
    hide BitsOf, CrcBits, CrcFrom;
    if BitsOf(a) == BitsOf(b) {
      BitsInjective(a, b);
    }
    BurstInBits(BitsOf(a), BitsOf(b), lo, hi);
    BytesAreBits(0, a);
    BytesAreBits(0, b);
  }

  lemma {:induction false} BitsOfSlice(data: seq<bv8>, i: nat)
    requires i <= |data|
    ensures BitsOf(data)[..8 * i] == BitsOf(data[..i])
    ensures BitsOf(data)[8 * i..] == BitsOf(data[i..])
    decreases |data|
  {
    hide BitsOfOctet;
    if i == 0 {
      assert data[0..] == data;
    } else {
      BitsOfSlice(data[1..], i - 1);
      assert data[1..][..i - 1] == data[..i][1..];
      assert data[1..][i - 1..] == data[i..];
      assert BitsOf(data) == BitsOfOctet(data[0]) + BitsOf(data[1..]);
    }
  }

  /** In particular, damage confined to any four consecutive bytes. */
  lemma FourBytesDetected(a: seq<bv8>, b: seq<bv8>, i: nat)
    requires |a| == |b| && i + 4 <= |a|
    requires a[..i] == b[..i] && a[i + 4..] == b[i + 4..] && a != b
    ensures CrcFrom(0, a) != CrcFrom(0, b)
  {
    hide BitsOf, CrcFrom;
    BitsOfSlice(a, i);
    BitsOfSlice(b, i);
    BitsOfSlice(a, i + 4);
    BitsOfSlice(b, i + 4);
    BurstDetected(a, b, 8 * i, 8 * (i + 4));
  }
}
