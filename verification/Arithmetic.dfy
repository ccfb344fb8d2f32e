/** Integer arithmetic shared by the other modules, with Go's fixed-width unsigned integers as remainders. */
module Arithmetic {

  function Max(a: int, b: int): int {
    if a < b then b else a
  }

  function Min(a: int, b: int): int {
    if a < b then a else b
  }

  lemma RemainderIsUnique(x: int, q: int, r: int, m: nat)
    requires 0 <= r < m && x == q * m + r
    ensures x % m == r
  {
    var d := x / m;
    assert x == d * m + x % m;
    assert (d - q) * m == r - x % m;
    TimesAtLeast(d - q, m);
  }

  lemma TimesAtLeast(k: int, m: nat)
    ensures k >= 1 ==> k * m >= m
    ensures k <= -1 ==> k * m <= -(m as int)
  {
  }

  lemma QuotientIsUnique(x: nat, d: nat, q: nat, r: nat)
    requires r < d && x == q * d + r
    ensures x / d == q
  {
    RemainderIsUnique(x, q, r, d);
    assert x == x / d * d + r;
    assert (x / d - q) * d == 0;
    TimesAtLeast(x / d - q, d);
  }

  /** Wrapping after each addition is wrapping once at the end. */
  lemma WrapTwice(a: int, b: int, c: int, m: nat)
    requires m > 0
    ensures ((a + b) % m + c) % m == (a + b + c) % m
  {
    var r, q := (a + b) % m, (a + b) / m;
    var q2 := (r + c) / m;
    assert a + b + c == (q + q2) * m + (r + c) % m;
    RemainderIsUnique(a + b + c, q + q2, (r + c) % m, m);
  }

  lemma NoWrap(a: int, m: nat)
    requires 0 <= a < m
    ensures a % m == a
  {
  }

  lemma Increment(a: int, m: nat)
    requires m > 0
    ensures (a + 1) % m == if a % m + 1 == m then 0 else a % m + 1
  {
    assert a == (a / m) * m + a % m;
    if a % m + 1 == m {
      assert (a / m) * m + m == (a / m + 1) * m;
      RemainderIsUnique(a + 1, a / m + 1, 0, m);
    } else {
      RemainderIsUnique(a + 1, a / m, a % m + 1, m);
    }
  }

  const TWO32: nat := 0x1_0000_0000
  const TWO64: nat := 0x1_0000_0000_0000_0000

  type uint32 = x: int | 0 <= x < TWO32
  type uint64 = x: int | 0 <= x < TWO64

  function Add32(a: int, b: int): uint32 {
    (a + b) % TWO32
  }

  function Add64(a: int, b: int): uint64 {
    (a + b) % TWO64
  }

  lemma AddTwice(a: int, b: int, c: int)
    ensures Add32(Add32(a, b), c) == Add32(a, b + c)
    ensures Add64(Add64(a, b), c) == Add64(a, b + c)
    ensures 0 <= a < TWO32 ==> Add32(a, 0) == a
    ensures 0 <= a < TWO64 ==> Add64(a, 0) == a
  {
    WrapTwice(a, b, c, TWO32);
    WrapTwice(a, b, c, TWO64);
    if 0 <= a < TWO32 {
      NoWrap(a, TWO32);
    }
    if 0 <= a < TWO64 {
      NoWrap(a, TWO64);
    }
  }
}
