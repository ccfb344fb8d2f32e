/** Bytes, their little- and big-endian integer encodings, and byte-string helpers shared by the codecs. */
module Bytes {
  import opened Arithmetic
  import Trimming

  type byte = x: int | 0 <= x < 256

  /** A text of ASCII characters as bytes. */
  function Ascii(s: string): (r: seq<byte>)
    ensures |r| == |s|
  {
    seq(|s|, i requires 0 <= i < |s| => s[i] as int % 256)
  }

  function Pow256(k: nat): (p: nat)
    ensures p > 0
  {
    if k == 0 then 1 else 256 * Pow256(k - 1)
  }

  /** The k low bytes of n, least significant first; higher bytes are dropped, as a narrowing conversion does. */
  function LE(n: nat, k: nat): (s: seq<byte>)
    ensures |s| == k
  {
    if k == 0 then [] else [n % 256] + LE(n / 256, k - 1)
  }

  function FromLE(s: seq<byte>): (n: nat)
    ensures n < Pow256(|s|)
  {
    if s == [] then 0 else s[0] + 256 * FromLE(s[1..])
  }

  /** Byte i is the i-th base-256 digit, the least significant first. */
  lemma {:induction false} LEDigit(n: nat, k: nat, i: nat)
    requires i < k
    ensures LE(n, k)[i] == n / Pow256(i) % 256
    decreases k
  {
    if i > 0 {
      LEDigit(n / 256, k - 1, i - 1);
      DivideTwice(n, Pow256(i - 1));
    }
  }

  lemma DivideTwice(n: nat, b: nat)
    requires b > 0
    ensures n / 256 / b == n / (256 * b)
  {
    var q, r := n / 256, n % 256;
    var p, t := q / b, q % b;
    DividedInto(q, b);
    Scaled(p, b);
    QuotientIsUnique(n, 256 * b, p, 256 * t + r);
  }

  lemma DividedInto(q: nat, b: nat)
    requires b > 0
    ensures q == q / b * b + q % b
  {
  }

  lemma Scaled(p: nat, b: nat)
    ensures p * (256 * b) == 256 * (p * b)
  {
  }

  /** An integer that fits in k bytes survives the round trip. */
  lemma {:induction false} LERoundTrip(n: nat, k: nat)
    requires n < Pow256(k)
    ensures FromLE(LE(n, k)) == n
  {
    if k == 0 {
    } else {
      assert LE(n, k)[1..] == LE(n / 256, k - 1);
      LERoundTrip(n / 256, k - 1);
    }
  }

  /** And k bytes survive the other way round, so the encoding is a bijection. */
  lemma {:induction false} FromLERoundTrip(s: seq<byte>)
    ensures LE(FromLE(s), |s|) == s
  {
    if s == [] {
    } else {
      FromLERoundTrip(s[1..]);
      assert s == [s[0]] + s[1..];
    }
  }

  function Sum(s: seq<byte>): nat {
    if s == [] then 0 else s[0] + Sum(s[1..])
  }

  lemma {:induction false} SumAppend(a: seq<byte>, b: seq<byte>)
    ensures Sum(a + b) == Sum(a) + Sum(b)
  {
    if a == [] {
      assert a + b == b;
    } else {
      assert (a + b)[1..] == a[1..] + b;
      SumAppend(a[1..], b);
    }
  }

  function Flatten<T>(parts: seq<seq<T>>): seq<T> {
    if parts == [] then [] else parts[0] + Flatten(parts[1..])
  }

  lemma {:induction false} FlattenAppend<T>(a: seq<seq<T>>, b: seq<seq<T>>)
    ensures Flatten(a + b) == Flatten(a) + Flatten(b)
  {
    if a == [] {
      assert a + b == b;
    } else {
      assert (a + b)[1..] == a[1..] + b;
      FlattenAppend(a[1..], b);
    }
  }

  lemma SliceOfSlice<T>(s: seq<T>, a: nat, b: nat, c: nat, d: nat)
    requires a <= b <= |s| && c <= d <= b - a
    ensures s[a..b][c..d] == s[a + c..a + d]
  {
    assert forall i :: 0 <= i < d - c ==> s[a..b][c..d][i] == s[a..b][c + i] == s[a + c + i];
  }

  /** copy(a[at:], s) */
  method Copy(a: array<byte>, at: nat, s: seq<byte>)
    requires at + |s| <= a.Length
    modifies a
    ensures a[..at + |s|] == old(a[..at]) + s
    ensures forall i :: at + |s| <= i < a.Length ==> a[i] == old(a[i])
  {
    for i := 0 to |s|
      invariant a[..at + i] == old(a[..at]) + s[..i]
      invariant forall k :: at + i <= k < a.Length ==> a[k] == old(a[k])
    {
      a[at + i] := s[i];
    }
  }

  // ----- strings.TrimSpace over ASCII white space -----

  predicate IsSpace(b: byte) {
    9 <= b <= 13 || b == 32
  }

  function TrimSpace(s: seq<byte>): seq<byte> {
    Trimming.Trim(s, IsSpace)
  }

  /** The white space removed is tab to carriage return and the space. */
  lemma SpaceMeans(b: byte)
    ensures IsSpace(b) <==> b in Ascii("\t\n\U{0b}\U{0c}\r ")
  {
    var blanks := Ascii("\t\n\U{0b}\U{0c}\r ");
    assert blanks == [9, 10, 11, 12, 13, 32];
  }
}
