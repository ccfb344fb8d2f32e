/** strings.TrimSpace over any alphabet: `blank` says which elements are white space. */
module Trimming {

  function TrimLeft<T>(s: seq<T>, blank: T -> bool): (t: seq<T>)
    ensures |t| <= |s| && (t != [] ==> !blank(t[0]))
  {
    if s != [] && blank(s[0]) then TrimLeft(s[1..], blank) else s
  }

  function TrimRight<T>(s: seq<T>, blank: T -> bool): (t: seq<T>)
    ensures t <= s && (t != [] ==> !blank(t[|t| - 1]))
  {
    if s != [] && blank(s[|s| - 1]) then TrimRight(s[..|s| - 1], blank) else s
  }

  function Trim<T>(s: seq<T>, blank: T -> bool): (t: seq<T>)
    ensures t != [] ==> !blank(t[0]) && !blank(t[|t| - 1])
  {
    var t := TrimLeft(s, blank);
    assert TrimRight(t, blank) != [] ==> TrimRight(t, blank)[0] == t[0];
    TrimRight(t, blank)
  }

  /** The stretch from a to b has only white space before and after it, and none at either end. */
  predicate IsTrimmed<T>(s: seq<T>, blank: T -> bool, a: nat, b: nat) {
    && a <= b <= |s|
    && (forall i :: 0 <= i < a ==> blank(s[i])) && (forall i :: b <= i < |s| ==> blank(s[i]))
    && (a < b ==> !blank(s[a]) && !blank(s[b - 1]))
  }

  lemma {:induction false} LeftMeans<T>(s: seq<T>, blank: T -> bool) returns (a: nat)
    ensures a <= |s| && TrimLeft(s, blank) == s[a..] && forall i :: 0 <= i < a ==> blank(s[i])
    decreases |s|
  {
    if s != [] && blank(s[0]) {
      var n := LeftMeans(s[1..], blank);
      a := n + 1;
      assert s[1..][n..] == s[a..];
      forall i | 0 <= i < a ensures blank(s[i]) {
        assert i > 0 ==> s[i] == s[1..][i - 1];
      }
    } else {
      a := 0;
    }
  }

  lemma {:induction false} RightMeans<T>(s: seq<T>, blank: T -> bool)
    ensures var n := |TrimRight(s, blank)|;
            n <= |s| && TrimRight(s, blank) == s[..n] && forall i :: n <= i < |s| ==> blank(s[i])
    decreases |s|
  {
    if s != [] && blank(s[|s| - 1]) {
      RightMeans(s[..|s| - 1], blank);
    }
  }

  /** The result is such a stretch. */
  lemma TrimMeans<T>(s: seq<T>, blank: T -> bool) returns (a: nat, b: nat)
    ensures IsTrimmed(s, blank, a, b) && Trim(s, blank) == s[a..b]
  {
    hide TrimLeft, TrimRight;
    a := LeftMeans(s, blank);
    var t := s[a..];
    RightMeans(t, blank);
    b := a + |Trim(s, blank)|;
    assert s[a..b] == t[..b - a];
    forall i | b <= i < |s| ensures blank(s[i]) {
      assert s[i] == t[i - a];
    }
  }

  /** And there is no other. */
  lemma TrimIsOnly<T>(s: seq<T>, blank: T -> bool, a: nat, b: nat)
    requires IsTrimmed(s, blank, a, b)
    ensures Trim(s, blank) == s[a..b]
  {
    hide Trim;
    var c, d := TrimMeans(s, blank);
    if a < b {
      assert c <= a && b <= d;
    }
    if c < d {
      assert a <= c && d <= b;
    }
  }
}
