/** Nearest-rank percentiles: percentiles of internal/replay/run.go and percentileStats of internal/server/events.go. */
module Percentiles {

  /** How many values are at most v, and how many are below it. */
  function AtMost(s: seq<int>, v: int): (n: nat)
    ensures n <= |s|
  {
    if s == [] then 0 else (if s[0] <= v then 1 else 0) + AtMost(s[1..], v)
  }

  lemma {:induction false} AtMostCounts(s: seq<int>, v: int)
    ensures AtMost(s, v) == |set i | 0 <= i < |s| && s[i] <= v|
  {
    var here := set i | 0 <= i < |s| && s[i] <= v;
    if s == [] {
      assert here == {};
    } else {
      var init, last := s[..|s| - 1], s[|s| - 1];
      AtMostCounts(init, v);
      AtMostOneMore(init, last, v);
      assert s == init + [last];
      var before := set i | 0 <= i < |init| && init[i] <= v;
      assert here == if last <= v then before + {|s| - 1} else before;
    }
  }

  lemma {:induction false} AtMostOneMore(s: seq<int>, x: int, v: int)
    ensures AtMost(s + [x], v) == AtMost(s, v) + if x <= v then 1 else 0
  {
    if s != [] {
      assert (s + [x])[1..] == s[1..] + [x];
      AtMostOneMore(s[1..], x, v);
    }
  }

  function Below(s: seq<int>, v: int): (n: nat) {
    AtMost(s, v - 1)
  }

  /** v is the p-th percentile: p percent of the values are at most v, and fewer than p percent are below it. */
  predicate IsPercentile(s: seq<int>, p: nat, v: int) {
    v in s && 100 * AtMost(s, v) >= p * |s| && 100 * Below(s, v) < p * |s|
  }

  lemma {:induction false} AtMostGrows(s: seq<int>, v: int, w: int)
    requires v <= w
    ensures AtMost(s, v) <= AtMost(s, w)
  {
    if s == [] {
    } else {
      AtMostGrows(s[1..], v, w);
    }
  }

  lemma PercentileIsUnique(s: seq<int>, p: nat, v: int, w: int)
    requires IsPercentile(s, p, v) && IsPercentile(s, p, w)
    ensures v == w
  {
    if v < w {
      AtMostGrows(s, v, w - 1);
    } else if w < v {
      AtMostGrows(s, w, v - 1);
    }
  }

  predicate Ascending(s: seq<int>) {
    forall i, j :: 0 <= i < j < |s| ==> s[i] <= s[j]
  }

  lemma ShortIsAscending(s: seq<int>)
    requires |s| <= 1
    ensures Ascending(s)
  {
  }

  function Insert(x: int, s: seq<int>): seq<int> {
    if s == [] || x <= s[0] then [x] + s else [s[0]] + Insert(x, s[1..])
  }

  function Sorted(s: seq<int>): seq<int> {
    if s == [] then [] else Insert(s[0], Sorted(s[1..]))
  }

  lemma {:induction false} InsertCounts(x: int, s: seq<int>, v: int)
    ensures AtMost(Insert(x, s), v) == AtMost(s, v) + if x <= v then 1 else 0
  {
    if s == [] || x <= s[0] {
      assert ([x] + s)[1..] == s;
    } else {
      InsertCounts(x, s[1..], v);
      assert ([s[0]] + Insert(x, s[1..]))[1..] == Insert(x, s[1..]);
    }
  }

  lemma {:induction false} InsertKeeps(x: int, s: seq<int>)
    ensures multiset(Insert(x, s)) == multiset(s) + multiset{x} && |Insert(x, s)| == |s| + 1
  {
    if s == [] || x <= s[0] {
    } else {
      InsertKeeps(x, s[1..]);
      assert s == [s[0]] + s[1..];
    }
  }

  lemma {:induction false} InsertOrders(x: int, s: seq<int>)
    requires Ascending(s)
    ensures Ascending(Insert(x, s))
  {
    if s == [] || x <= s[0] {
    } else {
      InsertOrders(x, s[1..]);
      InsertKeeps(x, s[1..]);
      var rest := Insert(x, s[1..]);
      forall i | 0 <= i < |rest| ensures s[0] <= rest[i] {
        assert rest[i] in multiset(rest);
      }
    }
  }

  /** Sorting keeps the values and puts them in order. */
  lemma {:induction false} SortedFacts(s: seq<int>)
    ensures multiset(Sorted(s)) == multiset(s) && |Sorted(s)| == |s| && Ascending(Sorted(s))
  {
    hide Insert, Ascending;
    if s == [] {
      ShortIsAscending(s);
    } else {
      SortedFacts(s[1..]);
      InsertKeeps(s[0], Sorted(s[1..]));
      InsertOrders(s[0], Sorted(s[1..]));
      assert s == [s[0]] + s[1..];
    }
  }

  lemma {:induction false} SortedCounts(s: seq<int>, v: int)
    ensures AtMost(Sorted(s), v) == AtMost(s, v)
  {
    if s == [] {
    } else {
      SortedCounts(s[1..], v);
      InsertCounts(s[0], Sorted(s[1..]), v);
    }
  }

  /** In sorted values, more than k are at most the k-th, and at most k are below it. */
  lemma {:induction false} RankOf(s: seq<int>, k: nat)
    requires k < |s| && Ascending(s)
    ensures AtMost(s, s[k]) >= k + 1 && Below(s, s[k]) <= k
  {
    if k == 0 {
      NoneBelow(s, s[0] - 1);
    } else {
      RankOf(s[1..], k - 1);
    }
  }

  lemma {:induction false} NoneBelow(s: seq<int>, v: int)
    requires forall i :: 0 <= i < |s| ==> v < s[i]
    ensures AtMost(s, v) == 0
  {
    if s == [] {
    } else {
      NoneBelow(s[1..], v);
    }
  }

  function At(sorted: seq<int>, percent: nat): int
    requires sorted != [] && 0 < percent <= 100
  {
    ProductBetween(|sorted|, percent);
    var index := (|sorted| * percent + 99) / 100;
    sorted[(if index < 1 then 1 else index) - 1]
  }

  lemma RankIsPercentile(s: seq<int>, p: nat, k: nat)
    requires s != [] && 0 < p <= 100 && k == (|s| * p + 99) / 100 - 1
    ensures k < |s| && |Sorted(s)| == |s| && IsPercentile(s, p, Sorted(s)[k])
  {
    hide AtMost, Sorted, IsPercentile, Ascending;
    var product := |s| * p;
    ProductBetween(|s|, p);
    RankInside(product, |s|, k);
    SortedFacts(s);
    var v := Sorted(s)[k];
    SortedCounts(s, v);
    SortedCounts(s, v - 1);
    RankOf(Sorted(s), k);
    assert v in multiset(Sorted(s));
    EnoughAndFew(s, p, v, k, product);
  }

  lemma EnoughAndFew(s: seq<int>, p: nat, v: int, k: nat, product: nat)
    requires v in s && AtMost(s, v) >= k + 1 && Below(s, v) <= k
    requires p * |s| == product && 100 * k < product <= 100 * (k + 1)
    ensures IsPercentile(s, p, v)
  {
    hide AtMost;
  }

  lemma ProductBetween(size: nat, p: nat)
    requires size > 0 && 0 < p <= 100
    ensures 0 < size * p <= 100 * size && size * p == p * size
  {
    assert (100 - p) * size >= 0 && (p - 1) * size >= 0;
    assert (100 - p) * size == 100 * size - p * size && (p - 1) * size == p * size - size;
  }

  lemma RankInside(product: nat, size: nat, k: nat)
    requires 0 < product <= 100 * size && k == (product + 99) / 100 - 1
    ensures k < size && 100 * k < product <= 100 * (k + 1)
  {
  }

  /** The entry taken from the sorted values is the percentile of the values as they were. */
  lemma AtIsPercentile(s: seq<int>, p: nat)
    requires s != [] && 0 < p <= 100
    ensures Sorted(s) != [] && IsPercentile(s, p, At(Sorted(s), p))
  {
    hide IsPercentile, Sorted, Ascending, AtMost;
    SortedFacts(s);
    ProductBetween(|s|, p);
    RankIsPercentile(s, p, (|s| * p + 99) / 100 - 1);
  }

  /** sort.Slice */
  method Sort(values: array<int>)
    modifies values
    ensures values[..] == Sorted(old(values[..]))
  {
    ghost var was := values[..];
    SortedFacts(was);
    var sorted := Sorted(values[..]);
    for i := 0 to values.Length
      invariant values[..i] == sorted[..i]
    {
      values[i] := sorted[i];
    }
  }

  method PercentilesInPlace(values: array<int>) returns (p50: int, p90: int)
    modifies values
    ensures values.Length == 0 ==> p50 == 0 && p90 == 0
    ensures multiset(values[..]) == multiset(old(values[..])) && Ascending(values[..])
    ensures values.Length > 0 ==> IsPercentile(old(values[..]), 50, p50) && IsPercentile(old(values[..]), 90, p90)
  {
    hide IsPercentile, Sorted, Ascending, At;
    ghost var was := values[..];
    SortedFacts(was);
    if values.Length == 0 {
      ShortIsAscending(values[..]);
      return 0, 0;
    }
    Sort(values);
    AtIsPercentile(was, 50);
    AtIsPercentile(was, 90);
    p50 := At(values[..], 50);
    p90 := At(values[..], 90);
  }

  /** The same over a copy, with the number of samples. */
  method PercentileStats(values: seq<int>) returns (samples: nat, p50: int, p90: int)
    ensures samples == |values|
    ensures values == [] ==> p50 == 0 && p90 == 0
    ensures values != [] ==> IsPercentile(values, 50, p50) && IsPercentile(values, 90, p90)
  {
    var sorted := new int[|values|](i requires 0 <= i < |values| => values[i]);
    assert sorted[..] == values;
    p50, p90 := PercentilesInPlace(sorted);
    samples := |values|;
  }
}
