/** Transcript similarity of internal/replay/run.go: normalisation, the two-row edit distance and the score. */
module EditDistance {
  import opened Picking

  // ----- Edit scripts: the reference definition of distance -----

  datatype Edit<T> = Keep(x: T) | Insert(y: T) | Delete(x: T) | Substitute(x: T, y: T)

  type Script<T> = seq<Edit<T>>

  function Consumed<T>(e: Edit<T>): seq<T> {
    if e.Insert? then [] else [e.x]
  }

  function Produced<T>(e: Edit<T>): seq<T> {
    match e
    case Keep(x) => [x]
    case Delete(_) => []
    case Insert(y) => [y]
    case Substitute(_, y) => [y]
  }

  function Before<T>(s: Script<T>): seq<T> {
    if s == [] then [] else Before(s[..|s| - 1]) + Consumed(s[|s| - 1])
  }

  function After<T>(s: Script<T>): seq<T> {
    if s == [] then [] else After(s[..|s| - 1]) + Produced(s[|s| - 1])
  }

  function Cost<T>(s: Script<T>): nat {
    if s == [] then 0 else Cost(s[..|s| - 1]) + if s[|s| - 1].Keep? then 0 else 1
  }

  ghost predicate Edits<T>(s: Script<T>, a: seq<T>, b: seq<T>) {
    Before(s) == a && After(s) == b
  }

  lemma Extend<T>(s: Script<T>, e: Edit<T>)
    ensures Before(s + [e]) == Before(s) + Consumed(e)
    ensures After(s + [e]) == After(s) + Produced(e)
    ensures Cost(s + [e]) == Cost(s) + if e.Keep? then 0 else 1
  {
    assert (s + [e])[..|s|] == s;
  }

  // ----- The recurrence on prefixes -----

  function Min3(a: nat, b: nat, c: nat): nat {
    if a <= b && a <= c then a else if b <= c then b else c
  }

  /** The distance between the first i and the first j elements. */
  function Prefix<T(==)>(a: seq<T>, b: seq<T>, i: nat, j: nat): nat
    requires i <= |a| && j <= |b|
    decreases i + j
  {
    if i == 0 then j
    else if j == 0 then i
    else Min3(Prefix(a, b, i, j - 1) + 1, Prefix(a, b, i - 1, j) + 1,
              Prefix(a, b, i - 1, j - 1) + if a[i - 1] != b[j - 1] then 1 else 0)
  }

  function Distance<T(==)>(a: seq<T>, b: seq<T>): nat {
    Prefix(a, b, |a|, |b|)
  }

  lemma Cell<T>(a: seq<T>, b: seq<T>, i: nat, j: nat)
    requires i < |a| && j < |b|
    ensures Prefix(a, b, i + 1, j + 1)
         == Min3(Prefix(a, b, i + 1, j) + 1, Prefix(a, b, i, j + 1) + 1,
                 Prefix(a, b, i, j) + if a[i] != b[j] then 1 else 0)
  {
  }

  lemma Border<T>(a: seq<T>, b: seq<T>)
    ensures forall j :: 0 <= j <= |b| ==> Prefix(a, b, 0, j) == j
    ensures forall i :: 0 <= i <= |a| ==> Prefix(a, b, i, 0) == i
  {
  }

  lemma BorderAt<T>(a: seq<T>, b: seq<T>, i: nat, j: nat)
    requires i <= |a| && j <= |b| && (i == 0 || j == 0)
    ensures Prefix(a, b, i, j) == i + j
  {
  }

  ghost predicate IsRow<T>(row: seq<nat>, left: seq<T>, right: seq<T>, i: nat)
    requires i <= |left|
  {
    |row| == |right| + 1 && forall j :: 0 <= j <= |right| ==> row[j] == Prefix(left, right, i, j)
  }

  /** The source's outer loop: only two rows of the table exist at a time. */
  method ComputeDistance<T(==)>(left: seq<T>, right: seq<T>) returns (distance: nat)
    ensures distance == Distance(left, right)
  {
    Border(left, right);
    hide Prefix;
    var previous := new nat[|right| + 1](_ => 0);
    for index := 0 to |right| + 1
      invariant forall j :: 0 <= j < index ==> previous[j] == j
    {
      previous[index] := index;
    }
    for i := 0 to |left|
      invariant IsRow(previous[..], left, right, i)
    {
      previous := NextRow(left, right, i, previous);
    }
    distance := previous[|right|];
  }

  /** The inner loop: one row from the row above it. */
  method NextRow<T(==)>(left: seq<T>, right: seq<T>, i: nat, previous: array<nat>) returns (current: array<nat>)
    requires i < |left| && IsRow(previous[..], left, right, i)
    ensures IsRow(current[..], left, right, i + 1)
  {
    Border(left, right);
    hide Prefix;
    current := new nat[|right| + 1](_ => 0);
    current[0] := i + 1;
    for j := 0 to |right|
      invariant IsRow(previous[..], left, right, i)
      invariant forall k :: 0 <= k <= j ==> current[k] == Prefix(left, right, i + 1, k)
    {
      Cell(left, right, i, j);
      var cost := 0;
      if left[i] != right[j] {
        cost := 1;
      }
      current[j + 1] := Min3(current[j] + 1, previous[j + 1] + 1, previous[j] + cost);
    }
  }

  // ----- The recurrence is the minimum over all scripts -----

  /** No script does better. */
  lemma {:induction false} ScriptsCostAtLeast<T>(a: seq<T>, b: seq<T>, i: nat, j: nat, s: Script<T>)
    requires i <= |a| && j <= |b| && Edits(s, a[..i], b[..j])
    ensures Cost(s) >= Prefix(a, b, i, j)
    decreases |s|
  {
    hide Prefix, Before, After, Cost;
    if s == [] {
      EmptyScript(a, b, i, j);
    } else {
      var init, last := s[..|s| - 1], s[|s| - 1];
      assert init + [last] == s;
      Extend(init, last);
      PrefixSteps(a, b, i, j);
      match last {
        case Keep(_) =>
          LastOf(a, i, Before(init), last.x);
          LastOf(b, j, After(init), last.x);
          ScriptsCostAtLeast(a, b, i - 1, j - 1, init);
        case Substitute(_, y) =>
          LastOf(a, i, Before(init), last.x);
          LastOf(b, j, After(init), y);
          ScriptsCostAtLeast(a, b, i - 1, j - 1, init);
        case Insert(y) =>
          LastOf(b, j, After(init), y);
          assert Before(init) + [] == Before(init);
          ScriptsCostAtLeast(a, b, i, j - 1, init);
        case Delete(_) =>
          LastOf(a, i, Before(init), last.x);
          assert After(init) + [] == After(init);
          ScriptsCostAtLeast(a, b, i - 1, j, init);
      }
    }
  }

  lemma EmptyScript<T>(a: seq<T>, b: seq<T>, i: nat, j: nat)
    requires i <= |a| && j <= |b| && Edits([], a[..i], b[..j])
    ensures Prefix(a, b, i, j) == 0
  {
  }

  lemma LastOf<T>(a: seq<T>, i: nat, front: seq<T>, x: T)
    requires i <= |a| && a[..i] == front + [x]
    ensures i > 0 && front == a[..i - 1] && x == a[i - 1]
  {
    assert |a[..i]| == |front| + 1;
    assert front == (front + [x])[..|front|];
  }

  lemma PrefixSteps<T>(a: seq<T>, b: seq<T>, i: nat, j: nat)
    requires i <= |a| && j <= |b|
    ensures i > 0 ==> Prefix(a, b, i, j) <= Prefix(a, b, i - 1, j) + 1
    ensures j > 0 ==> Prefix(a, b, i, j) <= Prefix(a, b, i, j - 1) + 1
    ensures i > 0 && j > 0 ==> Prefix(a, b, i, j) <= Prefix(a, b, i - 1, j - 1) + if a[i - 1] != b[j - 1] then 1 else 0
  {
  }

  lemma AppendDelete<T>(s: Script<T>, a: seq<T>, b: seq<T>, i: nat, j: nat)
    requires 0 < i <= |a| && j <= |b| && Edits(s, a[..i - 1], b[..j])
    ensures Edits(s + [Delete(a[i - 1])], a[..i], b[..j]) && Cost(s + [Delete(a[i - 1])]) == Cost(s) + 1
  {
    Extend(s, Delete(a[i - 1]));
    assert a[..i] == a[..i - 1] + [a[i - 1]];
  }

  lemma AppendInsert<T>(s: Script<T>, a: seq<T>, b: seq<T>, i: nat, j: nat)
    requires i <= |a| && 0 < j <= |b| && Edits(s, a[..i], b[..j - 1])
    ensures Edits(s + [Insert(b[j - 1])], a[..i], b[..j]) && Cost(s + [Insert(b[j - 1])]) == Cost(s) + 1
  {
    Extend(s, Insert(b[j - 1]));
    assert b[..j] == b[..j - 1] + [b[j - 1]];
  }

  lemma AppendPair<T>(s: Script<T>, e: Edit<T>, a: seq<T>, b: seq<T>, i: nat, j: nat)
    requires 0 < i <= |a| && 0 < j <= |b| && Edits(s, a[..i - 1], b[..j - 1])
    requires e == if a[i - 1] == b[j - 1] then Keep(a[i - 1]) else Substitute(a[i - 1], b[j - 1])
    ensures Edits(s + [e], a[..i], b[..j]) && Cost(s + [e]) == Cost(s) + if e.Keep? then 0 else 1
  {
    Extend(s, e);
    assert a[..i] == a[..i - 1] + [a[i - 1]];
    assert b[..j] == b[..j - 1] + [b[j - 1]];
  }

  /** Which of the three moves ends a cheapest script. */
  lemma ChooseLast<T>(a: seq<T>, b: seq<T>, i: nat, j: nat)
    requires i <= |a| && j <= |b| && i + j > 0
    ensures || (i > 0 && Prefix(a, b, i, j) == Prefix(a, b, i - 1, j) + 1)
            || (j > 0 && Prefix(a, b, i, j) == Prefix(a, b, i, j - 1) + 1)
            || (i > 0 && j > 0
                && Prefix(a, b, i, j) == Prefix(a, b, i - 1, j - 1) + if a[i - 1] == b[j - 1] then 0 else 1)
  {
    if i == 0 {
      BorderAt(a, b, i, j);
      BorderAt(a, b, i, j - 1);
    } else if j == 0 {
      BorderAt(a, b, i, j);
      BorderAt(a, b, i - 1, j);
    } else {
      Cell(a, b, i - 1, j - 1);
    }
  }

  /** And some script does as well. */
  lemma {:induction false} BestScript<T>(a: seq<T>, b: seq<T>, i: nat, j: nat) returns (s: Script<T>)
    requires i <= |a| && j <= |b|
    ensures Edits(s, a[..i], b[..j]) && Cost(s) == Prefix(a, b, i, j)
    decreases i + j
  {
    hide Prefix, Edits, Cost;
    if i == 0 && j == 0 {
      s := [];
      NothingToEdit(a, b);
    } else {
      ChooseLast(a, b, i, j);
      if i > 0 && Prefix(a, b, i, j) == Prefix(a, b, i - 1, j) + 1 {
        var init := BestScript(a, b, i - 1, j);
        AppendDelete(init, a, b, i, j);
        s := init + [Delete(a[i - 1])];
      } else if j > 0 && Prefix(a, b, i, j) == Prefix(a, b, i, j - 1) + 1 {
        var init := BestScript(a, b, i, j - 1);
        AppendInsert(init, a, b, i, j);
        s := init + [Insert(b[j - 1])];
      } else {
        var init := BestScript(a, b, i - 1, j - 1);
        var e := if a[i - 1] == b[j - 1] then Keep(a[i - 1]) else Substitute(a[i - 1], b[j - 1]);
        AppendPair(init, e, a, b, i, j);
        s := init + [e];
      }
    }
  }

  lemma NothingToEdit<T>(a: seq<T>, b: seq<T>)
    ensures Edits([], a[..0], b[..0]) && Cost<T>([]) == Prefix(a, b, 0, 0)
  {
  }

  /** The computed number is the least cost of turning one text into the other. */
  lemma DistanceIsLeastCost<T>(a: seq<T>, b: seq<T>)
    ensures exists s :: Edits(s, a, b) && Cost(s) == Distance(a, b)
    ensures forall s :: Edits(s, a, b) ==> Cost(s) >= Distance(a, b)
  {
    assert a[..|a|] == a && b[..|b|] == b;
    var best := BestScript(a, b, |a|, |b|);
    assert Edits(best, a, b);
    forall s | Edits(s, a, b) ensures Cost(s) >= Distance(a, b) {
      ScriptsCostAtLeast(a, b, |a|, |b|, s);
    }
  }

  // ----- A metric -----

  function Reverse<T>(e: Edit<T>): Edit<T> {
    match e
    case Keep(x) => Keep(x)
    case Insert(y) => Delete(y)
    case Delete(x) => Insert(x)
    case Substitute(x, y) => Substitute(y, x)
  }

  /** The script that undoes s. */
  function Undo<T>(s: Script<T>): Script<T> {
    if s == [] then [] else Undo(s[..|s| - 1]) + [Reverse(s[|s| - 1])]
  }

  lemma {:induction false} UndoSwaps<T>(s: Script<T>)
    ensures Before(Undo(s)) == After(s) && After(Undo(s)) == Before(s) && Cost(Undo(s)) == Cost(s)
  {
    if s == [] {
    } else {
      UndoSwaps(s[..|s| - 1]);
      Extend(Undo(s[..|s| - 1]), Reverse(s[|s| - 1]));
    }
  }

  lemma DistanceSymmetric<T>(a: seq<T>, b: seq<T>)
    ensures Distance(a, b) == Distance(b, a)
  {
    DistanceAtMostReversed(a, b);
    DistanceAtMostReversed(b, a);
  }

  lemma DistanceAtMostReversed<T>(a: seq<T>, b: seq<T>)
    ensures Distance(a, b) <= Distance(b, a)
  {
    DistanceIsLeastCost(a, b);
    DistanceIsLeastCost(b, a);
    var s :| Edits(s, b, a) && Cost(s) == Distance(b, a);
    UndoSwaps(s);
    assert Edits(Undo(s), a, b);
  }

  lemma {:induction false} FreeScriptKeeps<T>(s: Script<T>)
    requires Cost(s) == 0
    ensures Before(s) == After(s)
  {
    if s == [] {
    } else {
      FreeScriptKeeps(s[..|s| - 1]);
    }
  }

  function KeepAll<T>(a: seq<T>): Script<T> {
    if a == [] then [] else KeepAll(a[..|a| - 1]) + [Keep(a[|a| - 1])]
  }

  lemma {:induction false} KeepAllIsFree<T>(a: seq<T>)
    ensures Edits(KeepAll(a), a, a) && Cost(KeepAll(a)) == 0
  {
    if a == [] {
    } else {
      KeepAllIsFree(a[..|a| - 1]);
      Extend(KeepAll(a[..|a| - 1]), Keep(a[|a| - 1]));
      assert a == a[..|a| - 1] + [a[|a| - 1]];
    }
  }

  lemma DistanceZeroExactlyOnEqual<T>(a: seq<T>, b: seq<T>)
    ensures Distance(a, b) == 0 <==> a == b
  {
    DistanceIsLeastCost(a, b);
    if Distance(a, b) == 0 {
      var s :| Edits(s, a, b) && Cost(s) == 0;
      FreeScriptKeeps(s);
    }
    if a == b {
      KeepAllIsFree(a);
    }
  }

  /** Doing s and then t in one go costs no more than doing them one after the other. */
  lemma {:induction false} Compose<T>(s: Script<T>, t: Script<T>) returns (r: Script<T>)
    requires After(s) == Before(t)
    ensures Edits(r, Before(s), After(t)) && Cost(r) <= Cost(s) + Cost(t)
    decreases |s| + |t|
  {
    if s != [] && s[|s| - 1].Delete? {
      var init := s[..|s| - 1];
      assert After(init) + [] == After(init);
      var q := Compose(init, t);
      r := q + [s[|s| - 1]];
      Extend(q, s[|s| - 1]);
      assert After(t) + [] == After(t);
    } else if t != [] && t[|t| - 1].Insert? {
      var init := t[..|t| - 1];
      assert Before(init) + [] == Before(init);
      var q := Compose(s, init);
      r := q + [t[|t| - 1]];
      Extend(q, t[|t| - 1]);
      assert Before(s) + [] == Before(s);
    } else if s == [] {
      assert t == [];
      r := [];
    } else {
      assert t != [];
      var s0, e, t0, f := s[..|s| - 1], s[|s| - 1], t[..|t| - 1], t[|t| - 1];
      SameLast(After(s0), if e.Keep? then e.x else e.y, Before(t0), f.x);
      var q := Compose(s0, t0);
      r := ComposeLast(q, e, f);
    }
  }

  /** Two edits in a row, the second of what the first produced, are one edit or none. */
  lemma ComposeLast<T>(q: Script<T>, e: Edit<T>, f: Edit<T>) returns (r: Script<T>)
    requires !e.Delete? && !f.Insert? && f.x == if e.Keep? then e.x else e.y
    ensures Before(r) == Before(q) + Consumed(e) && After(r) == After(q) + Produced(f)
    ensures Cost(r) <= Cost(q) + (if e.Keep? then 0 else 1) + if f.Keep? then 0 else 1
  {
    hide Before, After, Cost;
    if e.Insert? && f.Delete? {
      r := q;
      assert Before(q) + [] == Before(q) && After(q) + [] == After(q);
    } else {
      var g: Edit<T> :=
        if e.Insert? then Insert(if f.Keep? then f.x else f.y)
        else if f.Delete? then Delete(e.x)
        else if e.Keep? && f.Keep? then Keep(e.x)
        else Substitute(e.x, if f.Keep? then f.x else f.y);
      r := q + [g];
      Extend(q, g);
    }
  }

  lemma SameLast<T>(a: seq<T>, x: T, b: seq<T>, y: T)
    requires a + [x] == b + [y]
    ensures a == b && x == y
  {
    assert |a + [x]| == |b + [y]|;
    assert a == (a + [x])[..|a|] && b == (b + [y])[..|b|];
    assert x == (a + [x])[|a|] && y == (b + [y])[|b|];
  }

  lemma DistanceTriangle<T>(a: seq<T>, b: seq<T>, c: seq<T>)
    ensures Distance(a, c) <= Distance(a, b) + Distance(b, c)
  {
    DistanceIsLeastCost(a, b);
    DistanceIsLeastCost(b, c);
    DistanceIsLeastCost(a, c);
    var s :| Edits(s, a, b) && Cost(s) == Distance(a, b);
    var t :| Edits(t, b, c) && Cost(t) == Distance(b, c);
    var r := Compose(s, t);
    assert Edits(r, a, c);
  }

  lemma {:induction false} PrefixBounds<T>(a: seq<T>, b: seq<T>, i: nat, j: nat)
    requires i <= |a| && j <= |b|
    ensures Prefix(a, b, i, j) <= if i < j then j else i
    ensures Prefix(a, b, i, j) >= if i < j then j - i else i - j
    decreases i + j
  {
    hide Prefix;
    if i == 0 || j == 0 {
      BorderAt(a, b, i, j);
    } else {
      Cell(a, b, i - 1, j - 1);
      PrefixBounds(a, b, i - 1, j - 1);
      PrefixBounds(a, b, i, j - 1);
      PrefixBounds(a, b, i - 1, j);
    }
  }

  // ----- The score -----

  /** Runes as code points; lower-casing, trimming and the letter and digit tables belong to the Unicode library. */
  type Rune = x: int | 0 <= x <= 0x10FFFF

  function Kept(s: seq<Rune>, isWord: Rune -> bool): seq<Rune> {
    if s == [] then []
    else Kept(s[..|s| - 1], isWord) + if isWord(s[|s| - 1]) then [s[|s| - 1]] else []
  }

  /** Exactly the word runes are kept, each where it stands among the others. */
  lemma {:induction false} KeptPicks(s: seq<Rune>, isWord: Rune -> bool) returns (at: seq<nat>)
    ensures Picks(s, isWord, Kept(s, isWord), at)
  {
    hide Picks;
    if s == [] {
      at := [];
      PicksNothing(isWord);
    } else {
      var front, x := s[..|s| - 1], s[|s| - 1];
      at := KeptPicks(front, isWord);
      PicksNext(front, x, isWord, Kept(front, isWord), at);
      assert s == front + [x];
      assert Kept(front, isWord) + [] == Kept(front, isWord);
      if isWord(x) {
        at := at + [|front|];
      }
    }
  }

  /** Each word rune is kept as often as it occurs, and no other rune at all. */
  lemma {:induction false} KeptCounts(s: seq<Rune>, isWord: Rune -> bool, x: Rune)
    ensures multiset(Kept(s, isWord))[x] == if isWord(x) then multiset(s)[x] else 0
  {
    if s == [] {
    } else {
      KeptCounts(s[..|s| - 1], isWord, x);
      assert s == s[..|s| - 1] + [s[|s| - 1]];
    }
  }

  /** A text of word runes only comes back unchanged. */
  lemma WordsAreKept(s: seq<Rune>, isWord: Rune -> bool)
    ensures Kept(s, isWord) == s <==> forall i :: 0 <= i < |s| ==> isWord(s[i])
  {
    var at := KeptPicks(s, isWord);
    if forall i :: 0 <= i < |s| ==> isWord(s[i]) {
      PicksAll(s, isWord, Kept(s, isWord), at);
    }
  }

  function Normalized(value: seq<Rune>, fold: seq<Rune> -> seq<Rune>, isWord: Rune -> bool): seq<Rune> {
    Kept(fold(value), isWord)
  }

  method NormalizedRunes(value: seq<Rune>, fold: seq<Rune> -> seq<Rune>, isWord: Rune -> bool)
    returns (output: seq<Rune>)
    ensures output == Normalized(value, fold, isWord)
    ensures exists at :: Picks(fold(value), isWord, output, at)
  {
    var folded := fold(value);
    ghost var at := KeptPicks(folded, isWord);
    output := [];
    for i := 0 to |folded|
      invariant output == Kept(folded[..i], isWord)
    {
      assert folded[..i + 1][..i] == folded[..i];
      if isWord(folded[i]) {
        output := output + [folded[i]];
      }
    }
    assert folded[..|folded|] == folded;
    assert Picks(folded, isWord, output, at);
  }

  function Longer<T>(a: seq<T>, b: seq<T>): nat {
    if |a| < |b| then |b| else |a|
  }

  function Similarity<T(==)>(a: seq<T>, b: seq<T>): real {
    if |a| == 0 && |b| == 0 then 1.0 else 1.0 - Distance(a, b) as real / Longer(a, b) as real
  }

  method TextSimilarity(left: seq<Rune>, right: seq<Rune>, fold: seq<Rune> -> seq<Rune>, isWord: Rune -> bool)
    returns (similarity: real)
    ensures similarity == Similarity(Normalized(left, fold, isWord), Normalized(right, fold, isWord))
    ensures 0.0 <= similarity <= 1.0
    ensures similarity == 1.0 <==> Normalized(left, fold, isWord) == Normalized(right, fold, isWord)
  {
    var a := NormalizedRunes(left, fold, isWord);
    var b := NormalizedRunes(right, fold, isWord);
    SimilarityInRange(a, b);
    if |a| == 0 && |b| == 0 {
      return 1.0;
    }
    var maxLength := |a|;
    if |b| > maxLength {
      maxLength := |b|;
    }
    var distance := ComputeDistance(a, b);
    similarity := 1.0 - distance as real / maxLength as real;
  }

  /** The score is in [0, 1], symmetric, and 1 exactly for equal texts. */
  lemma SimilarityInRange<T>(a: seq<T>, b: seq<T>)
    ensures 0.0 <= Similarity(a, b) <= 1.0
    ensures Similarity(a, b) == 1.0 <==> a == b
    ensures Similarity(a, b) == Similarity(b, a)
  {
    DistanceZeroExactlyOnEqual(a, b);
    DistanceSymmetric(a, b);
    PrefixBounds(a, b, |a|, |b|);
    if Longer(a, b) > 0 {
      QuotientInUnit(Distance(a, b), Longer(a, b));
    }
  }

  /** The score is 0 exactly when every rune of the longer text costs an edit. */
  lemma SimilarityZero<T>(a: seq<T>, b: seq<T>)
    ensures Similarity(a, b) == 0.0
            <==> !(a == [] && b == []) && Distance(a, b) == if |a| < |b| then |b| else |a|
  {
    PrefixBounds(a, b, |a|, |b|);
    var n := Longer(a, b);
    if n > 0 {
      WholeQuotient(Distance(a, b), n);
    }
  }

  /** Every edit costs the same share of the longer text. */
  lemma SimilarityScales<T>(a: seq<T>, b: seq<T>)
    requires a != [] || b != []
    ensures (1.0 - Similarity(a, b)) * (if |a| < |b| then |b| else |a|) as real == Distance(a, b) as real
  {
  }

  lemma WholeQuotient(d: nat, n: nat)
    requires 0 < n
    ensures d as real / n as real == 1.0 <==> d == n
  {
    if d as real / n as real == 1.0 {
      assert d as real == n as real;
    }
  }

  lemma QuotientInUnit(d: nat, n: nat)
    requires 0 < n && d <= n
    ensures 0.0 <= d as real / n as real <= 1.0
    ensures d as real / n as real == 0.0 <==> d == 0
  {
  }
}
