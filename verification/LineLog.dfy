/** Line files and the shift-in-place window over them, as used by the two bounded logs of internal/server. */
module LineLog {
  import opened Bytes
  import opened Picking
  import Trimming
  import opened Wrappers

  type Line = seq<byte>

  /** A line that trimming leaves alone and that is not blank. */
  predicate IsClean(s: Line) {
    s != [] && TrimSpace(s) == s
  }

  lemma TrimIsClean(s: Line)
    ensures TrimSpace(s) != [] ==> IsClean(TrimSpace(s))
  {
    var t := TrimSpace(s);
    hide Trimming.TrimLeft, Trimming.TrimRight, Trimming.Trim;
    if t != [] {
      assert t[0..|t|] == t;
      Trimming.TrimIsOnly(t, IsSpace, 0, |t|);
    }
  }

  /** The records of a file: its non-blank lines, trimmed. */
  function Records(file: seq<Line>): seq<Line> {
    if file == [] then []
    else
      var line := TrimSpace(file[|file| - 1]);
      Records(file[..|file| - 1]) + if line == [] then [] else [line]
  }

  lemma {:induction false} RecordsAppend(file: seq<Line>, line: Line)
    ensures Records(file + [line]) == Records(file) + if TrimSpace(line) == [] then [] else [TrimSpace(line)]
  {
    assert (file + [line])[..|file|] == file;
  }

  /** They are those lines in order, each without the white space around it. */
  lemma {:induction false} RecordsArePicked(file: seq<Line>) returns (kept: seq<Line>, at: seq<nat>)
    ensures Picks(file, (line: Line) => TrimSpace(line) != [], kept, at)
    ensures |Records(file)| == |kept| && forall i :: 0 <= i < |kept| ==> Records(file)[i] == TrimSpace(kept[i])
    decreases |file|
  {
    hide TrimSpace, Picks;
    var wanted := (line: Line) => TrimSpace(line) != [];
    if file == [] {
      kept, at := [], [];
      PicksNothing(wanted);
    } else {
      var init, last := file[..|file| - 1], file[|file| - 1];
      kept, at := RecordsArePicked(init);
      PicksNext(init, last, wanted, kept, at);
      assert init + [last] == file;
      if wanted(last) {
        kept, at := kept + [last], at + [|init|];
      }
    }
  }

  predicate AllClean(lines: seq<Line>) {
    forall i :: 0 <= i < |lines| ==> IsClean(lines[i])
  }

  lemma {:induction false} RecordsAreClean(file: seq<Line>)
    ensures AllClean(Records(file))
  {
    hide TrimSpace, IsClean;
    if file == [] {
    } else {
      RecordsAreClean(file[..|file| - 1]);
      TrimIsClean(file[|file| - 1]);
    }
  }

  lemma {:induction false} RecordsOfClean(file: seq<Line>)
    requires AllClean(file)
    ensures Records(file) == file
  {
    if file == [] {
    } else {
      RecordsOfClean(file[..|file| - 1]);
      assert file == file[..|file| - 1] + [file[|file| - 1]];
    }
    hide TrimSpace;
  }

  /** The last n of a sequence, or all of it. */
  function LastN<T>(s: seq<T>, n: nat): (r: seq<T>)
    ensures |r| == if |s| <= n then |s| else n
  {
    if |s| <= n then s else s[|s| - n..]
  }

  lemma LastNIsTail<T>(s: seq<T>, n: nat)
    ensures LastN(s, n) == s[|s| - |LastN(s, n)|..] && (|LastN(s, n)| == n || LastN(s, n) == s)
  {
  }

  /** Writing the last records back as the whole file loses nothing of them. */
  lemma CleanTail(file: seq<Line>, limit: nat)
    ensures Records(LastN(Records(file), limit)) == LastN(Records(file), limit)
  {
    hide Records, IsClean;
    RecordsAreClean(file);
    RecordsOfClean(LastN(Records(file), limit));
  }

  lemma LastNOfLastN<T>(s: seq<T>, n: nat, m: nat)
    ensures LastN(LastN(s, n), m) == LastN(s, if m < n then m else n)
  {
  }

  lemma LastNAppend<T>(s: seq<T>, n: nat, x: T)
    ensures n > 0 ==> LastN(s + [x], n) == LastN(LastN(s, n) + [x], n)
    ensures n > 0 ==> LastN(s + [x], n) == (if |LastN(s, n)| == n then LastN(s, n)[1..] else LastN(s, n)) + [x]
  {
  }

  /** Scans a file keeping a window of at most `limit` records, shifting it left in place when it is full. */
  method ReadRecentLines(file: seq<Line>, limit: nat) returns (recent: seq<Line>)
    requires limit > 0
    ensures recent == LastN(Records(file), limit)
  {
    hide TrimSpace, Records, LastN;
    EmptyFile(file, limit);
    var lines := new Line[limit](_ => []);
    var size := 0;
    for i := 0 to |file|
      invariant size <= limit && lines[..size] == LastN(Records(file[..i]), limit)
    {
      assert file[..i + 1] == file[..i] + [file[i]];
      RecordsAppend(file[..i], file[i]);
      var line := TrimSpace(file[i]);
      if line == [] {
        assert Records(file[..i]) + [] == Records(file[..i]);
        continue;
      }
      LastNAppend(Records(file[..i]), limit, line);
      WindowSize(Records(file[..i]), limit);
      ghost var window := lines[..size];
      if size == limit {
        ShiftLeft(lines);
        lines[size - 1] := line;
        assert lines[..size] == window[1..] + [line];
      } else {
        lines[size] := line;
        size := size + 1;
        assert lines[..size] == window + [line];
      }
    }
    assert file[..|file|] == file;
    recent := lines[..size];
  }

  lemma EmptyFile(file: seq<Line>, limit: nat)
    ensures LastN(Records(file[..0]), limit) == []
  {
  }

  lemma WindowSize<T>(s: seq<T>, limit: nat)
    ensures |LastN(s, limit)| <= limit
  {
  }

  /** copy(lines, lines[1:]) */
  method ShiftLeft(lines: array<Line>)
    requires lines.Length > 0
    modifies lines
    ensures lines[..lines.Length - 1] == old(lines[1..])
  {
    for i := 0 to lines.Length - 1
      invariant forall k :: 0 <= k < i ==> lines[k] == old(lines[k + 1])
      invariant forall k :: i <= k < lines.Length ==> lines[k] == old(lines[k])
    {
      lines[i] := lines[i + 1];
    }
  }

  method CountLines(file: seq<Line>) returns (count: nat)
    ensures count == |Records(file)|
  {
    hide TrimSpace;
    count := 0;
    for i := 0 to |file|
      invariant count == |Records(file[..i])|
    {
      assert file[..i + 1][..i] == file[..i];
      if TrimSpace(file[i]) != [] {
        count := count + 1;
      }
    }
    assert file[..|file|] == file;
  }

  // ----- Records as values -----

  /** How a store's values and lines correspond; JSON itself is not modelled. */
  datatype Codec<!R> = Codec(encode: R -> Line, decode: Line -> Option<R>)

  ghost predicate IsCodec<R(!new)>(codec: Codec<R>) {
    forall r :: IsClean(codec.encode(r)) && codec.decode(codec.encode(r)) == Some(r)
  }

  /** The values of some lines, newest first; lines that do not decode are skipped. */
  function Newest<R>(lines: seq<Line>, decode: Line -> Option<R>): seq<R> {
    if lines == [] then []
    else
      var last := decode(lines[|lines| - 1]);
      (if last.Some? then [last.value] else []) + Newest(lines[..|lines| - 1], decode)
  }

  /** They are the values of exactly the lines that decode, in the opposite order. */
  lemma {:induction false} NewestArePicked<R>(lines: seq<Line>, decode: Line -> Option<R>)
    returns (kept: seq<Line>, at: seq<nat>)
    ensures Picks(lines, (line: Line) => decode(line).Some?, kept, at)
    ensures var r := Newest(lines, decode);
            |r| == |kept| && forall i :: 0 <= i < |kept| ==> Some(r[i]) == decode(kept[|kept| - 1 - i])
    decreases |lines|
  {
    hide Picks;
    var wanted := (line: Line) => decode(line).Some?;
    if lines == [] {
      kept, at := [], [];
      PicksNothing(wanted);
    } else {
      var init, last := lines[..|lines| - 1], lines[|lines| - 1];
      kept, at := NewestArePicked(init, decode);
      PicksNext(init, last, wanted, kept, at);
      assert init + [last] == lines;
      if wanted(last) {
        kept, at := kept + [last], at + [|init|];
      }
    }
  }

  method DecodeNewest<R>(lines: seq<Line>, decode: Line -> Option<R>) returns (values: seq<R>)
    ensures values == Newest(lines, decode)
  {
    values := [];
    var i := |lines|;
    assert lines[..|lines|] == lines;
    while i > 0
      invariant 0 <= i <= |lines| && Newest(lines, decode) == values + Newest(lines[..i], decode)
    {
      i := i - 1;
      assert lines[..i + 1][..i] == lines[..i];
      var value := decode(lines[i]);
      ghost var rest := Newest(lines[..i], decode);
      if value.Some? {
        assert values + ([value.value] + rest) == (values + [value.value]) + rest;
        values := values + [value.value];
      } else {
        assert values + ([] + rest) == values + rest;
      }
    }
    assert values + [] == values;
  }

  function EncodeAll<R>(values: seq<R>, encode: R -> Line): (lines: seq<Line>)
    ensures |lines| == |values|
  {
    seq(|values|, i requires 0 <= i < |values| => encode(values[i]))
  }

  function Reversed<T>(s: seq<T>): seq<T> {
    if s == [] then [] else [s[|s| - 1]] + Reversed(s[..|s| - 1])
  }

  lemma {:induction false} ReversedIsBackwards<T>(s: seq<T>, k: nat)
    requires k < |s|
    ensures |Reversed(s)| == |s| && Reversed(s)[k] == s[|s| - 1 - k]
    decreases |s|
  {
    if |s| > 1 {
      ReversedIsBackwards(s[..|s| - 1], if k > 0 then k - 1 else 0);
    }
  }

  /** Reading back encoded values gives exactly those values, newest first. */
  lemma {:induction false} NewestOfEncoded<R(!new)>(values: seq<R>, codec: Codec<R>)
    requires IsCodec(codec)
    ensures Newest(EncodeAll(values, codec.encode), codec.decode) == Reversed(values)
  {
    if values == [] {
    } else {
      NewestOfEncoded(values[..|values| - 1], codec);
      assert EncodeAll(values, codec.encode)[..|values| - 1] == EncodeAll(values[..|values| - 1], codec.encode);
    }
  }

  /** Asking a log that keeps the last `limit` of its values for n of them gives the newest min(n, limit). */
  lemma NewestOfKept<R(!new)>(values: seq<R>, codec: Codec<R>, limit: nat, n: nat)
    requires IsCodec(codec)
    ensures Newest(LastN(LastN(EncodeAll(values, codec.encode), limit), n), codec.decode)
         == Reversed(LastN(values, if n < limit then n else limit))
  {
    var m := if n < limit then n else limit;
    LastNOfLastN(EncodeAll(values, codec.encode), limit, n);
    assert LastN(EncodeAll(values, codec.encode), m) == EncodeAll(LastN(values, m), codec.encode);
    NewestOfEncoded(LastN(values, m), codec);
  }
}
