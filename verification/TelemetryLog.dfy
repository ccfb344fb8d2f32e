/** The device telemetry log: internal/server/device_telemetry.go, DeviceTelemetryStore. */
module TelemetryLog {
  import Arithmetic
  import opened Bytes
  import opened LineLog
  import opened Wrappers

  /** A telemetry sample; `rest` stands for its other fields. */
  datatype Sample = Sample(time: Line, rest: Line)

  type Limit = n: int | 0 < n witness 1

  /** How far past its limit the file may grow before it is rewritten. */
  function Extra(limit: Limit): (extra: nat)
    ensures 1 <= extra <= 128
    ensures limit < 20 ==> extra == 1
    ensures 20 <= limit < 1280 ==> extra * 10 <= limit < extra * 10 + 10
    ensures limit >= 1280 ==> extra == 128
  {
    var tenth := if limit / 10 > 1 then limit / 10 else 1;
    if tenth < 128 then tenth else 128
  }

  function Stamped(sample: Sample, now: Line): Sample {
    if sample.time == [] then sample.(time := now) else sample
  }

  lemma StampedMeans(sample: Sample, now: Line)
    ensures var stamped := Stamped(sample, now);
            && stamped.rest == sample.rest && (stamped.time == sample.time || sample.time == [])
            && (sample.time == [] ==> stamped.time == now)
  {
  }

  function Asked(n: int, limit: Limit): (m: nat)
    ensures 0 < m <= limit
    ensures 0 < n <= limit ==> m == n
    ensures n <= 0 || n > limit ==> m == 120 || (m == limit && limit < 120)
  {
    if 0 < n <= limit then n else if limit < 120 then limit else 120
  }

  /** The file was rewritten when the history had these lengths: always exactly `extra` appends apart. */
  predicate Spaced(rewrites: seq<nat>, extra: nat) {
    forall i :: 0 < i < |rewrites| ==> rewrites[i] == rewrites[i - 1] + extra
  }

  /** What a store that is in use keeps true between operations. */
  predicate Holds(records: seq<Line>, count: nat, history: seq<Line>, limit: Limit, rewrites: seq<nat>) {
    && count == |records|
    && records == LastN(history, count)
    && count < limit + Extra(limit)
    && (count >= limit || count == |history|)
    && (rewrites != [] ==> |history| - rewrites[|rewrites| - 1] == count - limit >= 0)
  }

  class DeviceTelemetryStore {
    var file: seq<Line>
    var count: nat
    var initialized: bool
    const limit: Limit
    const codec: Codec<Sample>

    /** Every record ever: those found at the start, then each appended one. */
    ghost var history: seq<Line>
    /** The length of the history at each rewrite of the file. */
    ghost var rewrites: seq<nat>

    ghost predicate Valid()
      reads this
    {
      && IsCodec(codec)
      && Spaced(rewrites, Extra(limit))
      && (!initialized ==> history == Records(file) && rewrites == [])
      && (initialized ==> Holds(Records(file), count, history, limit, rewrites))
    }

    constructor (file: seq<Line>, limit: int, codec: Codec<Sample>)
      requires IsCodec(codec)
      ensures Valid() && !initialized && this.file == file && this.codec == codec
      ensures this.limit == if limit > 0 then limit else 2880
    {
      this.file, this.codec := file, codec;
      this.limit := if limit > 0 then limit else 2880;
      count, initialized, history, rewrites := 0, false, Records(file), [];
    }

    method Ensure()
      requires Valid()
      modifies this`file, this`count, this`initialized, this`rewrites
      ensures Valid() && initialized
    {
      hide Records, LastN, IsCodec, Extra;
      if initialized {
        return;
      }
      count := CountLines(file);
      initialized := true;
      ghost var was := file;
      Prune();
      HoldsAtStart(was, file, count, limit);
    }

    /** Rewrites the file to its last `limit` records once it has grown far enough past the limit. A file found
        shorter than the recorded count only corrects the count. */
    method Prune()
      modifies this`file, this`count, this`rewrites
      ensures old(count) < limit + Extra(limit) ==>
                file == old(file) && count == old(count) && rewrites == old(rewrites)
      ensures old(count) >= limit + Extra(limit) && |Records(old(file))| <= limit ==>
                file == old(file) && count == |Records(file)| && rewrites == old(rewrites)
      ensures old(count) >= limit + Extra(limit) && |Records(old(file))| > limit ==>
                && Records(file) == file == LastN(Records(old(file)), limit)
                && count == limit && rewrites == old(rewrites) + [|history|]
    {
      hide Records, LastN, Extra;
      if count < limit + Extra(limit) {
        return;
      }
      var lines := ReadRecentLines(file, limit + 1);
      OneMore(Records(file), limit);
      if |lines| <= limit {
        count := |lines|;
        return;
      }
      lines := lines[|lines| - limit..];
      CleanTail(file, limit);
      file := lines;
      rewrites := rewrites + [|history|];
      count := |lines|;
    }

    method Append(sample: Sample, now: Line)
      requires Valid()
      modifies this
      ensures Valid() && initialized
      ensures history == old(history) + [codec.encode(Stamped(sample, now))]
    {
      hide Records, LastN, IsCodec, Extra, Stamped, Spaced, Holds;
      Ensure();
      var line := codec.encode(Stamped(sample, now));
      RecordsAppendEncoded(file, codec, Stamped(sample, now));
      ghost var was, before, recorded, marks := file, history, count, rewrites;
      file := file + [line];
      history := history + [line];
      count := count + 1;
      HoldsCounts(Records(was), recorded, before, limit, marks);
      Prune();
      HoldsAfterAppend(Records(was), recorded, before, limit, marks, line, Records(file), count, rewrites);
    }

    /** The newest samples first; lines that are not samples are skipped. */
    method Recent(n: int) returns (samples: seq<Sample>)
      ensures samples == Newest(LastN(Records(file), Asked(n, limit)), codec.decode)
      ensures Valid() && initialized ==> samples == Newest(LastN(history, Asked(n, limit)), codec.decode)
    {
      hide Records, LastN, IsCodec, Spaced, Holds, Newest;
      var lines := ReadRecentLines(file, Asked(n, limit));
      samples := DecodeNewest(lines, codec.decode);
      if Valid() && initialized {
        EnoughIsKept(Records(file), count, history, limit, rewrites, Asked(n, limit));
      }
    }
  }

  lemma OneMore(records: seq<Line>, limit: nat)
    ensures var lines := LastN(records, limit + 1);
      && (|lines| <= limit <==> |records| <= limit)
      && (|lines| <= limit ==> |lines| == |records|)
      && (|lines| > limit ==> |lines| == limit + 1 && lines[|lines| - limit..] == LastN(records, limit))
  {
  }

  lemma RecordsAppendEncoded(file: seq<Line>, codec: Codec<Sample>, sample: Sample)
    requires IsCodec(codec)
    ensures Records(file + [codec.encode(sample)]) == Records(file) + [codec.encode(sample)]
  {
    hide Records, TrimSpace;
    assert IsClean(codec.encode(sample));
    RecordsAppend(file, codec.encode(sample));
  }

  lemma HoldsAtStart(was: seq<Line>, file: seq<Line>, count: nat, limit: Limit)
    requires |Records(was)| < limit + Extra(limit) ==> file == was && count == |Records(was)|
    requires |Records(was)| >= limit + Extra(limit) ==> Records(file) == LastN(Records(was), limit) && count == limit
    ensures Holds(Records(file), count, Records(was), limit,
                  if |Records(was)| < limit + Extra(limit) then [] else [|Records(was)|])
  {
    hide Records, Extra;
  }

  lemma HoldsCounts(records: seq<Line>, count: nat, history: seq<Line>, limit: Limit, rewrites: seq<nat>)
    requires Holds(records, count, history, limit, rewrites)
    ensures count == |records| && count < limit + Extra(limit)
  {
  }

  lemma HoldsAfterAppend(records: seq<Line>, count: nat, history: seq<Line>, limit: Limit, rewrites: seq<nat>,
                         line: Line, records': seq<Line>, count': nat, rewrites': seq<nat>)
    requires Holds(records, count, history, limit, rewrites) && Spaced(rewrites, Extra(limit))
    requires count + 1 < limit + Extra(limit) ==>
               records' == records + [line] && count' == count + 1 && rewrites' == rewrites
    requires count + 1 >= limit + Extra(limit) ==>
               && records' == LastN(records + [line], limit) && count' == limit
               && rewrites' == rewrites + [|history| + 1]
    ensures Holds(records', count', history + [line], limit, rewrites') && Spaced(rewrites', Extra(limit))
  {
    hide Extra;
    assert |LastN(history + [line], count + 1)| == count + 1;
  }

  lemma EnoughIsKept(records: seq<Line>, count: nat, history: seq<Line>, limit: Limit, rewrites: seq<nat>, m: nat)
    requires Holds(records, count, history, limit, rewrites) && m <= limit
    ensures LastN(records, m) == LastN(history, m)
  {
    hide Extra;
  }

  /** The file is never shorter than min(history, limit) and always shorter than limit + extra. */
  lemma SizeBounds(records: seq<Line>, count: nat, history: seq<Line>, limit: Limit, rewrites: seq<nat>)
    requires Holds(records, count, history, limit, rewrites)
    ensures (if |history| < limit then |history| else limit) <= |records| < limit + Extra(limit)
    ensures records == history[|history| - |records|..]
  {
    hide Extra;
  }

  lemma {:induction false} SpacedSpan(rewrites: seq<nat>, extra: nat)
    requires Spaced(rewrites, extra) && rewrites != []
    ensures rewrites[|rewrites| - 1] == rewrites[0] + (|rewrites| - 1) * extra
  {
    if |rewrites| > 1 {
      var init := rewrites[..|rewrites| - 1];
      SpacedSpan(init, extra);
      assert (|rewrites| - 1) * extra == (|rewrites| - 2) * extra + extra;
    }
  }

  /** Rewriting is paid for by appends: over its whole life the store rewrites at most once, and once more for every
      `extra` records appended, so the lines it copies stay within limit * (1 + appended / extra). */
  lemma RewritesAreAmortised(records: seq<Line>, count: nat, history: seq<Line>, limit: Limit, rewrites: seq<nat>)
    requires Holds(records, count, history, limit, rewrites) && Spaced(rewrites, Extra(limit)) && rewrites != []
    ensures |rewrites| - 1 == (|history| - rewrites[0]) / Extra(limit)
    ensures |history| - rewrites[0] == (|rewrites| - 1) * Extra(limit) + (|records| - limit)
  {
    hide LastN;
    SpacedSpan(rewrites, Extra(limit));
    var extra, n, r := Extra(limit), |rewrites| - 1, |records| - limit;
    hide Extra;
    Arithmetic.QuotientIsUnique(n * extra + r, extra, n, r);
  }
}
