/** Silence trimming before speech recognition: internal/server/audio_trim.go, trimWAVSilence. */
module AudioTrim {
  import opened Arithmetic
  import opened Bytes
  import opened Wav
  import opened Wrappers

  const MIN_SAVINGS_MS: nat := 300
  const MIN_RMS: real := 0.0045
  const MAX_RMS: real := 0.018
  const RELATIVE_TO_PEAK: real := 0.12

  // ----- Multiples -----

  /** The position of the i-th unit of size w. */
  function At(i: int, w: nat): int {
    i * w
  }

  lemma AtAdds(i: int, j: int, w: nat)
    ensures At(i + j, w) == At(i, w) + At(j, w) && At(i - j, w) == At(i, w) - At(j, w)
    ensures At(0, w) == 0 && At(1, w) == w
    ensures At(i + 1, w) == At(i, w) + w
    ensures i >= 0 ==> At(i, w) >= 0
    ensures i < j ==> At(i, w) + w <= At(j, w)
    ensures i <= j ==> At(i, w) <= At(j, w)
  {
    if i < j {
      TimesAtLeast(j - i, w);
      assert (j - i) * w == j * w - i * w;
    }
    assert (i + j) * w == i * w + j * w && (i - j) * w == i * w - j * w;
  }

  lemma AtQuotient(n: nat, w: nat)
    requires w > 0
    ensures At(n / w, w) <= n < At(n / w, w) + w
    ensures n % w == 0 ==> At(n / w, w) == n
  {
  }

  // ----- Windows -----

  function WindowFrames(rate: nat): (w: nat)
    ensures w > 0
  {
    Max(1, rate * 20 / 1000)
  }

  function WindowCount(total: nat, w: nat): nat
    requires w > 0
  {
    (total + w - 1) / w
  }

  /** There is a window exactly where its first frame is inside the audio. */
  lemma WindowExists(total: nat, w: nat, i: nat)
    requires w > 0
    ensures i < WindowCount(total, w) <==> At(i, w) < total
  {
    var c := WindowCount(total, w);
    AtQuotient(total + w - 1, w);
    AtAdds(i, c, w);
    AtAdds(c, i, w);
    hide At;
  }

  /** Frames a up to b of the audio. */
  function Stretch(pcm: seq<byte>, bpf: nat, a: nat, b: nat): seq<byte>
    requires a <= b && 0 <= At(a, bpf) <= At(b, bpf) <= |pcm|
  {
    pcm[At(a, bpf)..At(b, bpf)]
  }

  /** The audio consists of whole frames. */
  ghost predicate Whole(pcm: seq<byte>, bpf: nat, total: nat) {
    bpf > 0 && |pcm| == At(total, bpf)
  }

  lemma StretchFits(pcm: seq<byte>, bpf: nat, total: nat, a: nat, b: nat)
    requires Whole(pcm, bpf, total) && a <= b <= total
    ensures 0 <= At(a, bpf) <= At(b, bpf) <= |pcm|
  {
    AtAdds(0, a, bpf);
    AtAdds(a, b, bpf);
    AtAdds(b, total, bpf);
  }

  lemma StretchOfStretch(pcm: seq<byte>, bpf: nat, total: nat, s: nat, e: nat, a: nat, b: nat)
    requires Whole(pcm, bpf, total) && s <= e <= total && a <= b <= e - s
    ensures 0 <= At(s, bpf) <= At(e, bpf) <= |pcm|
    ensures Whole(Stretch(pcm, bpf, s, e), bpf, e - s)
    ensures 0 <= At(a, bpf) <= At(b, bpf) <= |Stretch(pcm, bpf, s, e)|
    ensures 0 <= At(s + a, bpf) <= At(s + b, bpf) <= |pcm|
    ensures Stretch(Stretch(pcm, bpf, s, e), bpf, a, b) == Stretch(pcm, bpf, s + a, s + b)
  {
    StretchFits(pcm, bpf, total, s, e);
    AtAdds(e, s, bpf);
    AtAdds(s, a, bpf);
    AtAdds(s, b, bpf);
    var cut := Stretch(pcm, bpf, s, e);
    assert Whole(cut, bpf, e - s);
    StretchFits(cut, bpf, e - s, a, b);
    StretchFits(pcm, bpf, total, s + a, s + b);
    hide At;
    SliceOfSlice(pcm, At(s, bpf), At(e, bpf), At(a, bpf), At(b, bpf));
  }

  /** One window; the last one may be short. */
  function Window(pcm: seq<byte>, bpf: nat, total: nat, w: nat, i: nat): seq<byte>
    requires Whole(pcm, bpf, total) && w > 0 && 0 <= At(i, w) < total
  {
    var end := Min(At(i, w) + w, total);
    StretchFits(pcm, bpf, total, At(i, w), end);
    Stretch(pcm, bpf, At(i, w), end)
  }

  // ----- Loudness -----

  /** The k-th 16-bit sample, little-endian and signed. */
  function SampleOf(x: seq<byte>, k: nat): (v: int)
    requires 2 * k + 2 <= |x|
    ensures -32768 <= v < 32768
  {
    var u: int := U16(x, 2 * k);
    if u < 32768 then u else u - 65536
  }

  /** The sum of the squares of the first n samples. */
  function SumSquares(x: seq<byte>, n: nat): int
    requires 2 * n <= |x|
  {
    if n == 0 then 0 else SumSquares(x, n - 1) + SampleOf(x, n - 1) * SampleOf(x, n - 1)
  }

  /** The mean of the squared samples, full scale being one. */
  function MeanSquare(x: seq<byte>): real {
    if |x| < 2 then 0.0 else SumSquares(x, |x| / 2) as real / 1073741824.0 / (|x| / 2) as real
  }

  /** The measure is the root mean square; only the rounding of its floating-point value is not modelled. */
  ghost predicate IsRms(level: seq<byte> -> real) {
    forall x :: level(x) >= 0.0 && level(x) * level(x) == MeanSquare(x)
  }

  /** The loudness of every window; most results hold for every measure, so the root mean square is not built in. */
  function Levels(pcm: seq<byte>, bpf: nat, total: nat, w: nat, level: seq<byte> -> real): (r: seq<real>)
    requires Whole(pcm, bpf, total) && w > 0
    ensures |r| == WindowCount(total, w)
  {
    seq(WindowCount(total, w), i requires 0 <= i < WindowCount(total, w) =>
      WindowExists(total, w, i);
      AtAdds(0, i, w);
      level(Window(pcm, bpf, total, w, i)))
  }

  function Larger(a: real, b: real): real {
    if a < b then b else a
  }

  function Smaller(a: real, b: real): real {
    if a < b then a else b
  }

  function Peak(levels: seq<real>): (p: real)
    ensures p >= 0.0
    ensures forall i :: 0 <= i < |levels| ==> levels[i] <= p
  {
    if levels == [] then 0.0 else Larger(Peak(levels[..|levels| - 1]), levels[|levels| - 1])
  }

  lemma {:induction false} PeakOfPart(levels: seq<real>, bound: real)
    requires bound >= 0.0 && forall i :: 0 <= i < |levels| ==> levels[i] <= bound
    ensures Peak(levels) <= bound
  {
    if levels == [] {
    } else {
      PeakOfPart(levels[..|levels| - 1], bound);
    }
  }

  function Threshold(peak: real): real {
    Larger(MIN_RMS, Smaller(MAX_RMS, peak * RELATIVE_TO_PEAK))
  }

  lemma ThresholdIsMonotone(p: real, q: real)
    requires p <= q
    ensures Threshold(p) <= Threshold(q)
  {
  }

  function ActiveWindows(levels: seq<real>): (r: seq<bool>)
    ensures |r| == |levels|
  {
    var threshold := Threshold(Peak(levels));
    seq(|levels|, i requires 0 <= i < |levels| => levels[i] >= threshold)
  }

  /** 1 where there is an active window, 0 elsewhere and beyond either end. */
  function Count(active: seq<bool>, i: int): nat {
    if 0 <= i < |active| && active[i] then 1 else 0
  }

  /** At least two of a window and its neighbours are active. */
  predicate Stable(active: seq<bool>, i: nat) {
    Count(active, i - 1) + Count(active, i) + Count(active, i + 1) >= 2
  }

  ghost predicate IsFirstStable(active: seq<bool>, first: int) {
    if first < 0 then forall i :: 0 <= i < |active| ==> !Stable(active, i)
    else first < |active| && Stable(active, first) && forall i :: 0 <= i < first ==> !Stable(active, i)
  }

  ghost predicate IsLastStable(active: seq<bool>, last: int) {
    if last < 0 then forall i :: 0 <= i < |active| ==> !Stable(active, i)
    else last < |active| && Stable(active, last) && forall i :: last < i < |active| ==> !Stable(active, i)
  }

  function FirstStable(active: seq<bool>, from: nat): (r: int)
    requires from <= |active|
    requires forall i :: 0 <= i < from ==> !Stable(active, i)
    ensures IsFirstStable(active, r)
    decreases |active| - from
  {
    if from == |active| then -1 else if Stable(active, from) then from else FirstStable(active, from + 1)
  }

  function LastStable(active: seq<bool>, till: nat): (r: int)
    requires till <= |active|
    requires forall i :: till <= i < |active| ==> !Stable(active, i)
    ensures IsLastStable(active, r)
  {
    if till == 0 then -1 else if Stable(active, till - 1) then till - 1 else LastStable(active, till - 1)
  }

  // ----- What to keep -----

  datatype Bounds = Bounds(start: int, end: int)

  /** The stable windows with 200 ms before and 300 ms after, within the audio. */
  function KeptFrames(total: nat, rate: nat, first: nat, last: nat): Bounds {
    var w := WindowFrames(rate);
    Bounds(Max(0, At(first, w) - rate * 200 / 1000), Min(total, At(last + 1, w) + rate * 300 / 1000))
  }

  lemma BoundsAreInside(total: nat, rate: nat, first: nat, last: nat)
    requires first <= last < WindowCount(total, WindowFrames(rate))
    ensures var b := KeptFrames(total, rate, first, last);
            0 <= b.start <= At(first, WindowFrames(rate)) < b.end <= total
  {
    var w := WindowFrames(rate);
    WindowExists(total, w, first);
    AtAdds(first, last + 1, w);
    AtAdds(0, first, w);
    hide At;
  }

  datatype Stats = Stats(originalMS: int, inputMS: int, trimmedMS: int, applied: bool)

  datatype Trimmed = Trimmed(data: seq<byte>, stats: Stats, ok: bool)

  function DurationMS(frames: int, rate: nat): int
    requires rate > 0
  {
    frames * 1000 / rate
  }

  /** What the reader guarantees of a 16-bit file. */
  predicate Readable(wav: PcmWav) {
    && wav.channels > 0 && wav.sampleRate > 0 && wav.bitsPerSample == 16
    && 0 < |wav.pcm| < TWO32 && |wav.pcm| % (2 * wav.channels as int) == 0
  }

  function FrameBytes(wav: PcmWav): (bpf: nat)
    requires Readable(wav)
    ensures bpf > 0
  {
    2 * wav.channels as int
  }

  function Frames(wav: PcmWav): (total: nat)
    requires Readable(wav)
    ensures Whole(wav.pcm, FrameBytes(wav), total)
  {
    AtQuotient(|wav.pcm|, FrameBytes(wav));
    |wav.pcm| / FrameBytes(wav)
  }

  function Active(wav: PcmWav, level: seq<byte> -> real): (active: seq<bool>)
    requires Readable(wav)
    ensures |active| == WindowCount(Frames(wav), WindowFrames(wav.sampleRate))
  {
    ActiveWindows(Levels(wav.pcm, FrameBytes(wav), Frames(wav), WindowFrames(wav.sampleRate), level))
  }

  datatype Clip = Nothing | Clip(start: nat, end: nat)

  /** The stable windows span first to last. */
  ghost predicate StableSpan(active: seq<bool>, first: int, last: int) {
    && 0 <= first <= last < |active| && Stable(active, first) && Stable(active, last)
    && forall i :: 0 <= i < |active| && Stable(active, i) ==> first <= i <= last
  }

  lemma StableOrdered(active: seq<bool>, first: int, last: int)
    requires IsFirstStable(active, first) && IsLastStable(active, last)
    ensures first < 0 <==> last < 0
    ensures first >= 0 ==> StableSpan(active, first, last)
  {
    hide Stable;
  }

  /** The frames worth keeping, if there is speech at all. */
  function SpeechClip(total: nat, rate: nat, active: seq<bool>): (c: Clip)
    requires |active| == WindowCount(total, WindowFrames(rate))
    ensures c.Clip? ==> c.start < c.end <= total
  {
    var first, last := FirstStable(active, 0), LastStable(active, |active|);
    StableOrdered(active, first, last);
    if first < 0 then Nothing
    else
      BoundsAreInside(total, rate, first, last);
      var b := KeptFrames(total, rate, first, last);
      Clip(b.start, b.end)
  }

  function Part(wav: PcmWav, start: nat, end: nat): (pcm: seq<byte>)
    requires Readable(wav) && start <= end <= Frames(wav)
  {
    StretchFits(wav.pcm, FrameBytes(wav), Frames(wav), start, end);
    Stretch(wav.pcm, FrameBytes(wav), start, end)
  }

  /** The result for a parsed 16-bit file. */
  function TrimParsed(data: seq<byte>, wav: PcmWav, level: seq<byte> -> real): Trimmed
    requires Readable(wav)
  {
    var original := DurationMS(Frames(wav), wav.sampleRate);
    var asGiven := Trimmed(data, Stats(original, original, 0, false), true);
    match SpeechClip(Frames(wav), wav.sampleRate, Active(wav, level))
    case Nothing => asGiven
    case Clip(start, end) =>
      var input := DurationMS(end - start, wav.sampleRate);
      if original - input < MIN_SAVINGS_MS then asGiven
      else Trimmed(Encode(wav.channels, wav.sampleRate, Part(wav, start, end)),
                   Stats(original, input, original - input, true), true)
  }

  function Trim(data: seq<byte>, level: seq<byte> -> real): Trimmed {
    match Parse(data)
    case None => Trimmed(data, Stats(0, 0, 0, false), false)
    case Some(wav) =>
      if wav.bitsPerSample != 16 then Trimmed(data, Stats(0, 0, 0, false), false)
      else
        ParsedIsReadable(data);
        TrimParsed(data, wav, level)
  }

  lemma ParsedIsReadable(data: seq<byte>)
    requires Parse(data).Some? && Parse(data).value.bitsPerSample == 16
    ensures Readable(Parse(data).value)
  {
    ParsedFacts(data);
    hide Parse;
    assert Parse(data).value.channels as int * 16 / 8 == 2 * Parse(data).value.channels as int;
  }

  // ----- What counts as speech, and when it is cut out -----

  /** A window lasts 20 ms, rounded down to whole frames but at least one. */
  lemma WindowIs20MS(rate: nat)
    ensures var w := WindowFrames(rate);
            if rate < 50 then w == 1 else 50 * w <= rate < 50 * w + 50
  {
  }

  lemma {:induction false} PeakIsAttained(levels: seq<real>)
    ensures Peak(levels) == 0.0 || Peak(levels) in levels
  {
    if levels != [] {
      PeakIsAttained(levels[..|levels| - 1]);
    }
  }

  /** A window is active from 0.018 on, and from 0.0045 on when it reaches twelve percent of the loudest one. */
  lemma ActiveMeans(levels: seq<real>, i: nat)
    requires i < |levels|
    ensures ActiveWindows(levels)[i]
            <==> levels[i] >= 0.018
                 || (levels[i] >= 0.0045 && forall k :: 0 <= k < |levels| ==> levels[i] >= 0.12 * levels[k])
  {
    PeakIsAttained(levels);
    hide Peak;
    if levels[i] >= 0.0045 && forall k :: 0 <= k < |levels| ==> levels[i] >= 0.12 * levels[k] {
      assert levels[i] >= 0.12 * Peak(levels);
    }
  }

  lemma StableMeans(active: seq<bool>, i: nat)
    ensures Stable(active, i)
            <==> exists j, k :: 0 <= j < k < |active| && i - 1 <= j && k <= i + 1 && active[j] && active[k]
  {
    if 0 < i <= |active| && active[i - 1] {
      assert i < |active| && active[i] ==> Stable(active, i);
      assert i + 1 < |active| && active[i + 1] ==> Stable(active, i);
    }
  }

  /** The clip runs from 200 ms before the first stable window to 300 ms after the last one, within the audio. */
  lemma ClipIsTight(total: nat, rate: nat, active: seq<bool>)
    requires |active| == WindowCount(total, WindowFrames(rate))
    ensures var c, w := SpeechClip(total, rate, active), WindowFrames(rate);
            && (c.Nothing? <==> forall i :: 0 <= i < |active| ==> !Stable(active, i))
            && (c.Clip? ==> exists first, last :: StableSpan(active, first, last)
                              && c.start == Max(0, first * w - rate * 200 / 1000)
                              && c.end == Min(total, (last + 1) * w + rate * 300 / 1000))
  {
    hide Stable, WindowFrames, FirstStable, LastStable;
    var first, last := FirstStable(active, 0), LastStable(active, |active|);
    StableOrdered(active, first, last);
  }

  /**
   * A file is cut exactly when it is 16-bit audio with speech in it and at least 300 ms of it are not worth keeping; in
   * every other case it is returned as it came.
   */
  lemma CutExactlyWhenWorthIt(data: seq<byte>, level: seq<byte> -> real)
    ensures var out := Trim(data, level);
            && (out.ok <==> Parse(data).Some? && Parse(data).value.bitsPerSample == 16)
            && (!out.stats.applied ==>
                  out.data == data && out.stats.trimmedMS == 0 && out.stats.inputMS == out.stats.originalMS)
            && (!out.ok ==> !out.stats.applied && out.stats.originalMS == 0)
    ensures Parse(data).Some? && Readable(Parse(data).value) ==>
              var wav, out := Parse(data).value, Trim(data, level);
              var c, rate := SpeechClip(Frames(wav), wav.sampleRate, Active(wav, level)), wav.sampleRate;
              && out.stats.originalMS == Frames(wav) * 1000 / rate
              && (out.stats.applied
                  <==> c.Clip? && Frames(wav) * 1000 / rate - (c.end - c.start) * 1000 / rate >= 300)
  {
    hide Parse, Frames, Active, SpeechClip, Encode, Part;
    if Parse(data).Some? && Parse(data).value.bitsPerSample == 16 {
      ParsedIsReadable(data);
    }
  }

  // ----- Speech is preserved -----

  /** Frames s up to e of `wav` hold every stable window with its pre- and post-roll, up to the edges of the file. */
  ghost predicate HoldsSpeech(wav: PcmWav, active: seq<bool>, s: nat, e: nat)
    requires Readable(wav)
  {
    var w := WindowFrames(wav.sampleRate);
    && s < e <= Frames(wav)
    && forall i :: 0 <= i < |active| && Stable(active, i) ==>
         && s <= Max(0, At(i, w) - wav.sampleRate * 200 / 1000)
         && Min(Frames(wav), At(i + 1, w) + wav.sampleRate * 300 / 1000) <= e
  }

  /** The duration `wavAudioStats` reports for 16-bit audio. */
  function StatsDurationMS(wav: PcmWav): int
    requires Readable(wav)
  {
    var bytesPerSecond := wav.sampleRate as int * wav.channels as int * 16 / 8;
    assert wav.sampleRate as int * wav.channels as int >= 1 by { TimesAtLeast(wav.channels, wav.sampleRate); }
    |wav.pcm| * 1000 / bytesPerSecond
  }

  lemma Distributes(x: int, y: int, k: int)
    ensures (x + y) * k == x * k + y * k && (x - y) * k == x * k - y * k
  {
  }

  lemma Reassociates(b: int, q: int, k: int)
    ensures (b * q) * k == q * (b * k)
  {
  }

  lemma SameQuotient(a: nat, b: nat, k: nat)
    requires b > 0 && k > 0
    ensures b * k > 0 && (a * k) / (b * k) == a / b
  {
    var q, r := a / b, a % b;
    TimesAtLeast(b, k);
    TimesAtLeast(b - r, k);
    Distributes(b, r, k);
    Distributes(b * q, r, k);
    Reassociates(b, q, k);
    var x, d, rest := a * k, b * k, r * k;
    assert a == b * q + r;
    assert x == q * d + rest;
    if r > 0 {
      TimesAtLeast(r, k);
    }
    QuotientIsUnique(x, d, q, rest);
  }

  lemma DurationsAgree(wav: PcmWav, frames: nat)
    requires Readable(wav) && Whole(wav.pcm, FrameBytes(wav), frames)
    ensures StatsDurationMS(wav) == DurationMS(frames, wav.sampleRate)
  {
    var bpf := FrameBytes(wav);
    SameQuotient(frames * 1000, wav.sampleRate, bpf);
    assert |wav.pcm| * 1000 == frames * 1000 * bpf by {
      assert |wav.pcm| == frames * bpf;
    }
    assert wav.sampleRate as int * wav.channels as int * 16 / 8 == wav.sampleRate * bpf;
  }

  lemma ClipHoldsSpeech(wav: PcmWav, active: seq<bool>)
    requires Readable(wav) && |active| == WindowCount(Frames(wav), WindowFrames(wav.sampleRate))
    requires SpeechClip(Frames(wav), wav.sampleRate, active).Clip?
    ensures var c := SpeechClip(Frames(wav), wav.sampleRate, active);
            HoldsSpeech(wav, active, c.start, c.end)
  {
    var first, last := FirstStable(active, 0), LastStable(active, |active|);
    StableOrdered(active, first, last);
    var w := WindowFrames(wav.sampleRate);
    forall i | 0 <= i < |active| && Stable(active, i)
      ensures At(first, w) <= At(i, w) && At(i + 1, w) <= At(last + 1, w)
    {
      AtAdds(first, i, w);
      AtAdds(i + 1, last + 1, w);
    }
    hide Stable, At, WindowFrames, Frames, FirstStable, LastStable;
  }

  lemma PartReadsBack(wav: PcmWav, start: nat, end: nat)
    requires Readable(wav) && start < end <= Frames(wav)
    ensures var part := Part(wav, start, end);
            && Whole(part, FrameBytes(wav), end - start)
            && Parse(Encode(wav.channels, wav.sampleRate, part)) == Some(wav.(pcm := part))
            && Readable(wav.(pcm := part))
  {
    hide Parse, Encode;
    var bpf := FrameBytes(wav);
    StretchFits(wav.pcm, bpf, Frames(wav), start, end);
    AtAdds(start, end, bpf);
    AtAdds(end, start, bpf);
    var part := Part(wav, start, end);
    RemainderIsUnique(|part|, end - start, 0, bpf);
    hide At;
    EncodeRoundTripExactly(wav.channels, wav.sampleRate, part);
  }

  /**
   * An applied trim reads back in the same channels and rate as one contiguous, frame-aligned stretch that holds every
   * stable window with its pre- and post-roll up to the file's edges; the reported durations add up, and the new one is
   * what `wavAudioStats` computes from the output.
   */
  lemma TrimPreservesSpeech(data: seq<byte>, level: seq<byte> -> real) returns (start: nat, end: nat)
    requires Trim(data, level).stats.applied
    ensures Parse(data).Some? && Readable(Parse(data).value)
    ensures var wav, out := Parse(data).value, Trim(data, level);
            && HoldsSpeech(wav, Active(wav, level), start, end)
            && Parse(out.data) == Some(wav.(pcm := Part(wav, start, end)))
            && Readable(wav.(pcm := Part(wav, start, end)))
            && StatsDurationMS(wav.(pcm := Part(wav, start, end))) == out.stats.inputMS
            && out.stats.inputMS + out.stats.trimmedMS == out.stats.originalMS
            && out.stats.trimmedMS >= MIN_SAVINGS_MS
  {
    ParsedIsReadable(data);
    start, end := AppliedTrim(data, Parse(data).value, level);
  }

  lemma AppliedTrim(data: seq<byte>, wav: PcmWav, level: seq<byte> -> real) returns (start: nat, end: nat)
    requires Readable(wav) && TrimParsed(data, wav, level).stats.applied
    ensures var out := TrimParsed(data, wav, level);
            && HoldsSpeech(wav, Active(wav, level), start, end)
            && Parse(out.data) == Some(wav.(pcm := Part(wav, start, end)))
            && Readable(wav.(pcm := Part(wav, start, end)))
            && StatsDurationMS(wav.(pcm := Part(wav, start, end))) == out.stats.inputMS
            && out.stats.inputMS + out.stats.trimmedMS == out.stats.originalMS
            && out.stats.trimmedMS >= MIN_SAVINGS_MS
  {
    hide Parse, Frames, Active, SpeechClip, Part, Encode, StatsDurationMS;
    var c := SpeechClip(Frames(wav), wav.sampleRate, Active(wav, level));
    start, end := c.start, c.end;
    ClipHoldsSpeech(wav, Active(wav, level));
    PartReadsBack(wav, start, end);
    DurationsAgree(wav.(pcm := Part(wav, start, end)), end - start);
  }

  // ----- Idempotence -----

  ghost predicate OnBoundary(end: int, w: nat) {
    exists m: nat :: end == At(m, w)
  }

  /** The windows of a stretch that starts on a window boundary are windows of the whole. */
  lemma WindowsOfStretch(pcm: seq<byte>, bpf: nat, total: nat, w: nat, k: nat, end: nat, j: nat)
    requires Whole(pcm, bpf, total) && w > 0 && 0 <= At(k, w) < end <= total
    requires end == total || OnBoundary(end, w)
    requires 0 <= At(j, w) < end - At(k, w)
    ensures 0 <= At(At(k, w), bpf) <= At(end, bpf) <= |pcm|
    ensures Whole(Stretch(pcm, bpf, At(k, w), end), bpf, end - At(k, w))
    ensures 0 <= At(k + j, w) < total
    ensures Window(Stretch(pcm, bpf, At(k, w), end), bpf, end - At(k, w), w, j) == Window(pcm, bpf, total, w, k + j)
  {
    var s := At(k, w);
    AtAdds(k, j, w);
    AtAdds(0, j, w);
    var stop := Min(At(j, w) + w, end - s);
    StretchOfStretch(pcm, bpf, total, s, end, At(j, w), stop);
    if end != total {
      var m: nat :| end == At(m, w);
      AtAdds(k + j, m, w);
      AtAdds(m, k + j, w);
    }
    hide At;
  }

  /** Cutting at the window boundaries k and e of the same audio keeps the levels in between. */
  lemma LevelsOfStretch(pcm: seq<byte>, bpf: nat, total: nat, w: nat, k: nat, end: nat, level: seq<byte> -> real)
    requires Whole(pcm, bpf, total) && w > 0 && 0 <= At(k, w) < end <= total
    requires end == total || OnBoundary(end, w)
    ensures 0 <= At(At(k, w), bpf) <= At(end, bpf) <= |pcm|
    ensures Whole(Stretch(pcm, bpf, At(k, w), end), bpf, end - At(k, w))
    ensures var cut := Levels(Stretch(pcm, bpf, At(k, w), end), bpf, end - At(k, w), w, level);
            var all := Levels(pcm, bpf, total, w, level);
            k + |cut| <= |all| && cut == all[k..k + |cut|]
  {
    hide Levels, At, WindowCount, Whole, Stretch, OnBoundary, Window;
    var s := At(k, w);
    AtAdds(0, k, w);
    AtAdds(0, 0, w);
    StretchOfStretch(pcm, bpf, total, s, end, 0, 0);
    WindowExists(end - s, w, 0);
    var cut := Levels(Stretch(pcm, bpf, s, end), bpf, end - s, w, level);
    var all := Levels(pcm, bpf, total, w, level);
    forall j | 0 <= j < |cut|
      ensures Aligned(cut, all, k, j)
    {
      LevelOfStretch(pcm, bpf, total, w, k, end, level, j);
    }
    SamePart(cut, all, k);
  }

  predicate Aligned(cut: seq<real>, all: seq<real>, k: nat, j: nat) {
    j < |cut| && k + j < |all| && cut[j] == all[k + j]
  }

  lemma SamePart(cut: seq<real>, all: seq<real>, k: nat)
    requires cut != [] && forall j :: 0 <= j < |cut| ==> Aligned(cut, all, k, j)
    ensures k + |cut| <= |all| && cut == all[k..k + |cut|]
  {
    assert Aligned(cut, all, k, |cut| - 1);
    forall j | 0 <= j < |cut| ensures cut[j] == all[k..k + |cut|][j] {
      assert Aligned(cut, all, k, j);
    }
  }

  lemma LevelOfStretch(pcm: seq<byte>, bpf: nat, total: nat, w: nat, k: nat, end: nat, level: seq<byte> -> real, j: nat)
    requires Whole(pcm, bpf, total) && w > 0 && 0 <= At(k, w) < end <= total
    requires end == total || OnBoundary(end, w)
    requires j < WindowCount(end - At(k, w), w)
    ensures 0 <= At(At(k, w), bpf) <= At(end, bpf) <= |pcm|
    ensures Whole(Stretch(pcm, bpf, At(k, w), end), bpf, end - At(k, w))
    ensures k + j < WindowCount(total, w)
    ensures Levels(Stretch(pcm, bpf, At(k, w), end), bpf, end - At(k, w), w, level)[j]
            == Levels(pcm, bpf, total, w, level)[k + j]
  {
    WindowExists(end - At(k, w), w, j);
    AtAdds(0, j, w);
    WindowsOfStretch(pcm, bpf, total, w, k, end, j);
    WindowExists(total, w, k + j);
    hide Window, At, WindowCount, Stretch;
  }

  /** The later detection sees at least what the earlier one saw, k windows further left. */
  ghost predicate SeesAtLeast(later: seq<bool>, earlier: seq<bool>, k: nat) {
    k + |later| <= |earlier| && forall j :: 0 <= j < |later| && earlier[k + j] ==> later[j]
  }

  /** The threshold falls with the peak, so what was active stays active in a part of the audio. */
  lemma ActiveStaysActive(cut: seq<real>, all: seq<real>, k: nat)
    requires k + |cut| <= |all| && cut == all[k..k + |cut|]
    ensures SeesAtLeast(ActiveWindows(cut), ActiveWindows(all), k)
  {
    forall i | 0 <= i < |cut| ensures cut[i] <= Peak(all) {
      assert cut[i] == all[k + i];
    }
    PeakOfPart(cut, Peak(all));
    ThresholdIsMonotone(Peak(cut), Peak(all));
    hide Peak, Threshold;
  }

  lemma StableStaysStable(later: seq<bool>, earlier: seq<bool>, k: nat, i: nat)
    requires SeesAtLeast(later, earlier, k) && k <= i < k + |later| && Stable(earlier, i)
    requires i > 0 ==> k < i
    requires i + 1 < |earlier| ==> i + 1 < k + |later|
    ensures Stable(later, i - k)
  {
    var j := i - k;
    assert Count(earlier, i - 1) <= Count(later, j - 1) by {
      if i > 0 {
        assert earlier[k + (j - 1)] ==> later[j - 1];
      }
    }
    assert Count(earlier, i) <= Count(later, j) by {
      assert earlier[k + j] ==> later[j];
    }
    assert Count(earlier, i + 1) <= Count(later, j + 1) by {
      if i + 1 < |earlier| {
        assert earlier[k + (j + 1)] ==> later[j + 1];
      }
    }
    hide Count;
  }

  /** The pre-roll is at least one frame, and both margins are whole windows. */
  predicate MarginsFit(rate: nat) {
    var w := WindowFrames(rate);
    rate * 200 / 1000 > 0 && rate * 200 / 1000 % w == 0 && rate * 300 / 1000 % w == 0
  }

  function PreWindows(rate: nat): nat {
    rate * 200 / 1000 / WindowFrames(rate)
  }

  function PostWindows(rate: nat): nat {
    rate * 300 / 1000 / WindowFrames(rate)
  }

  lemma MarginsAreWhole(rate: nat)
    requires MarginsFit(rate)
    ensures var w := WindowFrames(rate);
            && rate * 200 / 1000 == At(PreWindows(rate), w) && rate * 300 / 1000 == At(PostWindows(rate), w)
            && PreWindows(rate) >= 1 && PostWindows(rate) >= 1
  {
    var w := WindowFrames(rate);
    AtQuotient(rate * 200 / 1000, w);
    AtQuotient(rate * 300 / 1000, w);
    AtAdds(0, 0, w);
    assert rate >= 5;
    hide At, WindowFrames;
  }

  /** At a rate divisible by 50 a window is exactly 20 ms, so the pre-roll is ten windows and the post-roll fifteen. */
  lemma MultiplesOf50Fit(rate: nat)
    requires rate > 0 && rate % 50 == 0
    ensures MarginsFit(rate) && PreWindows(rate) == 10 && PostWindows(rate) == 15
  {
    var q := rate / 50;
    assert rate == 50 * q && WindowFrames(rate) == q;
    QuotientIsUnique(10 * q, q, 10, 0);
    QuotientIsUnique(15 * q, q, 15, 0);
    RemainderIsUnique(10 * q, 10, 0, q);
    RemainderIsUnique(15 * q, 15, 0, q);
  }

  lemma AlignedCut(total: nat, rate: nat, first: nat, last: nat)
    requires MarginsFit(rate)
    requires first <= last < WindowCount(total, WindowFrames(rate))
    ensures var w := WindowFrames(rate);
            var b := KeptFrames(total, rate, first, last);
            b.start == At(Max(0, first - PreWindows(rate)), w)
                && b.end == Min(total, At(last + 1 + PostWindows(rate), w))
  {
    var w, pre := WindowFrames(rate), PreWindows(rate);
    MarginsAreWhole(rate);
    AtAdds(first, pre, w);
    AtAdds(last + 1, PostWindows(rate), w);
    AtAdds(0, first - pre, w);
    AtAdds(first - pre, 0, w);
    hide At, WindowFrames, PreWindows, PostWindows, MarginsFit;
  }

  /** Detecting again on the kept part keeps all of it. */
  lemma SecondClipIsWhole(total: nat, rate: nat, active: seq<bool>, again: seq<bool>, k: nat)
    requires MarginsFit(rate) && |active| == WindowCount(total, WindowFrames(rate))
    requires SpeechClip(total, rate, active).Clip?
    requires var c := SpeechClip(total, rate, active);
             && c.start == At(k, WindowFrames(rate))
             && |again| == WindowCount(c.end - c.start, WindowFrames(rate))
    requires SeesAtLeast(again, active, k)
    ensures var c := SpeechClip(total, rate, active);
            SpeechClip(c.end - c.start, rate, again) == Clip(0, c.end - c.start)
  {
    var w := WindowFrames(rate);
    var first, last := FirstStable(active, 0), LastStable(active, |active|);
    StableOrdered(active, first, last);
    AlignedCut(total, rate, first, last);
    MarginsAreWhole(rate);
    var c, pre, post := SpeechClip(total, rate, active), PreWindows(rate), PostWindows(rate);
    hide MarginsFit, PreWindows, PostWindows, SpeechClip, KeptFrames, Stable, FirstStable, LastStable, WindowFrames,
      WindowCount, At, SeesAtLeast;
    StartWindow(k, first, pre, w);
    StaysInside(total, w, active, again, k, first, last, pre, post, c.end, first);
    StaysInside(total, w, active, again, k, first, last, pre, post, c.end, last);
    StableStaysStable(again, active, k, first);
    StableStaysStable(again, active, k, last);
    WholeClip(c.end - c.start, rate, again, first - k, last - k, k, last);
  }

  lemma StartWindow(k: nat, first: nat, pre: nat, w: nat)
    requires w > 0 && At(k, w) == At(Max(0, first - pre), w)
    ensures k == Max(0, first - pre)
  {
    AtAdds(k, Max(0, first - pre), w);
    AtAdds(Max(0, first - pre), k, w);
    hide At;
  }

  /** The first and last stable windows and their neighbours lie inside the kept part. */
  lemma StaysInside(total: nat, w: nat, active: seq<bool>, again: seq<bool>, k: nat, first: nat, last: nat,
                    pre: nat, post: nat, end: nat, i: nat)
    requires w > 0 && first <= i <= last < |active| == WindowCount(total, w)
    requires pre >= 1 && post >= 1
    requires k == Max(0, first - pre) && end == Min(total, At(last + 1 + post, w)) && At(k, w) < end
    requires 0 <= At(k, w) && |again| == WindowCount(end - At(k, w), w)
    ensures k <= i < k + |again| && (i > 0 ==> k < i) && (i + 1 < |active| ==> i + 1 < k + |again|)
  {
    WindowExists(end - At(k, w), w, i - k);
    WindowExists(end - At(k, w), w, i + 1 - k);
    WindowExists(total, w, i);
    WindowExists(total, w, i + 1);
    AtAdds(i, k, w);
    AtAdds(i + 1, k, w);
    AtAdds(i, last + 1 + post, w);
    AtAdds(i + 1, last + 1 + post, w);
    hide At, WindowCount;
  }

  lemma WholeClip(total: nat, rate: nat, again: seq<bool>, i: nat, j: nat, k: nat, last: nat)
    requires MarginsFit(rate) && |again| == WindowCount(total, WindowFrames(rate))
    requires i < |again| && j < |again| && Stable(again, i) && Stable(again, j)
    requires i <= PreWindows(rate) && k <= last && j == last - k
    requires total <= At(last + 1 + PostWindows(rate), WindowFrames(rate)) - At(k, WindowFrames(rate))
    ensures SpeechClip(total, rate, again) == Clip(0, total)
  {
    var w := WindowFrames(rate);
    var first', last' := FirstStable(again, 0), LastStable(again, |again|);
    StableOrdered(again, first', last');
    assert first' >= 0;
    assert first' <= i && j <= last';
    AlignedCut(total, rate, first', last');
    AtAdds(0, 0, w);
    var post := PostWindows(rate);
    AtAdds(last + 1 + post, k, w);
    AtAdds(j + 1 + post, last' + 1 + post, w);
    hide MarginsFit, PreWindows, PostWindows, Stable, At, WindowFrames, FirstStable, LastStable;
  }

  lemma FramesOfPart(wav: PcmWav, start: nat, end: nat)
    requires Readable(wav) && start < end <= Frames(wav) && Readable(wav.(pcm := Part(wav, start, end)))
    ensures Frames(wav.(pcm := Part(wav, start, end))) == end - start
  {
    var bpf := FrameBytes(wav);
    var part := wav.(pcm := Part(wav, start, end));
    StretchFits(wav.pcm, bpf, Frames(wav), start, end);
    AtAdds(end, start, bpf);
    AtAdds(Frames(part), end - start, bpf);
    AtAdds(end - start, Frames(part), bpf);
    hide At;
  }

  lemma PartKeepsActive(wav: PcmWav, level: seq<byte> -> real, k: nat)
    requires Readable(wav) && MarginsFit(wav.sampleRate)
    requires SpeechClip(Frames(wav), wav.sampleRate, Active(wav, level)).Clip?
    requires SpeechClip(Frames(wav), wav.sampleRate, Active(wav, level)).start == At(k, WindowFrames(wav.sampleRate))
    ensures var c := SpeechClip(Frames(wav), wav.sampleRate, Active(wav, level));
            var part := wav.(pcm := Part(wav, c.start, c.end));
            Readable(part) && Frames(part) == c.end - c.start && SeesAtLeast(Active(part, level), Active(wav, level), k)
  {
    hide Parse, Encode, Levels, ActiveWindows, At, SpeechClip, WindowFrames, SeesAtLeast, OnBoundary, Frames, Stretch;
    var c := SpeechClip(Frames(wav), wav.sampleRate, Active(wav, level));
    var w, bpf := WindowFrames(wav.sampleRate), FrameBytes(wav);
    PartReadsBack(wav, c.start, c.end);
    FramesOfPart(wav, c.start, c.end);
    ClipOnBoundary(Frames(wav), wav.sampleRate, Active(wav, level));
    AtAdds(0, k, w);
    LevelsOfStretch(wav.pcm, bpf, Frames(wav), w, k, c.end, level);
    var part := wav.(pcm := Part(wav, c.start, c.end));
    ActiveStaysActive(Levels(part.pcm, bpf, Frames(part), w, level), Levels(wav.pcm, bpf, Frames(wav), w, level), k);
  }

  lemma ClipOnBoundary(total: nat, rate: nat, active: seq<bool>)
    requires MarginsFit(rate) && |active| == WindowCount(total, WindowFrames(rate))
    ensures var c := SpeechClip(total, rate, active);
            c.Clip? ==> (c.end == total || OnBoundary(c.end, WindowFrames(rate)))
                        && exists k: nat :: c.start == At(k, WindowFrames(rate))
  {
    var first, last := FirstStable(active, 0), LastStable(active, |active|);
    StableOrdered(active, first, last);
    if first >= 0 {
      AlignedCut(total, rate, first, last);
      var k: nat := Max(0, first - PreWindows(rate));
      var m: nat := last + 1 + PostWindows(rate);
      assert KeptFrames(total, rate, first, last).start == At(k, WindowFrames(rate));
      assert At(m, WindowFrames(rate)) == At(last + 1 + PostWindows(rate), WindowFrames(rate));
    }
  }

  lemma WholeClipIsNoTrim(data: seq<byte>, wav: PcmWav, level: seq<byte> -> real)
    requires Readable(wav) && SpeechClip(Frames(wav), wav.sampleRate, Active(wav, level)) == Clip(0, Frames(wav))
    ensures var out := TrimParsed(data, wav, level); out.data == data && !out.stats.applied && out.ok
  {
    hide Active, SpeechClip, Frames;
  }

  lemma TrimOfParsed(data: seq<byte>, wav: PcmWav, level: seq<byte> -> real)
    requires Parse(data) == Some(wav) && Readable(wav)
    ensures Trim(data, level) == TrimParsed(data, wav, level)
  {
    hide Parse, TrimParsed;
  }

  lemma SecondTrimKeepsAll(data: seq<byte>, wav: PcmWav, level: seq<byte> -> real)
    requires Readable(wav) && MarginsFit(wav.sampleRate) && TrimParsed(data, wav, level).stats.applied
    ensures var out := TrimParsed(data, wav, level).data;
            Trim(out, level).ok && Trim(out, level).data == out && !Trim(out, level).stats.applied
  {
    hide Parse, Encode, Active, SpeechClip, Part, Frames, Trim;
    var active := Active(wav, level);
    var c := SpeechClip(Frames(wav), wav.sampleRate, active);
    var out := TrimParsed(data, wav, level).data;
    PartReadsBack(wav, c.start, c.end);
    var part := wav.(pcm := Part(wav, c.start, c.end));
    assert Parse(out) == Some(part);
    hide TrimParsed;
    ClipOnBoundary(Frames(wav), wav.sampleRate, active);
    var k: nat :| c.start == At(k, WindowFrames(wav.sampleRate));
    PartKeepsActive(wav, level, k);
    SecondClipIsWhole(Frames(wav), wav.sampleRate, active, Active(part, level), k);
    WholeClipIsNoTrim(out, part, level);
    TrimOfParsed(out, part, level);
  }

  /** Trimming an already trimmed file returns it unchanged, at every sample rate whose margins are whole windows. */
  lemma TrimIsIdempotent(data: seq<byte>, level: seq<byte> -> real)
    requires Parse(data).Some? ==> MarginsFit(Parse(data).value.sampleRate)
    ensures Trim(Trim(data, level).data, level).data == Trim(data, level).data
    ensures !Trim(Trim(data, level).data, level).stats.applied
  {
    if Trim(data, level).stats.applied {
      ParsedIsReadable(data);
      SecondTrimKeepsAll(data, Parse(data).value, level);
    }
    hide Parse, TrimParsed;
  }

  // ----- The source's loops -----

  /** `level` stands for the loudness of a window's samples, the root mean square in the source. */
  method TrimWAVSilence(data: seq<byte>, level: seq<byte> -> real) returns (out: seq<byte>, stats: Stats, ok: bool)
    ensures Trimmed(out, stats, ok) == Trim(data, level)
  {
    var wav, parsed := ParsePCMWAV(data);
    if !parsed || wav.bitsPerSample != 16 {
      return data, Stats(0, 0, 0, false), false;
    }
    ParsedIsReadable(data);
    out, stats := TrimReadable(data, wav, level);
    ok := true;
  }

  method TrimReadable(data: seq<byte>, wav: PcmWav, level: seq<byte> -> real) returns (out: seq<byte>, stats: Stats)
    requires Readable(wav)
    ensures Trimmed(out, stats, true) == TrimParsed(data, wav, level)
  {
    hide Active, SpeechClip, Encode;
    var bytesPerFrame := wav.channels as int * 2;
    var totalFrames := |wav.pcm| / bytesPerFrame;
    assert bytesPerFrame == FrameBytes(wav) && totalFrames == Frames(wav);
    var originalMS := totalFrames * 1000 / wav.sampleRate;
    stats := Stats(originalMS, originalMS, 0, false);
    var clip := FindSpeech(wav, bytesPerFrame, totalFrames, level);
    if clip.Nothing? {
      return data, stats;
    }
    var Clip(startFrame, endFrame) := clip;
    var inputMS := (endFrame - startFrame) * 1000 / wav.sampleRate;
    var trimmedMS := originalMS - inputMS;
    if trimmedMS < MIN_SAVINGS_MS {
      return data, stats;
    }
    StretchFits(wav.pcm, bytesPerFrame, totalFrames, startFrame, endFrame);
    var startByte := startFrame * bytesPerFrame;
    var endByte := endFrame * bytesPerFrame;
    out := EncodePCM16WAV(wav.channels, wav.sampleRate, wav.pcm[startByte..endByte]);
    stats := Stats(originalMS, inputMS, trimmedMS, true);
  }

  /** Measuring, thresholding and widening: the middle part of the source function. */
  method FindSpeech(wav: PcmWav, bytesPerFrame: nat, totalFrames: nat, level: seq<byte> -> real) returns (clip: Clip)
    requires Readable(wav) && bytesPerFrame == FrameBytes(wav) && totalFrames == Frames(wav)
    ensures clip == SpeechClip(Frames(wav), wav.sampleRate, Active(wav, level))
  {
    hide Levels, ActiveWindows, Peak, Stable;
    var windowFrames := Max(1, wav.sampleRate * 20 / 1000);
    var levels, peak := MeasureWindows(wav.pcm, bytesPerFrame, totalFrames, windowFrames, level);
    var active := MarkActive(levels, peak);
    assert active[..] == Active(wav, level);
    var firstActive, lastActive := FindStable(active);
    StableUnique(active[..], firstActive, lastActive);
    if firstActive < 0 {
      return Nothing;
    }
    BoundsAreInside(totalFrames, wav.sampleRate, firstActive, lastActive);
    var startFrame := Max(0, firstActive * windowFrames - wav.sampleRate * 200 / 1000);
    var endFrame := Min(totalFrames, (lastActive + 1) * windowFrames + wav.sampleRate * 300 / 1000);
    assert KeptFrames(totalFrames, wav.sampleRate, firstActive, lastActive) == Bounds(startFrame, endFrame);
    clip := Clip(startFrame, endFrame);
  }

  lemma StableUnique(active: seq<bool>, first: int, last: int)
    requires IsFirstStable(active, first) && IsLastStable(active, last)
    ensures first < 0 <==> FirstStable(active, 0) < 0
    ensures first >= 0 ==>
            first == FirstStable(active, 0) && last == LastStable(active, |active|) && first <= last < |active|
  {
    StableOrdered(active, first, last);
    hide Stable;
    assert IsFirstStable(active, FirstStable(active, 0)) && IsLastStable(active, LastStable(active, |active|));
  }

  lemma LevelIs(pcm: seq<byte>, bpf: nat, total: nat, w: nat, level: seq<byte> -> real, i: nat)
    requires Whole(pcm, bpf, total) && w > 0 && i < WindowCount(total, w)
    ensures 0 <= i * w * bpf <= Min(i * w + w, total) * bpf <= |pcm|
    ensures Levels(pcm, bpf, total, w, level)[i] == level(pcm[i * w * bpf..Min(i * w + w, total) * bpf])
  {
    WindowExists(total, w, i);
    AtAdds(0, i, w);
    StretchFits(pcm, bpf, total, At(i, w), Min(At(i, w) + w, total));
    assert Window(pcm, bpf, total, w, i) == pcm[At(At(i, w), bpf)..At(Min(At(i, w) + w, total), bpf)];
  }

  lemma SquareScales(v: int)
    ensures v as real / 32768.0 * (v as real / 32768.0) == (v * v) as real / 1073741824.0
  {
    var r := v as real;
    assert (v * v) as real == r * r;
    assert r / 32768.0 * (r / 32768.0) == r * r / (32768.0 * 32768.0);
  }

  /** The sample loop over the bytes of one window of whole samples; the square root is left to the caller. */
  method MeasureMeanSquare(pcm: seq<byte>, start: nat, end: nat) returns (meanSquare: real)
    requires start <= end <= |pcm| && (end - start) % 2 == 0
    ensures meanSquare == MeanSquare(pcm[start..end])
  {
    hide SampleOf;
    var sumSquares, sampleCount := 0.0, 0;
    ghost var x := pcm[start..end];
    var offset := start;
    while offset < end
      invariant start <= offset <= end && offset == start + 2 * sampleCount
      invariant sumSquares == SumSquares(x, sampleCount) as real / 1073741824.0
    {
      var sample := SampleAtOffset(pcm, start, end, offset);
      SquareScales(sample);
      sumSquares := sumSquares + sample as real / 32768.0 * (sample as real / 32768.0);
      sampleCount := sampleCount + 1;
      offset := offset + 2;
    }
    meanSquare := if sampleCount > 0 then sumSquares / sampleCount as real else 0.0;
  }

  method SampleAtOffset(pcm: seq<byte>, start: nat, end: nat, offset: nat) returns (sample: int)
    requires start <= offset && offset + 2 <= end <= |pcm| && (offset - start) % 2 == 0
    ensures sample == SampleOf(pcm[start..end], (offset - start) / 2)
  {
    var u: int := U16(pcm, offset);
    sample := if u < 32768 then u else u - 65536;
  }

  /** The level loop; windows are measured in order and the peak kept. */
  method MeasureWindows(pcm: seq<byte>, bytesPerFrame: nat, totalFrames: nat, windowFrames: nat,
                        level: seq<byte> -> real)
    returns (levels: array<real>, peak: real)
    requires Whole(pcm, bytesPerFrame, totalFrames) && windowFrames > 0
    ensures levels[..] == Levels(pcm, bytesPerFrame, totalFrames, windowFrames, level) && peak == Peak(levels[..])
  {
    var windowCount := (totalFrames + windowFrames - 1) / windowFrames;
    levels := new real[windowCount](_ => 0.0);
    peak := 0.0;
    ghost var all := Levels(pcm, bytesPerFrame, totalFrames, windowFrames, level);
    for window := 0 to windowCount
      invariant levels[..window] == all[..window] && peak == Peak(all[..window])
    {
      WindowExists(totalFrames, windowFrames, window);
      AtAdds(0, window, windowFrames);
      var startFrame := window * windowFrames;
      var endFrame := Min(startFrame + windowFrames, totalFrames);
      StretchFits(pcm, bytesPerFrame, totalFrames, startFrame, endFrame);
      var measured := level(pcm[startFrame * bytesPerFrame..endFrame * bytesPerFrame]);
      LevelIs(pcm, bytesPerFrame, totalFrames, windowFrames, level, window);
      levels[window] := measured;
      assert all[..window + 1][..window] == all[..window];
      peak := Larger(peak, measured);
    }
    assert all[..windowCount] == all;
  }

  method MarkActive(levels: array<real>, peak: real) returns (active: array<bool>)
    requires peak == Peak(levels[..])
    ensures active[..] == ActiveWindows(levels[..])
  {
    var threshold := Larger(MIN_RMS, Smaller(MAX_RMS, peak * RELATIVE_TO_PEAK));
    active := new bool[levels.Length](_ => false);
    for index := 0 to levels.Length
      invariant forall i :: 0 <= i < index ==> active[i] == (levels[i] >= threshold)
    {
      active[index] := levels[index] >= threshold;
    }
  }

  /** The closure `stable`: counts the active windows among a window and its neighbours. */
  method IsStable(active: array<bool>, index: nat) returns (stable: bool)
    requires index < active.Length
    ensures stable == Stable(active[..], index)
  {
    var count := 0;
    var neighbor := Max(0, index - 1);
    while neighbor <= Min(active.Length - 1, index + 1)
      invariant Max(0, index - 1) <= neighbor <= Min(active.Length - 1, index + 1) + 1
      invariant count == (if index - 1 < neighbor then Count(active[..], index - 1) else 0)
                       + (if index < neighbor then Count(active[..], index) else 0)
                       + (if index + 1 < neighbor then Count(active[..], index + 1) else 0)
    {
      if active[neighbor] {
        count := count + 1;
      }
      neighbor := neighbor + 1;
    }
    stable := count >= 2;
  }

  method FindStable(active: array<bool>) returns (firstActive: int, lastActive: int)
    ensures IsFirstStable(active[..], firstActive) && IsLastStable(active[..], lastActive)
  {
    hide Stable;
    firstActive, lastActive := -1, -1;
    for index := 0 to active.Length
      invariant firstActive < 0 <==> lastActive < 0
      invariant firstActive < 0 ==> forall i :: 0 <= i < index ==> !Stable(active[..], i)
      invariant firstActive >= 0 ==> firstActive < index && Stable(active[..], firstActive)
                                     && forall i :: 0 <= i < firstActive ==> !Stable(active[..], i)
      invariant lastActive >= 0 ==> lastActive < index && Stable(active[..], lastActive)
                                    && forall i :: lastActive < i < index ==> !Stable(active[..], i)
    {
      var stable := IsStable(active, index);
      if stable {
        if firstActive < 0 {
          firstActive := index;
        }
        lastActive := index;
      }
    }
  }
}
