/** Voice-activity capture of one utterance: firmware/esp32-s3-audio-board/main/main.cc, CaptureAutomaticUtterance. */
module Capture {
  import opened Arithmetic

  const SAMPLE_RATE: nat := 24000
  const CHUNK: nat := 240
  const MAX_SAMPLES: nat := 192000  // eight seconds
  const PRE_ROLL: nat := 7200  // 300 milliseconds
  const START_FRAMES: nat := 5
  const END_SILENCE_FRAMES: nat := 110
  const TRAILING_FRAMES: nat := 20
  const MINIMUM_ACTIVE_FRAMES: nat := 20
  const MINIMUM_LEVEL: nat := 180

  const FRAMES_PER_SECOND: nat := 100  // SAMPLE_RATE / CHUNK
  const PRE_ROLL_FRAMES: nat := 30  // PRE_ROLL / CHUNK
  const MAX_FRAMES: nat := 800  // MAX_SAMPLES / CHUNK

  type sample = x: int | -32768 <= x < 32768
  type Frame = f: seq<sample> | |f| == CHUNK witness seq(CHUNK, _ => 0)

  datatype CaptureResult = Speech | Timeout | Canceled

  // ----- Levels -----

  function Magnitude(x: int): nat {
    if x < 0 then -x else x
  }

  function TotalMagnitude(s: seq<sample>): nat {
    if s == [] then 0 else TotalMagnitude(s[..|s| - 1]) + Magnitude(s[|s| - 1])
  }

  lemma TotalEmpty(s: seq<sample>)
    ensures TotalMagnitude(s[..0]) == 0
  {
  }

  lemma TotalGrows(s: seq<sample>, i: nat)
    requires i < |s|
    ensures TotalMagnitude(s[..i + 1]) == TotalMagnitude(s[..i]) + Magnitude(s[i])
  {
    assert s[..i + 1][..i] == s[..i];
  }

  function Level(s: seq<sample>): nat {
    if |s| == 0 then 0 else TotalMagnitude(s) / |s|
  }

  method MeanAbsoluteLevel(samples: seq<sample>) returns (level: nat)
    ensures level == Level(samples)
  {
    var total := 0;
    TotalEmpty(samples);
    hide TotalMagnitude;
    for index := 0 to |samples|
      invariant total == TotalMagnitude(samples[..index])
    {
      TotalGrows(samples, index);
      var sample: int := samples[index];
      total := total + if sample < 0 then -sample else sample;
    }
    assert samples[..|samples|] == samples;
    level := if |samples| == 0 then 0 else total / |samples|;
  }

  // ----- The detector without its buffer: frames only -----

  /**
   * Waiting for speech since `since` frames ago (or since the last ignored sound), or recording with `kept` frames
   * held.
   */
  datatype Detector =
    | Listening(since: nat, consecutive: nat, noise: nat, threshold: nat)
    | Recording(kept: nat, active: nat, quiet: nat, noise: nat, threshold: nat)

  const IDLE: Detector := Listening(0, 0, 60, MINIMUM_LEVEL)

  datatype Step = Goes(next: Detector) | Ends(kept: nat, active: nat) | Fills(kept: nat, active: nat)

  /** One frame through the detector. */
  function Observe(d: Detector, level: nat): Step {
    var loud := level >= d.threshold;
    match d
    case Listening(since, consecutive, noise, threshold) =>
      if loud then
        if consecutive + 1 >= START_FRAMES
        then Goes(Recording(Min(PRE_ROLL_FRAMES, since + 1), consecutive + 1, 0, noise, threshold))
        else Goes(Listening(since + 1, consecutive + 1, noise, threshold))
      else
        var floor := (noise * 31 + level) / 32;
        Goes(Listening(since + 1, 0, floor, Max(MINIMUM_LEVEL, floor * 3 + 80)))
    case Recording(kept, active, quiet, noise, threshold) =>
      if kept + 1 > MAX_FRAMES then Fills(kept, active)
      else
        var active' := if loud then active + 1 else active;
        var quiet' := if loud then 0 else quiet + 1;
        if quiet' < END_SILENCE_FRAMES then Goes(Recording(kept + 1, active', quiet', noise, threshold))
        else if active' < MINIMUM_ACTIVE_FRAMES then Goes(Listening(0, 0, noise, threshold))
        else Ends(kept + 1, active')
  }

  /** The detector after n frames of the microphone. */
  function After(mic: nat -> Frame, n: nat): Detector {
    if n == 0 then IDLE
    else
      match Observe(After(mic, n - 1), Level(mic(n - 1)))
      case Goes(next) => next
      case _ => After(mic, n - 1)
  }

  predicate Active(mic: nat -> Frame, k: nat) {
    Level(mic(k)) >= After(mic, k).threshold
  }

  function ActiveCount(mic: nat -> Frame, from: nat, till: nat): nat
    decreases till
  {
    if till <= from then 0 else ActiveCount(mic, from, till - 1) + if Active(mic, till - 1) then 1 else 0
  }

  /** Reading frame n leaves the loop because the wait ran out without a start. */
  predicate WaitIsOver(mic: nat -> Frame, wait: nat, n: nat) {
    && After(mic, n).Listening?
    && var step := Observe(After(mic, n), Level(mic(n)));
    step.Goes? && step.next.Listening? && n + 1 >= FRAMES_PER_SECOND * wait
  }

  /** Reading frame n leaves the loop. */
  predicate Exits(mic: nat -> Frame, wait: nat, n: nat) {
    WaitIsOver(mic, wait, n) || !Observe(After(mic, n), Level(mic(n))).Goes?
  }

  /** The loop is still running after n frames. */
  predicate Running(mic: nat -> Frame, wait: nat, n: nat) {
    forall k :: 0 <= k < n ==> !Exits(mic, wait, k)
  }

  /** What the counters of a detector say about the n frames seen so far. */
  ghost predicate Sound(d: Detector, mic: nat -> Frame, wait: nat, n: nat) {
    match d
    case Listening(since, consecutive, noise, threshold) =>
      && since <= n && consecutive <= since && consecutive < START_FRAMES
      && (since > 0 ==> n < FRAMES_PER_SECOND * wait)
      && (since == 0 ==> n <= FRAMES_PER_SECOND * wait + MAX_FRAMES - START_FRAMES)
      && (forall k :: n - consecutive <= k < n ==> Active(mic, k))
    case Recording(kept, active, quiet, noise, threshold) =>
      && START_FRAMES <= kept <= n && kept <= MAX_FRAMES
      && n - kept <= FRAMES_PER_SECOND * wait - START_FRAMES
      && START_FRAMES <= active && active + quiet <= kept && quiet < END_SILENCE_FRAMES
      && (forall k :: n - quiet <= k < n ==> !Active(mic, k))
      && Active(mic, n - quiet - 1)
      && active <= ActiveCount(mic, n - kept, n - quiet)
  }

  lemma {:induction false} ActiveCountGrows(mic: nat -> Frame, from: nat, mid: nat, till: nat)
    requires from <= mid <= till
    ensures ActiveCount(mic, from, mid) <= ActiveCount(mic, from, till)
    ensures (forall k :: mid <= k < till ==> !Active(mic, k)) ==>
            ActiveCount(mic, from, mid) == ActiveCount(mic, from, till)
    ensures (forall k :: mid <= k < till ==> Active(mic, k)) ==>
            ActiveCount(mic, from, till) == ActiveCount(mic, from, mid) + till - mid
    decreases till
  {
    if mid < till {
      ActiveCountGrows(mic, from, mid, till - 1);
    }
  }

  lemma {:induction false} CountersAreSound(mic: nat -> Frame, wait: nat, n: nat)
    requires wait > 0 && Running(mic, wait, n)
    ensures Sound(After(mic, n), mic, wait, n)
    decreases n
  {
    hide Sound, Observe, Level, Active, After, Exits;
    if n == 0 {
      StartIsSound(mic, wait);
    } else {
      CountersAreSound(mic, wait, n - 1);
      CounterStep(mic, wait, n - 1);
    }
  }

  lemma StartIsSound(mic: nat -> Frame, wait: nat)
    requires wait > 0
    ensures Sound(After(mic, 0), mic, wait, 0)
  {
  }

  lemma CounterStep(mic: nat -> Frame, wait: nat, n: nat)
    requires wait > 0 && Sound(After(mic, n), mic, wait, n) && !Exits(mic, wait, n)
    ensures Sound(After(mic, n + 1), mic, wait, n + 1)
  {
    var before, level := After(mic, n), Level(mic(n));
    assert Active(mic, n) <==> level >= before.threshold;
    assert Observe(before, level).Goes? && After(mic, n + 1) == Observe(before, level).next;
    hide Level, Active, After;
    if before.Listening? {
      ListeningStep(before, level, mic, wait, n);
    } else {
      RecordingStep(before, level, mic, wait, n);
    }
  }

  lemma ListeningStep(d: Detector, level: nat, mic: nat -> Frame, wait: nat, n: nat)
    requires wait > 0 && d.Listening? && Sound(d, mic, wait, n)
    requires Active(mic, n) <==> level >= d.threshold
    requires var next := Observe(d, level).next;
             next.Listening? ==> n + 1 < FRAMES_PER_SECOND * wait
    ensures Sound(Observe(d, level).next, mic, wait, n + 1)
  {
    hide Active;
    var next := Observe(d, level).next;
    if next.Recording? {
      assert forall k :: n - d.consecutive <= k < n + 1 ==> Active(mic, k);
      ActiveCountGrows(mic, n + 1 - next.kept, n + 1 - next.active, n + 1);
    }
  }

  lemma RecordingStep(d: Detector, level: nat, mic: nat -> Frame, wait: nat, n: nat)
    requires wait > 0 && d.Recording? && Sound(d, mic, wait, n)
    requires Active(mic, n) <==> level >= d.threshold
    requires Observe(d, level).Goes?
    ensures Sound(Observe(d, level).next, mic, wait, n + 1)
  {
    hide Active;
    var next := Observe(d, level).next;
    ActiveCountGrows(mic, n - d.kept, n - d.quiet, n);
    if next.Recording? && Active(mic, n) {
      assert ActiveCount(mic, n - d.kept, n + 1) == ActiveCount(mic, n - d.kept, n) + 1;
    }
  }

  /**
   * However long the stream and however often short sounds restart the wait, the loop stops within this many frames.
   */
  lemma CaptureTerminates(mic: nat -> Frame, wait: nat, n: nat)
    requires wait > 0 && Running(mic, wait, n)
    ensures n <= 100 * wait + 795
  {
    CountersAreSound(mic, wait, n);
  }

  /** Leaving on silence: exactly 110 quiet frames follow the last active one, and plenty of sound came before. */
  lemma SilenceEndIsAdequate(mic: nat -> Frame, wait: nat, n: nat)
    requires wait > 0 && Running(mic, wait, n)
    requires Observe(After(mic, n), Level(mic(n))).Ends?
    ensures var kept := Observe(After(mic, n), Level(mic(n))).kept;
            && 130 <= kept <= n + 1 && kept <= 800
            && (forall k :: n - 110 < k <= n ==> !Active(mic, k))
            && Active(mic, n - 110)
            && ActiveCount(mic, n + 1 - kept, n - 89) >= 20
  {
    CountersAreSound(mic, wait, n);
    assert Active(mic, n) <==> Level(mic(n)) >= After(mic, n).threshold;
    hide Level, Active, After;
    EndingCounters(After(mic, n), Level(mic(n)), mic, wait, n);
  }

  lemma EndingCounters(d: Detector, level: nat, mic: nat -> Frame, wait: nat, n: nat)
    requires Sound(d, mic, wait, n) && Observe(d, level).Ends?
    requires Active(mic, n) <==> level >= d.threshold
    ensures var kept := Observe(d, level).kept;
            && 130 <= kept <= n + 1 && kept <= 800
            && (forall k :: n - 110 < k <= n ==> !Active(mic, k))
            && Active(mic, n - 110)
            && ActiveCount(mic, n + 1 - kept, n - 89) >= 20
  {
    hide Active;
    ActiveCountGrows(mic, n - d.kept, n - d.quiet, n + 1 - END_SILENCE_FRAMES + TRAILING_FRAMES);
  }

  /** Leaving because the buffer is full: all of it is held. */
  lemma FullIsAdequate(mic: nat -> Frame, wait: nat, n: nat)
    requires wait > 0 && Running(mic, wait, n)
    requires Observe(After(mic, n), Level(mic(n))).Fills?
    ensures var Fills(kept, active) := Observe(After(mic, n), Level(mic(n)));
            kept == 800 && kept <= n && active <= ActiveCount(mic, n - kept, n)
  {
    CountersAreSound(mic, wait, n);
    var d := After(mic, n);
    hide Active, Level, After;
    ActiveCountGrows(mic, n - d.kept, n - d.quiet, n);
  }

  // ----- What the level is -----

  lemma {:induction false} TotalsAdd(a: seq<sample>, b: seq<sample>)
    ensures TotalMagnitude(a + b) == TotalMagnitude(a) + TotalMagnitude(b)
    decreases |b|
  {
    if b == [] {
      assert a + b == a;
    } else {
      assert (a + b)[..|a + b| - 1] == a + b[..|b| - 1];
      TotalsAdd(a, b[..|b| - 1]);
    }
  }

  lemma TotalOfOne(x: sample)
    ensures TotalMagnitude([x]) == if x >= 0 then x as int else -(x as int)
  {
    assert [x][..0] == [];
  }

  lemma OneMore(x: nat, n: nat)
    ensures x * (n + 1) == x * n + x
  {
  }

  lemma {:induction false} TotalBetween(s: seq<sample>, low: nat, high: nat)
    requires forall i :: 0 <= i < |s| ==> (s[i] >= low || s[i] <= -(low as int)) && -(high as int) <= s[i] <= high
    ensures low * |s| <= TotalMagnitude(s) <= high * |s|
    decreases |s|
  {
    if s == [] {
    } else {
      var n := |s| - 1;
      TotalBetween(s[..n], low, high);
      OneMore(low, n);
      OneMore(high, n);
    }
  }

  /** The level lies between the smallest and the largest distance of a sample from zero. */
  lemma LevelBetween(s: seq<sample>, low: nat, high: nat)
    requires s != []
    requires forall i :: 0 <= i < |s| ==> (s[i] >= low || s[i] <= -(low as int)) && -(high as int) <= s[i] <= high
    ensures low <= Level(s) <= high
  {
    TotalBetween(s, low, high);
    hide TotalMagnitude;
    MeanBetween(TotalMagnitude(s), |s|, low, high);
  }

  /** It is the mean distance from zero, rounded down; and nothing for no samples. */
  lemma LevelIsMean(s: seq<sample>)
    ensures s == [] ==> Level(s) == 0
    ensures s != [] ==> Level(s) * |s| <= TotalMagnitude(s) < Level(s) * |s| + |s|
  {
    hide TotalMagnitude;
    if s != [] {
      Floored(TotalMagnitude(s), |s|);
    }
  }

  lemma Floored(total: nat, n: nat)
    requires n > 0
    ensures total / n * n <= total < total / n * n + n
  {
  }

  lemma MeanBetween(total: nat, n: nat, low: nat, high: nat)
    requires n > 0 && low * n <= total <= high * n
    ensures low <= total / n <= high
  {
    var q := total / n;
    assert q * n <= total < q * n + n;
    TimesAtLeast(low - q, n);
    assert (low - q) * n == low * n - q * n;
    TimesAtLeast(q - high, n);
    assert (q - high) * n == q * n - high * n;
  }

  // ----- How the detector adapts -----

  /** A quiet frame while waiting draws the noise floor towards its level, and the threshold follows. */
  lemma FloorFollows(mic: nat -> Frame, n: nat)
    requires After(mic, n).Listening? && !Active(mic, n)
    ensures var before, after, level := After(mic, n), After(mic, n + 1), Level(mic(n));
            && after.Listening? && after.consecutive == 0
            && (if level <= before.noise then level <= after.noise <= before.noise
                else before.noise <= after.noise <= level)
            && (level < before.noise ==> after.noise < before.noise)
            && (level >= before.noise + 32 ==> after.noise > before.noise)
            && 32 * after.noise <= 31 * before.noise + level < 32 * after.noise + 32
            && after.threshold == if 3 * after.noise + 80 > 180 then 3 * after.noise + 80 else 180
  {
    hide Level;
  }

  /** No other frame moves either. */
  lemma FloorStays(mic: nat -> Frame, n: nat)
    requires After(mic, n).Recording? || Active(mic, n)
    ensures After(mic, n + 1).noise == After(mic, n).noise && After(mic, n + 1).threshold == After(mic, n).threshold
  {
    hide Level;
  }

  function NoiseBound(level: int): int {
    Max(180, 3 * level + 80)
  }

  /** In steady noise the detector keeps listening. */
  lemma {:induction false} NoiseIsNotHeard(mic: nat -> Frame, low: nat, high: nat, n: nat)
    requires forall k: nat :: low <= Level(mic(k)) <= high
    requires Level(mic(0)) < 180 && high < NoiseBound(Min(60, low))
    ensures var d := After(mic, n);
            && d.Listening? && d.consecutive == 0 && d.noise >= Min(60, low)
            && (n > 0 ==> d.threshold >= NoiseBound(Min(60, low))) && (n == 0 ==> d.threshold == 180)
    decreases n
  {
    hide Level;
    if n == 0 {
    } else {
      NoiseIsNotHeard(mic, low, high, n - 1);
      assert low <= Level(mic(n - 1)) <= high;
      FloorFollows(mic, n - 1);
    }
  }

  /**
   * Steady noise is never taken for speech: when no level leaves [low, high], the first frame is below the least
   * threshold and high stays below what the floor makes of low, an undisturbed capture times out with nothing.
   */
  lemma NoiseTimesOut(mic: nat -> Frame, pressed: nat -> bool, readFails: nat -> bool, wait: nat, samples: seq<sample>,
                      ok: bool, recorded: nat, result: CaptureResult, frames: nat, low: nat, high: nat)
    requires Promise(mic, pressed, readFails, wait, samples, ok, recorded, result, frames) && wait > 0
    requires forall k: nat :: !pressed(k) && !readFails(k)
    requires forall k: nat :: low <= Level(mic(k)) <= high
    requires Level(mic(0)) < 180 && high < NoiseBound(Min(60, low))
    ensures ok && result == Timeout && recorded == 0 && frames == 100 * wait
  {
    hide Level, After, IsWindow, Undisturbed;
    assert !pressed(frames) && !readFails(frames);
    NoiseStep(mic, low, high, frames - 1);
    if frames >= 2 {
      NoiseStep(mic, low, high, frames - 2);
      assert !Exits(mic, wait, frames - 2);
    }
  }

  lemma NoiseStep(mic: nat -> Frame, low: nat, high: nat, n: nat)
    requires forall k: nat :: low <= Level(mic(k)) <= high
    requires Level(mic(0)) < 180 && high < NoiseBound(Min(60, low))
    ensures After(mic, n).Listening? && After(mic, n + 1).Listening?
    ensures Observe(After(mic, n), Level(mic(n))) == Goes(After(mic, n + 1))
  {
    hide Level, NoiseBound;
    NoiseIsNotHeard(mic, low, high, n);
    NoiseIsNotHeard(mic, low, high, n + 1);
  }

  /** The floor and the threshold stay within what the quiet frames so far can have made of them. */
  lemma {:induction false} FloorIsBounded(mic: nat -> Frame, high: nat, n: nat)
    requires forall k :: 0 <= k < n && !Active(mic, k) ==> Level(mic(k)) <= high
    ensures After(mic, n).noise <= Max(60, high) && After(mic, n).threshold <= NoiseBound(Max(60, high))
    decreases n
  {
    hide Level, Active;
    if n == 0 {
    } else {
      FloorIsBounded(mic, high, n - 1);
      if After(mic, n - 1).Listening? && !Active(mic, n - 1) {
        FloorFollows(mic, n - 1);
      } else {
        FloorStays(mic, n - 1);
      }
    }
  }

  /** A frame clearly above all the noise so far is active. */
  lemma ClearSoundIsHeard(mic: nat -> Frame, high: nat, n: nat)
    requires forall k :: 0 <= k < n && !Active(mic, k) ==> Level(mic(k)) <= high
    requires Level(mic(n)) >= NoiseBound(Max(60, high))
    ensures Active(mic, n)
  {
    hide Level, After;
    FloorIsBounded(mic, high, n);
  }

  /** Five such frames in a row start a recording. */
  lemma {:induction false} FiveClearFramesStart(mic: nat -> Frame, high: nat, n: nat)
    requires After(mic, n).Listening?
    requires forall k :: 0 <= k < n && !Active(mic, k) ==> Level(mic(k)) <= high
    requires forall k :: n <= k < n + 5 ==> Level(mic(k)) >= NoiseBound(Max(60, high))
    ensures exists k :: n < k <= n + 5 && After(mic, k).Recording?
  {
    hide Level, After;
    StillClear(mic, high, n, 5);
    var k := n;
    while k < n + 5 && After(mic, k).Listening?
      invariant n <= k <= n + 5 && (After(mic, k).Recording? ==> k > n)
      invariant After(mic, k).Listening? ==> After(mic, k).consecutive >= k - n
      invariant k == n + 5 ==> After(mic, k).Recording?
    {
      ActiveStep(mic, k);
      k := k + 1;
    }
  }

  lemma {:induction false} StillClear(mic: nat -> Frame, high: nat, n: nat, more: nat)
    requires forall k :: 0 <= k < n && !Active(mic, k) ==> Level(mic(k)) <= high
    requires forall k :: n <= k < n + more ==> Level(mic(k)) >= NoiseBound(Max(60, high))
    ensures forall k :: n <= k < n + more ==> Active(mic, k)
    decreases more
  {
    hide Level, Active;
    if more > 0 {
      StillClear(mic, high, n, more - 1);
      ClearSoundIsHeard(mic, high, n + more - 1);
    }
  }

  lemma ActiveStep(mic: nat -> Frame, n: nat)
    requires After(mic, n).Listening? && Active(mic, n)
    ensures var d := After(mic, n + 1);
            if After(mic, n).consecutive >= 4 then d.Recording?
            else d.Listening? && d.consecutive == After(mic, n).consecutive + 1
  {
    hide Level;
  }

  /** And nothing less does: the five frames up to a start were all active. */
  lemma StartNeedsFive(mic: nat -> Frame, wait: nat, n: nat)
    requires wait > 0 && Running(mic, wait, n) && After(mic, n).Listening? && After(mic, n + 1).Recording?
    ensures n >= 4 && forall k :: n - 4 <= k <= n ==> Active(mic, k)
  {
    CountersAreSound(mic, wait, n);
    hide Level, Running;
    StartStep(mic, n);
  }

  lemma StartStep(mic: nat -> Frame, n: nat)
    requires After(mic, n).Listening? && After(mic, n + 1).Recording?
    ensures After(mic, n).consecutive >= 4 && Active(mic, n)
    ensures After(mic, n + 1).kept == Min(30, After(mic, n).since + 1)
  {
    hide Level;
  }

  /** While waiting, `since` counts the frames back to the start or to the last sound that was ignored. */
  lemma {:induction false} SinceMeans(mic: nat -> Frame, n: nat)
    requires After(mic, n).Listening?
    ensures var start := n - After(mic, n).since;
            && 0 <= start && (start > 0 ==> After(mic, start - 1).Recording?)
            && forall k :: start <= k <= n ==> After(mic, k).Listening?
    decreases n
  {
    hide Level;
    if n == 0 {
    } else if After(mic, n - 1).Listening? {
      SinceMeans(mic, n - 1);
    }
  }

  /** A recording starts with everything heard since then, up to 300 ms. */
  lemma PreRollIsKept(mic: nat -> Frame, n: nat, start: nat)
    requires After(mic, n).Listening? && After(mic, n + 1).Recording?
    requires start <= n && (start > 0 ==> After(mic, start - 1).Recording?)
    requires forall k :: start <= k <= n ==> After(mic, k).Listening?
    ensures After(mic, n + 1).kept == if n + 1 - start < 30 then n + 1 - start else 30
  {
    hide Level, After;
    StartStep(mic, n);
    SinceMeans(mic, n);
  }

  // ----- How a recording ends -----

  /** The frame that started the recording in progress after n frames. */
  ghost predicate StartedAt(mic: nat -> Frame, s: nat, n: nat) {
    s < n && After(mic, s).Listening? && forall k :: s < k <= n ==> After(mic, k).Recording?
  }

  /** The counters of a recording: five frames for its start, then the active ones, and the frames kept. */
  ghost predicate Counts(d: Detector, mic: nat -> Frame, s: nat, n: nat, preRoll: nat) {
    && s < n && d.Recording? && d.active == 5 + ActiveCount(mic, s + 1, n) && d.kept == preRoll + n - (s + 1)
    && d.quiet < n - s && (forall k :: n - d.quiet <= k < n ==> !Active(mic, k)) && Active(mic, n - d.quiet - 1)
  }

  lemma {:induction false} RecordingCounts(mic: nat -> Frame, wait: nat, s: nat, n: nat)
    requires wait > 0 && Running(mic, wait, n) && StartedAt(mic, s, n)
    ensures Counts(After(mic, n), mic, s, n, Min(30, After(mic, s).since + 1))
    decreases n
  {
    hide Level, After, Exits, Counts, Running;
    if n == s + 1 {
      RanTill(mic, wait, s, n);
      FirstCounts(mic, wait, s);
    } else {
      RanTill(mic, wait, n - 1, n);
      RecordingCounts(mic, wait, s, n - 1);
      CountsGoOn(mic, wait, s, n - 1, Min(30, After(mic, s).since + 1));
    }
  }

  lemma RanTill(mic: nat -> Frame, wait: nat, k: nat, n: nat)
    requires Running(mic, wait, n) && k < n
    ensures Running(mic, wait, k) && !Exits(mic, wait, k)
  {
    hide Exits;
  }

  lemma CountsGoOn(mic: nat -> Frame, wait: nat, s: nat, n: nat, preRoll: nat)
    requires !Exits(mic, wait, n) && After(mic, n + 1).Recording? && Counts(After(mic, n), mic, s, n, preRoll)
    ensures Counts(After(mic, n + 1), mic, s, n + 1, preRoll)
  {
    GoesOn(mic, wait, n);
    ActiveIs(mic, n);
    hide Level, After, Active, Exits, Counts, Observe;
    NextCounts(After(mic, n), Level(mic(n)), mic, s, n, preRoll);
  }

  lemma GoesOn(mic: nat -> Frame, wait: nat, n: nat)
    requires !Exits(mic, wait, n)
    ensures Observe(After(mic, n), Level(mic(n))) == Goes(After(mic, n + 1))
  {
    hide Level;
  }

  lemma ActiveIs(mic: nat -> Frame, n: nat)
    ensures Active(mic, n) <==> Level(mic(n)) >= After(mic, n).threshold
  {
  }

  lemma FirstCounts(mic: nat -> Frame, wait: nat, s: nat)
    requires wait > 0 && Running(mic, wait, s) && After(mic, s).Listening? && After(mic, s + 1).Recording?
    ensures Counts(After(mic, s + 1), mic, s, s + 1, Min(30, After(mic, s).since + 1))
  {
    hide Level, Running;
    CountersAreSound(mic, wait, s);
    StartStep(mic, s);
  }

  lemma NextCounts(d: Detector, level: nat, mic: nat -> Frame, s: nat, n: nat, preRoll: nat)
    requires Counts(d, mic, s, n, preRoll) && (Active(mic, n) <==> level >= d.threshold)
    requires Observe(d, level).Goes? && Observe(d, level).next.Recording?
    ensures Counts(Observe(d, level).next, mic, s, n + 1, preRoll)
  {
    hide Active;
  }

  /** Nothing was heard in the 110 frames up to n, all of them in this recording. */
  ghost predicate FellSilent(mic: nat -> Frame, s: nat, n: nat) {
    n - s >= 110 && forall k :: n - 110 < k <= n ==> !Active(mic, k)
  }

  /**
   * A recording that started at frame s goes on until the buffer is full or 110 quiet frames have passed; it then
   * counts as speech exactly when it had 20 active frames, those of its start included, and is forgotten otherwise.
   */
  lemma RecordingEndsExactly(mic: nat -> Frame, wait: nat, s: nat, n: nat)
    requires wait > 0 && Running(mic, wait, n) && StartedAt(mic, s, n)
    ensures var step := Observe(After(mic, n), Level(mic(n)));
            var active := 5 + ActiveCount(mic, s + 1, n + 1);
            var full := Min(30, After(mic, s).since + 1) + n - s > 800;
            && (step.Fills? <==> full)
            && (step.Ends? <==> !full && FellSilent(mic, s, n) && active >= 20)
            && (step.Goes? && step.next.Listening? <==> !full && FellSilent(mic, s, n) && active < 20)
  {
    var preRoll := Min(30, After(mic, s).since + 1);
    RecordingCounts(mic, wait, s, n);
    ActiveIs(mic, n);
    CountersAreSound(mic, wait, n);
    SoundQuiet(After(mic, n), mic, wait, n);
    hide Level, After, Running, Sound;
    EndOfCounts(After(mic, n), Level(mic(n)), mic, s, n, preRoll);
  }

  lemma SoundQuiet(d: Detector, mic: nat -> Frame, wait: nat, n: nat)
    requires Sound(d, mic, wait, n)
    ensures d.Recording? ==> d.quiet < 110
  {
    hide Active;
  }

  lemma EndOfCounts(d: Detector, level: nat, mic: nat -> Frame, s: nat, n: nat, preRoll: nat)
    requires Counts(d, mic, s, n, preRoll) && (Active(mic, n) <==> level >= d.threshold) && d.quiet < 110
    ensures var step, active := Observe(d, level), 5 + ActiveCount(mic, s + 1, n + 1);
            && (step.Fills? <==> d.kept == preRoll + n - (s + 1) && preRoll + n - s > 800)
            && (step.Ends? <==> preRoll + n - s <= 800 && FellSilent(mic, s, n) && active >= 20)
            && (step.Goes? && step.next.Listening? <==> preRoll + n - s <= 800 && FellSilent(mic, s, n) && active < 20)
  {
    hide Active;
  }

  // ----- The buffer -----

  /** The microphone as one stream of samples. */
  function SampleAt(mic: nat -> Frame, i: nat): sample {
    mic(i / CHUNK)[i % CHUNK]
  }

  lemma SampleOfFrame(mic: nat -> Frame, n: nat, i: nat)
    requires i < 240
    ensures SampleAt(mic, 240 * n + i) == mic(n)[i]
  {
    assert (CHUNK * n + i) / CHUNK == n && (CHUNK * n + i) % CHUNK == i;
  }

  /** `samples` is the gap-free stretch of the microphone stream that ends just before sample `end`. */
  ghost predicate IsWindow(samples: seq<sample>, mic: nat -> Frame, end: int) {
    && |samples| <= end
    && forall i :: 0 <= i < |samples| ==> samples[i] == SampleAt(mic, end - |samples| + i)
  }

  /**
   * The front of the recording used as a ring: the next sample goes to `write`, `held` samples are in it, and the
   * newest is the one before stream position `end`.
   */
  ghost predicate IsRing(buf: seq<sample>, write: nat, held: nat, mic: nat -> Frame, end: nat) {
    && write < PRE_ROLL <= |buf| && held <= PRE_ROLL && held <= end && write <= end
    && (held < PRE_ROLL ==> write == held)
    && (forall i :: 0 <= i < write ==> buf[i] == SampleAt(mic, end - write + i))
    && (held == PRE_ROLL ==> forall i :: write <= i < PRE_ROLL ==> buf[i] == SampleAt(mic, end - write + i - PRE_ROLL))
  }

  lemma RingTakes(buf: seq<sample>, write: nat, held: nat, mic: nat -> Frame, end: nat, value: sample)
    requires IsRing(buf, write, held, mic, end) && value == SampleAt(mic, end)
    ensures write < |buf|
    ensures var next := if write + 1 == PRE_ROLL then 0 else write + 1;
            IsRing(buf[write := value], next, Min(PRE_ROLL, held + 1), mic, end + 1)
  {
    hide SampleAt;
  }

  lemma NextSlot(slot: nat)
    requires slot < PRE_ROLL
    ensures (slot + 1) % PRE_ROLL == if slot + 1 == PRE_ROLL then 0 else slot + 1
  {
  }

  method BufferFrame(recording: array<sample>, frame: Frame, write: nat, held: nat, ghost mic: nat -> Frame,
                     ghost n: nat)
    returns (write': nat, held': nat)
    requires IsRing(recording[..], write, held, mic, CHUNK * n) && frame == mic(n)
    modifies recording
    ensures IsRing(recording[..], write', held', mic, CHUNK * (n + 1))
    ensures write' == (write + CHUNK) % PRE_ROLL && held' == Min(PRE_ROLL, held + CHUNK)
  {
    hide SampleAt, IsRing;
    write', held' := write, held;
    RingSlot(recording[..], write, held, mic, CHUNK * n);
    NoWrap(write, PRE_ROLL);
    for index := 0 to CHUNK
      invariant IsRing(recording[..], write', held', mic, CHUNK * n + index)
      invariant write' == (write + index) % PRE_ROLL && held' == Min(PRE_ROLL, held + index)
    {
      SampleOfFrame(mic, n, index);
      Increment(write + index, PRE_ROLL);
      NextSlot(write');
      write', held' := StoreSample(recording, write', held', frame[index], mic, CHUNK * n + index);
    }
  }

  lemma RingSlot(buf: seq<sample>, write: nat, held: nat, mic: nat -> Frame, end: nat)
    requires IsRing(buf, write, held, mic, end)
    ensures write < PRE_ROLL <= |buf| && held <= PRE_ROLL
  {
  }

  /** One turn of the inner loop: the sample goes into the ring, over the oldest one when it is full. */
  method StoreSample(recording: array<sample>, write: nat, held: nat, value: sample, ghost mic: nat -> Frame,
                     ghost end: nat)
    returns (write': nat, held': nat)
    requires IsRing(recording[..], write, held, mic, end) && value == SampleAt(mic, end)
    modifies recording
    ensures IsRing(recording[..], write', held', mic, end + 1)
    ensures write' == (write + 1) % PRE_ROLL && held' == Min(PRE_ROLL, held + 1)
  {
    hide SampleAt, IsRing;
    RingSlot(recording[..], write, held, mic, end);
    RingTakes(recording[..], write, held, mic, end, value);
    NextSlot(write);
    ghost var before := recording[..];
    recording[write] := value;
    assert recording[..] == before[write := value];
    write' := (write + 1) % PRE_ROLL;
    held' := Min(PRE_ROLL, held + 1);
  }

  /** std::rotate over the first `size` elements: the element at `first` becomes the front one. */
  method Rotate(a: array<sample>, first: nat, size: nat)
    requires first <= size <= a.Length
    modifies a
    ensures a[..size] == old(a[first..size]) + old(a[..first])
  {
    var rotated := a[first..size] + a[..first];
    for i := 0 to size
      invariant a[..i] == rotated[..i]
    {
      a[i] := rotated[i];
    }
  }

  /** After the rotation the ring reads front to back in the order the microphone delivered it. */
  lemma RotatedRingIsWindow(buf: seq<sample>, write: nat, mic: nat -> Frame, end: nat)
    requires IsRing(buf, write, PRE_ROLL, mic, end)
    ensures IsWindow(buf[write..PRE_ROLL] + buf[..write], mic, end)
  {
    hide SampleAt;
  }

  lemma UnwrappedRingIsWindow(buf: seq<sample>, write: nat, held: nat, mic: nat -> Frame, end: nat)
    requires IsRing(buf, write, held, mic, end) && (held < PRE_ROLL || write == 0)
    ensures IsWindow(buf[..held], mic, end)
  {
    hide SampleAt;
  }

  lemma WindowGrows(samples: seq<sample>, mic: nat -> Frame, n: nat)
    requires IsWindow(samples, mic, CHUNK * n)
    ensures IsWindow(samples + mic(n), mic, CHUNK * (n + 1))
  {
    forall i | 0 <= i < CHUNK ensures mic(n)[i] == SampleAt(mic, CHUNK * n + i) {
      SampleOfFrame(mic, n, i);
    }
    hide SampleAt;
  }

  lemma WindowShrinks(samples: seq<sample>, size: nat, mic: nat -> Frame, end: int)
    requires IsWindow(samples, mic, end) && size <= |samples|
    ensures IsWindow(samples[..size], mic, end - (|samples| - size))
  {
    hide SampleAt;
  }

  /** Puts the pre-roll in chronological order at the front of the recording. */
  method StartRecording(recording: array<sample>, write: nat, held: nat, ghost mic: nat -> Frame, ghost end: nat)
    requires IsRing(recording[..], write, held, mic, end)
    modifies recording
    ensures IsWindow(recording[..held], mic, end)
  {
    ghost var before := recording[..];
    if held == PRE_ROLL && write != 0 {
      RotatedRingIsWindow(before, write, mic, end);
      Rotate(recording, write, PRE_ROLL);
      assert before[write..PRE_ROLL] == old(recording[write..PRE_ROLL]) && before[..write] == old(recording[..write]);
    } else {
      UnwrappedRingIsWindow(before, write, held, mic, end);
      assert before[..held] == recording[..held];
    }
  }

  method AppendFrame(recording: array<sample>, recorded: nat, frame: Frame, ghost mic: nat -> Frame, ghost n: nat)
    requires recorded + CHUNK <= recording.Length && frame == mic(n)
    requires IsWindow(recording[..recorded], mic, CHUNK * n)
    modifies recording
    ensures IsWindow(recording[..recorded + CHUNK], mic, CHUNK * (n + 1))
  {
    WindowGrows(recording[..recorded], mic, n);
    hide IsWindow;
    for i := 0 to CHUNK
      invariant recording[..recorded + i] == old(recording[..recorded]) + frame[..i]
    {
      recording[recorded + i] := frame[i];
    }
    assert frame[..CHUNK] == frame;
  }

  // ----- The capture loop -----

  /** The loop variables while waiting, against the detector. */
  ghost predicate Waits(d: Detector, consecutive: nat, noise: nat, threshold: nat, held: nat, write: nat,
                        recorded: nat) {
    && d.Listening?
    && d == Listening(d.since, consecutive, noise, threshold)
    && held == Min(PRE_ROLL, CHUNK * d.since) && write == (CHUNK * d.since) % PRE_ROLL && recorded == 0
  }

  /** The loop variables while recording, against the detector. */
  ghost predicate Records(d: Detector, active: nat, quiet: nat, noise: nat, threshold: nat, recorded: nat) {
    && d.Recording?
    && d == Recording(d.kept, active, quiet, noise, threshold) && recorded == CHUNK * d.kept
    && quiet < END_SILENCE_FRAMES && recorded <= MAX_SAMPLES
  }

  lemma RingAdvances(since: nat)
    ensures ((CHUNK * since) % PRE_ROLL + CHUNK) % PRE_ROLL == (CHUNK * (since + 1)) % PRE_ROLL
    ensures Min(PRE_ROLL, Min(PRE_ROLL, CHUNK * since) + CHUNK) == Min(PRE_ROLL, CHUNK * (since + 1))
    ensures Min(PRE_ROLL, CHUNK * (since + 1)) == CHUNK * Min(PRE_ROLL_FRAMES, since + 1)
    ensures 0 <= Min(PRE_ROLL_FRAMES, since + 1) <= PRE_ROLL_FRAMES
  {
    WrapTwice(CHUNK * since, 0, CHUNK, PRE_ROLL);
  }

  lemma EmptyRing(buf: seq<sample>, mic: nat -> Frame, n: nat)
    requires PRE_ROLL <= |buf|
    ensures IsRing(buf, 0, 0, mic, CHUNK * n)
  {
  }

  /** The number of microphone frames up to the end of a recording that stopped on reading frame n. */
  ghost function EndFrame(mic: nat -> Frame, n: nat): int {
    if Observe(After(mic, n), Level(mic(n))).Ends? then n + 1 - (END_SILENCE_FRAMES - TRAILING_FRAMES) else n
  }

  /** What a capture that stopped on reading frame n reports. */
  ghost predicate Verdict(mic: nat -> Frame, n: nat, result: CaptureResult, recorded: nat) {
    match Observe(After(mic, n), Level(mic(n)))
    case Goes(_) => result == Timeout && recorded == 0
    case Ends(frames, _) =>
      result == Speech && recorded == CHUNK * (frames - (END_SILENCE_FRAMES - TRAILING_FRAMES))
    case Fills(frames, active) =>
      if active < MINIMUM_ACTIVE_FRAMES then result == Timeout && recorded == 0
      else result == Speech && recorded == MAX_SAMPLES
  }

  /** No key press and no failed read before frame n. */
  ghost predicate Undisturbed(pressed: nat -> bool, readFails: nat -> bool, n: nat) {
    forall k :: 0 <= k < n ==> !pressed(k) && !readFails(k)
  }

  /** The whole promise of a capture that read `frames` frames and left `samples` in the recording buffer. */
  ghost predicate Promise(mic: nat -> Frame, pressed: nat -> bool, readFails: nat -> bool, wait: nat,
                          samples: seq<sample>, ok: bool, recorded: nat, result: CaptureResult, frames: nat)
  {
    && frames <= 100 * wait + 796
    && Undisturbed(pressed, readFails, frames)
    && (ok ==> wait > 0)
    && (!ok ==> wait == 0 || (readFails(frames) && !pressed(frames) && Running(mic, wait, frames)))
    && (ok && result == Canceled ==> recorded == 0 && pressed(frames) && Running(mic, wait, frames))
    && (ok && result != Canceled ==>
          frames > 0 && Running(mic, wait, frames - 1) && Exits(mic, wait, frames - 1)
          && Verdict(mic, frames - 1, result, recorded))
    && (ok && result == Speech ==>
          recorded <= |samples| && IsWindow(samples[..recorded], mic, CHUNK * EndFrame(mic, frames - 1)))
  }

  /**
   * `frames` counts the frames read; the key is polled before each read and a read may fail. Hardware enable calls are
   * taken to succeed.
   */
  method CaptureAutomaticUtterance(mic: nat -> Frame, pressed: nat -> bool, readFails: nat -> bool,
                                   recording: array<sample>, waitSeconds: nat)
    returns (ok: bool, recorded: nat, result: CaptureResult, frames: nat)
    requires recording.Length == MAX_SAMPLES
    modifies recording
    ensures Promise(mic, pressed, readFails, waitSeconds, recording[..], ok, recorded, result, frames)
  {
    recorded, result, frames := 0, Timeout, 0;
    if waitSeconds == 0 {
      return false, recorded, result, frames;
    }
    var held: nat, write: nat := 0, 0;
    var consecutive: nat, active: nat, quiet: nat := 0, 0, 0;
    var noise: nat, threshold: nat := 60, MINIMUM_LEVEL;
    var started := false;
    EmptyRing(recording[..], mic, 0);
    CaptureStarts(mic, waitSeconds);
    assert Undisturbed(pressed, readFails, 0);
    hide IsRing, IsWindow, Running, Level, After, Observe, Exits, Verdict, EndFrame, Promise, Undisturbed, Waits,
      Records;
    while true
      invariant Running(mic, waitSeconds, frames)
      invariant Undisturbed(pressed, readFails, frames)
      invariant result == Timeout
      invariant !started ==> Waits(After(mic, frames), consecutive, noise, threshold, held, write, recorded)
      invariant !started ==> IsRing(recording[..], write, held, mic, CHUNK * frames)
      invariant started ==> Records(After(mic, frames), active, quiet, noise, threshold, recorded)
      invariant started ==> recorded <= MAX_SAMPLES && IsWindow(recording[..recorded], mic, CHUNK * frames)
      decreases FRAMES_PER_SECOND * waitSeconds + MAX_FRAMES - frames
    {
      CaptureTerminates(mic, waitSeconds, frames);
      if pressed(frames) {
        InterruptionReported(mic, pressed, readFails, waitSeconds, recording[..], true, 0, Canceled, frames);
        return true, 0, Canceled, frames;
      }
      if readFails(frames) {
        InterruptionReported(mic, pressed, readFails, waitSeconds, recording[..], false, recorded, result, frames);
        return false, recorded, result, frames;
      }
      var frame := mic(frames);
      var level := MeanAbsoluteLevel(frame);
      var loud := level >= threshold;
      ghost var n := frames;
      StillUndisturbed(pressed, readFails, n);
      frames := frames + 1;

      if !started {
        ghost var held0, write0 := held, write;
        write, held := BufferFrame(recording, frame, write, held, mic, n);
        consecutive, noise, threshold :=
          CountWhileWaiting(level, loud, consecutive, noise, threshold, mic, n, held0, write0, recorded, held, write);
        if consecutive >= START_FRAMES {
          StartRecording(recording, write, held, mic, CHUNK * frames);
          recorded, started, active, quiet := held, true, consecutive, 0;
        } else if CHUNK * frames >= SAMPLE_RATE * waitSeconds {
          WaitEnds(mic, waitSeconds, n);
          VerdictReported(mic, pressed, readFails, waitSeconds, recording[..], 0, Timeout, n);
          return true, 0, Timeout, frames;
        }
        StepForward(mic, waitSeconds, n);
        continue;
      }

      if recorded + CHUNK > MAX_SAMPLES {
        BufferFills(mic, waitSeconds, n, active, quiet, noise, threshold, recorded);
        if active < MINIMUM_ACTIVE_FRAMES {
          recorded := 0;
        } else {
          result := Speech;
        }
        VerdictReported(mic, pressed, readFails, waitSeconds, recording[..], recorded, result, n);
        return true, recorded, result, frames;
      }
      var finished;
      recorded, active, quiet, finished :=
        RecordFrame(recording, recorded, frame, level, loud, active, quiet, mic, n, noise, threshold, waitSeconds);
      if finished {
        VerdictReported(mic, pressed, readFails, waitSeconds, recording[..], recorded, Speech, n);
        return true, recorded, Speech, frames;
      }
      if recorded == 0 {
        started, held, write, consecutive := false, 0, 0, 0;
        EmptyRing(recording[..], mic, frames);
      }
      StepForward(mic, waitSeconds, n);
    }
  }

  /** The recording branch: stores a frame, and on enough silence either drops a short sound or ends the recording. */
  method RecordFrame(recording: array<sample>, recorded: nat, frame: Frame, ghost level: nat, loud: bool,
                     active: nat, quiet: nat, ghost mic: nat -> Frame, ghost n: nat, ghost noise: nat,
                     ghost threshold: nat, ghost wait: nat)
    returns (recorded': nat, active': nat, quiet': nat, finished: bool)
    requires wait > 0 && Running(mic, wait, n) && frame == mic(n)
    requires level == Level(mic(n)) && (loud <==> level >= threshold)
    requires Records(After(mic, n), active, quiet, noise, threshold, recorded)
    requires recorded + CHUNK <= MAX_SAMPLES == recording.Length && IsWindow(recording[..recorded], mic, CHUNK * n)
    modifies recording
    ensures recorded' <= MAX_SAMPLES && After(mic, n).Recording?
    ensures var step := Observe(After(mic, n), Level(mic(n)));
            && (finished ==> Exits(mic, wait, n) && Verdict(mic, n, Speech, recorded')
                             && IsWindow(recording[..recorded'], mic, CHUNK * EndFrame(mic, n)))
            && (!finished ==> step.Goes?)
            && (!finished && recorded' == 0 ==> Waits(step.next, 0, noise, threshold, 0, 0, 0))
            && (!finished && recorded' != 0 ==> Records(step.next, active', quiet', noise, threshold, recorded')
                                                && IsWindow(recording[..recorded'], mic, CHUNK * (n + 1)))
  {
    hide IsWindow, Running, Level, After, Observe, Exits, Verdict, EndFrame, Waits, Records;
    AppendFrame(recording, recorded, frame, mic, n);
    recorded' := recorded + CHUNK;
    active', quiet' := CountWhileRecording(level, loud, active, quiet, mic, n, noise, threshold, recorded);
    finished := false;
    if quiet' >= END_SILENCE_FRAMES {
      if active' >= MINIMUM_ACTIVE_FRAMES {
        SilenceEnds(mic, wait, n, recorded');
        recorded' := DropTrailingSilence(recording, recorded', quiet', mic, n + 1);
        finished := true;
      } else {
        recorded', active', quiet' := 0, 0, 0;
      }
    }
  }

  lemma StillUndisturbed(pressed: nat -> bool, readFails: nat -> bool, n: nat)
    requires Undisturbed(pressed, readFails, n) && !pressed(n) && !readFails(n)
    ensures Undisturbed(pressed, readFails, n + 1)
  {
  }

  lemma InterruptionReported(mic: nat -> Frame, pressed: nat -> bool, readFails: nat -> bool, wait: nat,
                             samples: seq<sample>, ok: bool, recorded: nat, result: CaptureResult, frames: nat)
    requires wait > 0 && Running(mic, wait, frames) && Undisturbed(pressed, readFails, frames)
    requires if ok then pressed(frames) && recorded == 0 && result == Canceled
            else !pressed(frames) && readFails(frames)
    ensures Promise(mic, pressed, readFails, wait, samples, ok, recorded, result, frames)
  {
    CaptureTerminates(mic, wait, frames);
    hide Running;
  }

  lemma VerdictReported(mic: nat -> Frame, pressed: nat -> bool, readFails: nat -> bool, wait: nat,
                        samples: seq<sample>, recorded: nat, result: CaptureResult, n: nat)
    requires wait > 0 && Running(mic, wait, n) && Undisturbed(pressed, readFails, n + 1)
    requires Exits(mic, wait, n) && Verdict(mic, n, result, recorded) && result != Canceled
    requires result == Speech ==> recorded <= |samples| && IsWindow(samples[..recorded], mic, CHUNK * EndFrame(mic, n))
    ensures Promise(mic, pressed, readFails, wait, samples, true, recorded, result, n + 1)
  {
    CaptureTerminates(mic, wait, n);
    hide Running, Exits, Verdict, IsWindow, EndFrame;
  }

  /** Cuts all but the last 20 of the quiet frames off the end. */
  method DropTrailingSilence(recording: array<sample>, recorded: nat, quiet: nat, ghost mic: nat -> Frame,
                             ghost frames: nat)
    returns (recorded': nat)
    requires TRAILING_FRAMES <= quiet && CHUNK * quiet <= recorded <= recording.Length
    requires IsWindow(recording[..recorded], mic, CHUNK * frames)
    ensures recorded' == recorded - CHUNK * (quiet - TRAILING_FRAMES)
    ensures IsWindow(recording[..recorded'], mic, CHUNK * (frames - (quiet - TRAILING_FRAMES)))
  {
    var removable := (quiet - TRAILING_FRAMES) * CHUNK;
    recorded' := recorded - Min(recorded, removable);
    WindowShrinks(recording[..recorded], recorded', mic, CHUNK * frames);
    assert recording[..recorded][..recorded'] == recording[..recorded'];
  }

  /** The counters of the waiting branch, after the frame has gone into the ring. */
  method CountWhileWaiting(level: nat, loud: bool, consecutive: nat, noise: nat, threshold: nat,
                           ghost mic: nat -> Frame, ghost n: nat, ghost held: nat, ghost write: nat,
                           ghost recorded: nat, ghost held': nat, ghost write': nat)
    returns (consecutive': nat, noise': nat, threshold': nat)
    requires level == Level(mic(n)) && (loud <==> level >= threshold)
    requires Waits(After(mic, n), consecutive, noise, threshold, held, write, recorded)
    requires write' == (write + CHUNK) % PRE_ROLL && held' == Min(PRE_ROLL, held + CHUNK)
    ensures var step := Observe(After(mic, n), Level(mic(n)));
            && After(mic, n).Listening? && step.Goes? && (step.next.Recording? <==> consecutive' >= START_FRAMES)
            && if step.next.Recording?
               then held' <= MAX_SAMPLES && Records(step.next, consecutive', 0, noise', threshold', held')
               else Waits(step.next, consecutive', noise', threshold', held', write', recorded)
  {
    hide Level, After;
    RingAdvances(After(mic, n).since);
    consecutive', noise', threshold' := consecutive, noise, threshold;
    if loud {
      consecutive' := consecutive' + 1;
    } else {
      consecutive' := 0;
      noise' := (noise * 31 + level) / 32;
      threshold' := Max(MINIMUM_LEVEL, noise' * 3 + 80);
    }
  }

  /** The counters of the recording branch, after the frame has been stored. */
  method CountWhileRecording(ghost level: nat, loud: bool, active: nat, quiet: nat, ghost mic: nat -> Frame,
                             ghost n: nat, ghost noise: nat, ghost threshold: nat, ghost recorded: nat)
    returns (active': nat, quiet': nat)
    requires level == Level(mic(n)) && (loud <==> level >= threshold)
    requires Records(After(mic, n), active, quiet, noise, threshold, recorded) && recorded + CHUNK <= MAX_SAMPLES
    ensures var step := Observe(After(mic, n), Level(mic(n)));
            && After(mic, n).Recording? && quiet' <= END_SILENCE_FRAMES
            && if quiet' < END_SILENCE_FRAMES
               then step.Goes? && Records(step.next, active', quiet', noise, threshold, recorded + CHUNK)
               else if active' < MINIMUM_ACTIVE_FRAMES then step.Goes? && Waits(step.next, 0, noise, threshold, 0, 0, 0)
               else step.Ends? && recorded + CHUNK == CHUNK * step.kept
  {
    hide Level, After;
    active', quiet' := active, quiet;
    if loud {
      active', quiet' := active' + 1, 0;
    } else {
      quiet' := quiet' + 1;
    }
  }

  lemma WaitEnds(mic: nat -> Frame, wait: nat, n: nat)
    requires After(mic, n).Listening? && n + 1 >= FRAMES_PER_SECOND * wait
    requires Observe(After(mic, n), Level(mic(n))).Goes? && Observe(After(mic, n), Level(mic(n))).next.Listening?
    ensures Exits(mic, wait, n) && Verdict(mic, n, Timeout, 0)
  {
  }

  lemma BufferFills(mic: nat -> Frame, wait: nat, n: nat, active: nat, quiet: nat, noise: nat, threshold: nat,
                    recorded: nat)
    requires wait > 0 && Running(mic, wait, n)
    requires Records(After(mic, n), active, quiet, noise, threshold, recorded) && recorded + CHUNK > MAX_SAMPLES
    ensures Exits(mic, wait, n) && EndFrame(mic, n) == n && recorded == MAX_SAMPLES
    ensures if active < MINIMUM_ACTIVE_FRAMES then Verdict(mic, n, Timeout, 0) else Verdict(mic, n, Speech, MAX_SAMPLES)
  {
    hide Running;
    assert Observe(After(mic, n), Level(mic(n))).Fills?;
    FullIsAdequate(mic, wait, n);
  }

  lemma SilenceEnds(mic: nat -> Frame, wait: nat, n: nat, recorded: nat)
    requires wait > 0 && Running(mic, wait, n)
    requires Observe(After(mic, n), Level(mic(n))).Ends?
            && recorded == CHUNK * Observe(After(mic, n), Level(mic(n))).kept
    ensures Exits(mic, wait, n)
    ensures n + 1 >= END_SILENCE_FRAMES && EndFrame(mic, n) == n + 1 - (END_SILENCE_FRAMES - TRAILING_FRAMES)
    ensures CHUNK * END_SILENCE_FRAMES <= recorded <= MAX_SAMPLES
    ensures Verdict(mic, n, Speech, recorded - CHUNK * (END_SILENCE_FRAMES - TRAILING_FRAMES))
  {
    hide Running;
    SilenceEndIsAdequate(mic, wait, n);
  }

  lemma CaptureStarts(mic: nat -> Frame, wait: nat)
    ensures Waits(After(mic, 0), 0, 60, MINIMUM_LEVEL, 0, 0, 0) && Running(mic, wait, 0)
  {
  }

  lemma StepForward(mic: nat -> Frame, wait: nat, n: nat)
    requires Running(mic, wait, n) && Observe(After(mic, n), Level(mic(n))).Goes?
    requires After(mic, n).Recording? || Observe(After(mic, n), Level(mic(n))).next.Recording?
            || n + 1 < FRAMES_PER_SECOND * wait
    ensures Running(mic, wait, n + 1)
    ensures Observe(After(mic, n), Level(mic(n))) == Goes(After(mic, n + 1))
  {
  }

  // ----- What a speech result guarantees -----

  /**
   * At least 20 active frames and a length `RunVoiceTurn` accepts (it turns away anything under a fifth of a second).
   * Either the last active frame is exactly 20 frames before the end of the recording and 110 quiet frames followed it,
   * or the buffer filled up.
   */
  ghost predicate Adequate(mic: nat -> Frame, n: nat, recorded: nat) {
    var end := EndFrame(mic, n);
    && 24000 / 5 <= recorded <= 8 * 24000 && recorded % 240 == 0
    && recorded / 240 <= end
    && ActiveCount(mic, end - recorded / 240, end) >= 20
    && if Observe(After(mic, n), Level(mic(n))).Ends? then
      && 20 < end == n - 89
      && Active(mic, end - 21)
      && (forall k :: end - 20 <= k <= n ==> !Active(mic, k))
    else
      end == n && recorded == 8 * 24000
  }

  lemma SpeechIsAdequate(mic: nat -> Frame, pressed: nat -> bool, readFails: nat -> bool, wait: nat,
                         samples: seq<sample>, recorded: nat, frames: nat)
    requires Promise(mic, pressed, readFails, wait, samples, true, recorded, Speech, frames)
    ensures Adequate(mic, frames - 1, recorded)
  {
    hide Running, Level, After, Active, Exits, IsWindow, Undisturbed;
    SpeechVerdictIsAdequate(mic, wait, frames - 1, recorded);
  }

  lemma SpeechVerdictIsAdequate(mic: nat -> Frame, wait: nat, n: nat, recorded: nat)
    requires wait > 0 && Running(mic, wait, n) && Verdict(mic, n, Speech, recorded)
    ensures Adequate(mic, n, recorded)
  {
    hide Running, Level, After, Active, ActiveCount;
    if Observe(After(mic, n), Level(mic(n))).Ends? {
      SilenceEndIsAdequate(mic, wait, n);
    } else {
      FullIsAdequate(mic, wait, n);
    }
  }

  /**
   * How an undisturbed capture ends. While waiting, it times out once the wait is over. In a recording that started
   * at frame s, 110 quiet frames end it as speech, with 20 frames of them kept; a full buffer is speech exactly when
   * it has 20 active frames.
   */
  lemma CaptureEndsExactly(mic: nat -> Frame, pressed: nat -> bool, readFails: nat -> bool, wait: nat,
                           samples: seq<sample>, recorded: nat, result: CaptureResult, frames: nat, s: nat)
    requires Promise(mic, pressed, readFails, wait, samples, true, recorded, result, frames) && result != Canceled
    requires After(mic, frames - 1).Listening? || StartedAt(mic, s, frames - 1)
    ensures After(mic, frames - 1).Listening? ==> result == Timeout && recorded == 0 && frames >= 100 * wait
    ensures After(mic, frames - 1).Recording? ==>
              var n := frames - 1;
              var kept := Min(30, After(mic, s).since + 1) + n - s;
              if kept <= 800 then
                && result == Speech && recorded == 240 * (kept - 90)
                && FellSilent(mic, s, n) && 5 + ActiveCount(mic, s + 1, n + 1) >= 20
              else if 5 + ActiveCount(mic, s + 1, n) >= 20 then result == Speech && recorded == 8 * 24000
              else result == Timeout && recorded == 0
  {
    var n := frames - 1;
    hide Level, After, Running, IsWindow, Undisturbed, Active, FellSilent;
    if After(mic, n).Recording? {
      RecordingEndsExactly(mic, wait, s, n);
      RecordingCounts(mic, wait, s, n);
    }
  }
}
