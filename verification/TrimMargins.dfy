/**
 * Where trimming twice is not trimming once: at every sample rate whose margins are not whole windows there is a file
 * that internal/server/audio_trim.go, measuring root mean squares, cuts once and then cuts again.
 */
module TrimMargins {
  import opened Arithmetic
  import opened AudioTrim
  import opened Bytes
  import opened Wav

  // ----- The files -----

  /** In windows: where the first sound starts, where the second does and where it ends, and the length of the file. */
  const FIRST: nat := 38
  const SECOND: nat := 62
  const STOP: nat := 65
  const WINDOWS: nat := 89

  /** Sample values: full scale, just under and just over the highest threshold, and loud enough for that threshold. */
  const CLICK: int := -32768
  const WEAK: int := 580
  const CLEAR: int := 600
  const LOUD: int := 5000

  /**
   * Below 5 Hz there is no pre-roll, so a first sound with a gap in it loses the window before the gap. When the
   * pre-roll is not whole windows, the first sound is a click across a window boundary, which a shifted window takes in
   * whole. When only the post-roll is not, the short window it leaves at the end is louder than the full one was.
   */
  datatype Plan = Gap | Click | Burst

  /** m frames of click on either side of the boundary, or m frames of burst up to frame e. */
  datatype Sound = Sound(plan: Plan, w: nat, m: nat, e: int)

  function Sample(f: Sound, i: int): (v: int)
    ensures -32768 <= v < 32768
  {
    if At(SECOND, f.w) <= i < At(STOP, f.w) then CLEAR
    else
      match f.plan
      case Gap => if i == FIRST - 1 || i == FIRST + 1 then CLEAR else 0
      case Click => if At(FIRST + 1, f.w) - f.m <= i < At(FIRST + 1, f.w) + f.m then CLICK else 0
      case Burst =>
        if At(FIRST, f.w) <= i < At(FIRST + 2, f.w) then WEAK
        else if f.e - f.m <= i < f.e then LOUD
        else 0
  }

  function Octet(v: int, k: nat): byte {
    if k % 2 == 0 then v % 256 else v / 256 % 256
  }

  /** The samples as 16-bit mono. */
  function Pcm(f: Sound): (pcm: seq<byte>)
    ensures |pcm| == 2 * (WINDOWS * f.w)
  {
    seq(2 * (WINDOWS * f.w), k requires 0 <= k < 2 * (WINDOWS * f.w) => Octet(Sample(f, k / 2), k))
  }

  /** The sum of the squared samples from frame p up to frame q. */
  function Energy(f: Sound, p: int, q: int): int
    decreases q - p
  {
    if q <= p then 0 else Energy(f, p, q - 1) + Sample(f, q - 1) * Sample(f, q - 1)
  }

  /** Piece p up to q. */
  function Piece(f: Sound, p: int, q: int): seq<byte>
    requires 0 <= p <= q <= WINDOWS * f.w
  {
    Pcm(f)[2 * p..2 * q]
  }

  lemma OctetsDecode(x: seq<byte>, k: nat, v: int)
    requires 2 * k + 2 <= |x| && -32768 <= v < 32768
    requires x[2 * k] == Octet(v, 2 * k) && x[2 * k + 1] == Octet(v, 2 * k + 1)
    ensures SampleOf(x, k) == v
  {
  }

  lemma OctetOf(f: Sound, p: int, q: int, k: nat)
    requires 0 <= p <= q <= WINDOWS * f.w && k < 2 * (q - p)
    ensures Piece(f, p, q)[k] == Octet(Sample(f, p + k / 2), k)
  {
    hide Sample;
    assert (2 * p + k) / 2 == p + k / 2 && (2 * p + k) % 2 == k % 2;
    assert Piece(f, p, q)[k] == Pcm(f)[2 * p + k];
  }

  lemma SampleInFile(f: Sound, p: int, q: int, k: nat)
    requires 0 <= p <= q <= WINDOWS * f.w && k < q - p
    ensures SampleOf(Piece(f, p, q), k) == Sample(f, p + k)
  {
    hide SampleOf, Octet, Piece;
    PieceSize(f, p, q);
    OctetOf(f, p, q, 2 * k);
    OctetOf(f, p, q, 2 * k + 1);
    SampleRange(f, p + k);
    hide Sample;
    OctetsDecode(Piece(f, p, q), k, Sample(f, p + k));
  }

  lemma SampleRange(f: Sound, i: int)
    ensures -32768 <= Sample(f, i) < 32768
  {
  }

  lemma {:induction false} SquaresAreEnergy(f: Sound, p: int, q: int, n: nat)
    requires 0 <= p <= q <= WINDOWS * f.w && n <= q - p
    ensures SumSquares(Piece(f, p, q), n) == Energy(f, p, p + n)
  {
    hide Sample, SampleOf, Piece;
    PieceSize(f, p, q);
    if n == 0 {
    } else {
      SquaresAreEnergy(f, p, q, n - 1);
      SampleInFile(f, p, q, n - 1);
    }
  }

  lemma PieceSize(f: Sound, p: int, q: int)
    requires 0 <= p <= q <= WINDOWS * f.w
    ensures |Piece(f, p, q)| == 2 * (q - p)
  {
  }

  lemma MeanIsEnergy(f: Sound, p: int, q: int)
    requires 0 <= p < q <= WINDOWS * f.w
    ensures MeanSquare(Piece(f, p, q)) == Energy(f, p, q) as real / 1073741824.0 / (q - p) as real
  {
    hide Piece, Sample, SampleOf, Energy;
    PieceSize(f, p, q);
    SquaresAreEnergy(f, p, q, q - p);
  }

  // ----- Energies -----

  lemma {:induction false} EnergySplit(f: Sound, p: int, m: int, q: int)
    requires p <= m <= q
    ensures Energy(f, p, q) == Energy(f, p, m) + Energy(f, m, q)
    decreases q - m
  {
    hide Sample;
    if m < q {
      EnergySplit(f, p, m, q - 1);
    }
  }

  lemma {:induction false} EnergyOf(f: Sound, p: int, q: int, v: int)
    requires p <= q && forall i :: p <= i < q ==> Sample(f, i) == v
    ensures Energy(f, p, q) == (q - p) * (v * v)
    decreases q - p
  {
    hide Sample;
    if p < q {
      EnergyOf(f, p, q - 1, v);
    }
  }

  lemma {:induction false} EnergyAtMost(f: Sound, p: int, q: int, v: int)
    requires p <= q && forall i :: p <= i < q ==> Sample(f, i) == 0 || Sample(f, i) == v
    ensures 0 <= Energy(f, p, q) <= (q - p) * (v * v)
    decreases q - p
  {
    hide Sample;
    if p < q {
      EnergyAtMost(f, p, q - 1, v);
    }
  }

  // ----- Levels, by their squares -----

  lemma RealOrder(r: real, b: real, n: real)
    requires n > 0.0
    ensures r >= b <==> r * n >= b * n
    ensures r <= b <==> r * n <= b * n
  {
    if r > b {
      assert (r - b) * n > 0.0;
    } else if r < b {
      assert (b - r) * n > 0.0;
    }
  }

  lemma SquaresRise(a: real, b: real)
    requires 0.0 <= a < b
    ensures a * a < b * b
  {
    assert b * b - a * a == (b - a) * (b + a);
    RealOrder(b - a, 0.0, b + a);
  }

  lemma SquareOrder(a: real, b: real)
    requires a >= 0.0 && b >= 0.0
    ensures a * a <= b * b <==> a <= b
  {
    if a < b {
      SquaresRise(a, b);
    } else if b < a {
      SquaresRise(b, a);
    }
  }

  lemma ScaledOrder(e: real, b: real, n: real)
    requires n > 0.0
    ensures e / 1073741824.0 / n >= b <==> e >= b * n * 1073741824.0
    ensures e / 1073741824.0 / n <= b <==> e <= b * n * 1073741824.0
  {
    var r := e / 1073741824.0 / n;
    assert r * n == e / 1073741824.0;
    RealOrder(r, b, n);
  }

  /** The energy of n frames at a given level. */
  function EnergyAt(level: real, n: int): real {
    level * level * n as real * 1073741824.0
  }

  /** How the level of n frames compares with a bound, read off their energy. */
  lemma LevelOfPiece(f: Sound, p: int, n: int, level: seq<byte> -> real, bound: real)
    requires IsRms(level) && bound >= 0.0 && 0 <= p < p + n <= WINDOWS * f.w
    ensures level(Piece(f, p, p + n)) >= 0.0
    ensures level(Piece(f, p, p + n)) >= bound <==> Energy(f, p, p + n) as real >= EnergyAt(bound, n)
    ensures level(Piece(f, p, p + n)) <= bound <==> Energy(f, p, p + n) as real <= EnergyAt(bound, n)
  {
    hide Piece, MeanSquare, Energy;
    MeanIsEnergy(f, p, p + n);
    LevelOrder(level(Piece(f, p, p + n)), bound, Energy(f, p, p + n) as real, n);
  }

  // The thresholds that matter, in whole numbers per frame.

  lemma ClearOrMore(f: Sound, p: int, n: int, level: seq<byte> -> real)
    requires IsRms(level) && 0 <= p < p + n <= WINDOWS * f.w && Energy(f, p, p + n) >= 360000 * n
    ensures level(Piece(f, p, p + n)) >= MAX_RMS
  {
    hide Piece, Energy, IsRms;
    LevelOfPiece(f, p, n, level, MAX_RMS);
  }

  lemma WeakOrLess(f: Sound, p: int, n: int, level: seq<byte> -> real)
    requires IsRms(level) && 0 <= p < p + n <= WINDOWS * f.w && Energy(f, p, p + n) <= 336400 * n
    ensures level(Piece(f, p, p + n)) < MAX_RMS
  {
    hide Piece, Energy, IsRms;
    LevelOfPiece(f, p, n, level, MAX_RMS);
  }

  lemma WeakOrMore(f: Sound, p: int, n: int, level: seq<byte> -> real)
    requires IsRms(level) && 0 <= p < p + n <= WINDOWS * f.w && Energy(f, p, p + n) >= 336400 * n
    ensures level(Piece(f, p, p + n)) >= 0.0177
  {
    hide Piece, Energy, IsRms;
    LevelOfPiece(f, p, n, level, 0.0177);
  }

  lemma ClearOrLess(f: Sound, p: int, n: int, level: seq<byte> -> real)
    requires IsRms(level) && 0 <= p < p + n <= WINDOWS * f.w && Energy(f, p, p + n) <= 360000 * n
    ensures 0.0 <= level(Piece(f, p, p + n)) <= 0.0375
  {
    hide Piece, Energy, IsRms;
    LevelOfPiece(f, p, n, level, 0.0375);
  }

  lemma DilutedBurst(f: Sound, p: int, n: int, level: seq<byte> -> real)
    requires IsRms(level) && 0 <= p < p + n <= WINDOWS * f.w && Energy(f, p, p + n) <= 22500000 * n
    ensures 0.0 <= level(Piece(f, p, p + n)) <= 0.1475
  {
    hide Piece, Energy, IsRms;
    LevelOfPiece(f, p, n, level, 0.1475);
  }

  lemma WholeBurst(f: Sound, p: int, n: int, level: seq<byte> -> real)
    requires IsRms(level) && 0 <= p < p + n <= WINDOWS * f.w && Energy(f, p, p + n) >= 25000000 * n
    ensures level(Piece(f, p, p + n)) >= 0.15
  {
    hide Piece, Energy, IsRms;
    LevelOfPiece(f, p, n, level, 0.15);
  }

  lemma EnoughClicks(f: Sound, p: int, n: int, level: seq<byte> -> real)
    requires IsRms(level) && 0 <= p < p + n <= WINDOWS * f.w && 4000000 * Energy(f, p, p + n) >= 81 * 1073741824 * n
    ensures level(Piece(f, p, p + n)) >= MIN_RMS
  {
    hide Piece, Energy, IsRms;
    LevelOfPiece(f, p, n, level, MIN_RMS);
  }

  lemma TooFewClicks(f: Sound, p: int, n: int, level: seq<byte> -> real)
    requires IsRms(level) && 0 <= p < p + n <= WINDOWS * f.w && 4000000 * Energy(f, p, p + n) < 81 * 1073741824 * n
    ensures level(Piece(f, p, p + n)) < MIN_RMS
  {
    hide Piece, Energy, IsRms;
    LevelOfPiece(f, p, n, level, MIN_RMS);
  }

  lemma SameEnergy(f: Sound, p: int, q: int, n: int, level: seq<byte> -> real)
    requires IsRms(level) && 0 <= p < p + n <= WINDOWS * f.w && 0 <= q < q + n <= WINDOWS * f.w
    requires Energy(f, p, p + n) == Energy(f, q, q + n)
    ensures level(Piece(f, p, p + n)) == level(Piece(f, q, q + n)) >= 0.0
  {
    hide Piece, Energy, MeanSquare;
    MeanIsEnergy(f, p, p + n);
    MeanIsEnergy(f, q, q + n);
    var a, b := level(Piece(f, p, p + n)), level(Piece(f, q, q + n));
    SquareOrder(a, b);
    SquareOrder(b, a);
  }

  lemma LevelOrder(level: real, bound: real, energy: real, n: int)
    requires level >= 0.0 && bound >= 0.0 && n > 0 && level * level == energy / 1073741824.0 / n as real
    ensures level >= bound <==> energy >= EnergyAt(bound, n)
    ensures level <= bound <==> energy <= EnergyAt(bound, n)
  {
    SquareOrder(level, bound);
    SquareOrder(bound, level);
    ScaledOrder(energy, bound * bound, n as real);
  }

  // ----- The first pass -----

  lemma Places(w: nat)
    ensures At(FIRST, w) == 38 * w && At(FIRST + 1, w) == 39 * w && At(FIRST + 2, w) == 40 * w
    ensures At(SECOND, w) == 62 * w && At(STOP, w) == 65 * w && At(WINDOWS, w) == 89 * w
  {
  }

  /** The window that holds the burst. */
  function BurstWindow(f: Sound): int
    requires f.w > 0
  {
    (f.e - f.m) / f.w
  }

  ghost predicate WellFormed(f: Sound) {
    && f.w > 0
    && match f.plan
       case Gap => f.w == 1
       case Click => f.m <= f.w && 4000000 * (f.m - 1) < 81 * f.w <= 4000000 * f.m
       case Burst =>
         && 0 < 10 * f.m <= 9 * f.w && f.e - f.m == At(BurstWindow(f), f.w)
         && STOP + 2 <= BurstWindow(f) < WINDOWS
  }

  predicate IsSilent(f: Sound, i: int)
    requires f.w > 0
  {
    && !(SECOND <= i < STOP)
    && match f.plan
       case Gap => i != FIRST - 1 && i != FIRST + 1
       case Click => i != FIRST && i != FIRST + 1
       case Burst => i != FIRST && i != FIRST + 1 && i != BurstWindow(f)
  }

  lemma SilentEnergy(f: Sound, i: int)
    requires WellFormed(f) && IsSilent(f, i)
    ensures Energy(f, At(i, f.w), At(i, f.w) + f.w) == 0
  {
    Places(f.w);
    AtAdds(i, FIRST, f.w);
    AtAdds(FIRST + 2, i, f.w);
    AtAdds(i, SECOND, f.w);
    AtAdds(STOP, i, f.w);
    if f.plan.Burst? {
      AtAdds(i, BurstWindow(f), f.w);
      AtAdds(BurstWindow(f), i, f.w);
    } else if f.plan.Gap? {
      assert At(i, 1) == i;
    }
    hide At, BurstWindow;
    EnergyOf(f, At(i, f.w), At(i, f.w) + f.w, 0);
  }

  lemma ToneEnergy(f: Sound, i: int)
    requires WellFormed(f) && SECOND <= i < STOP
    ensures Energy(f, At(i, f.w), At(i, f.w) + f.w) == f.w * 360000
  {
    AtAdds(SECOND, i, f.w);
    AtAdds(i, STOP, f.w);
    hide At;
    EnergyOf(f, At(i, f.w), At(i, f.w) + f.w, CLEAR);
  }

  lemma GapEnergy(f: Sound, i: int)
    requires WellFormed(f) && f.plan.Gap? && (i == FIRST - 1 || i == FIRST + 1)
    ensures Energy(f, At(i, f.w), At(i, f.w) + f.w) == 360000
  {
    assert At(i, 1) == i;
    Places(1);
    EnergyOf(f, i, i + 1, CLEAR);
  }

  /** Each half of the click is all there is in its window. */
  lemma ClickEnergy(f: Sound, i: int)
    requires WellFormed(f) && f.plan.Click? && (i == FIRST || i == FIRST + 1)
    ensures Energy(f, At(i, f.w), At(i, f.w) + f.w) == f.m * 1073741824 && 81 * f.w <= 4000000 * f.m
  {
    Places(f.w);
    var w, b := f.w, At(FIRST + 1, f.w);
    hide At;
    if i == FIRST {
      EnergySplit(f, b - w, b - f.m, b);
      EnergyOf(f, b - w, b - f.m, 0);
      EnergyOf(f, b - f.m, b, CLICK);
    } else {
      EnergySplit(f, b, b + f.m, b + w);
      EnergyOf(f, b, b + f.m, CLICK);
      EnergyOf(f, b + f.m, b + w, 0);
    }
  }

  lemma WeakEnergy(f: Sound, i: int)
    requires WellFormed(f) && f.plan.Burst? && (i == FIRST || i == FIRST + 1)
    ensures Energy(f, At(i, f.w), At(i, f.w) + f.w) == f.w * 336400
  {
    Places(f.w);
    hide At;
    EnergyOf(f, At(i, f.w), At(i, f.w) + f.w, WEAK);
  }

  lemma BurstEnergy(f: Sound)
    requires WellFormed(f) && f.plan.Burst?
    ensures 0 < 10 * f.m <= 9 * f.w && Energy(f, f.e - f.m, f.e) == f.m * 25000000
    ensures f.e - f.m == At(BurstWindow(f), f.w)
    ensures Energy(f, f.e - f.m, f.e - f.m + f.w) == f.m * 25000000
  {
    Places(f.w);
    AtAdds(STOP + 2, BurstWindow(f), f.w);
    AtAdds(STOP, 2, f.w);
    AtAdds(0, 2, f.w);
    hide At, BurstWindow;
    EnergySplit(f, f.e - f.m, f.e, f.e - f.m + f.w);
    EnergyOf(f, f.e - f.m, f.e, LOUD);
    EnergyOf(f, f.e, f.e - f.m + f.w, 0);
  }

  function Win(f: Sound, i: int): seq<byte>
    requires 0 <= At(i, f.w) && At(i, f.w) + f.w <= WINDOWS * f.w
  {
    Piece(f, At(i, f.w), At(i, f.w) + f.w)
  }

  lemma WinFits(w: nat, i: int)
    requires 0 <= i < WINDOWS
    ensures 0 <= At(i, w) && At(i, w) + w <= WINDOWS * w
  {
    AtAdds(i, WINDOWS, w);
    AtAdds(0, i, w);
    Places(w);
    hide At;
  }

  lemma CountIs(n: nat, w: nat)
    requires w > 0
    ensures WindowCount(At(n, w), w) == n
  {
    hide At;
    AtAdds(0, n, w);
    WindowExists(At(n, w), w, n);
    if n > 0 {
      AtAdds(n - 1, n, w);
      WindowExists(At(n, w), w, n - 1);
    }
    hide WindowCount;
  }

  lemma FirstLevel(f: Sound, level: seq<byte> -> real, i: nat)
    requires f.w > 0 && i < WINDOWS
    ensures Whole(Pcm(f), 2, At(WINDOWS, f.w)) && i < WindowCount(At(WINDOWS, f.w), f.w)
    ensures 0 <= At(i, f.w) && At(i, f.w) + f.w <= WINDOWS * f.w
    ensures Levels(Pcm(f), 2, At(WINDOWS, f.w), f.w, level)[i] == level(Win(f, i))
  {
    var w := f.w;
    CountIs(WINDOWS, w);
    WinFits(w, i);
    Places(w);
    PcmSize(f);
    hide Pcm, WindowCount, Levels;
    LevelIs(Pcm(f), 2, At(WINDOWS, w), w, level, i);
    assert i * w == At(i, w);
    hide At;
    assert Min(At(i, w) + w, At(WINDOWS, w)) == At(i, w) + w;
  }

  lemma PcmSize(f: Sound)
    ensures |Pcm(f)| == 2 * (WINDOWS * f.w) && Whole(Pcm(f), 2, At(WINDOWS, f.w))
  {
    Places(f.w);
  }

  /** No window of the file is louder than this. */
  ghost function Ceiling(f: Sound, level: seq<byte> -> real): real
    requires f.w > 0
  {
    match f.plan
    case Gap => 0.0375
    case Click =>
      WinFits(f.w, FIRST);
      Larger(0.0375, level(Win(f, FIRST)))
    case Burst => 0.1475
  }

  lemma FirstAtMost(f: Sound, level: seq<byte> -> real, i: nat)
    requires IsRms(level) && WellFormed(f) && i < WINDOWS
    ensures 0 <= At(i, f.w) && At(i, f.w) + f.w <= WINDOWS * f.w
    ensures 0.0 <= level(Win(f, i)) <= Ceiling(f, level)
  {
    hide At, Piece, IsRms, Energy, Sample, WellFormed, IsSilent, BurstWindow;
    WinFits(f.w, i);
    WinFits(f.w, FIRST);
    GapIsOne(f);
    SoundWindows(f, i);
    if IsSilent(f, i) {
      SilentEnergy(f, i);
      ClearOrLess(f, At(i, f.w), f.w, level);
    } else if SECOND <= i < STOP {
      ToneEnergy(f, i);
      ClearOrLess(f, At(i, f.w), f.w, level);
    } else if f.plan.Gap? {
      GapEnergy(f, i);
      ClearOrLess(f, At(i, f.w), f.w, level);
    } else if f.plan.Click? {
      ClicksAreLevel(f, level, i);
    } else if i == BurstWindow(f) {
      BurstEnergy(f);
      DilutedBurst(f, At(i, f.w), f.w, level);
    } else {
      WeakEnergy(f, i);
      DilutedBurst(f, At(i, f.w), f.w, level);
    }
  }

  lemma SoundWindows(f: Sound, i: int)
    requires f.w > 0
    ensures !IsSilent(f, i) && !(SECOND <= i < STOP) ==>
              match f.plan
              case Gap => i == FIRST - 1 || i == FIRST + 1
              case Click => i == FIRST || i == FIRST + 1
              case Burst => i == FIRST || i == FIRST + 1 || i == BurstWindow(f)
  {
  }

  lemma GapIsOne(f: Sound)
    requires WellFormed(f)
    ensures f.w > 0 && (f.plan.Gap? ==> f.w == 1)
  {
  }

  lemma ClicksAreLevel(f: Sound, level: seq<byte> -> real, i: nat)
    requires IsRms(level) && WellFormed(f) && f.plan.Click? && (i == FIRST || i == FIRST + 1)
    ensures 0 <= At(i, f.w) && At(i, f.w) + f.w <= WINDOWS * f.w
    ensures 0 <= At(FIRST, f.w) && At(FIRST, f.w) + f.w <= WINDOWS * f.w
    ensures level(Win(f, i)) == level(Win(f, FIRST)) >= MIN_RMS
  {
    hide At, Piece, IsRms, Energy, Sample, WellFormed;
    WinFits(f.w, i);
    WinFits(f.w, FIRST);
    GapIsOne(f);
    ClickEnergy(f, FIRST);
    ClickEnergy(f, i);
    EnoughClicks(f, At(FIRST, f.w), f.w, level);
    SameEnergy(f, At(i, f.w), At(FIRST, f.w), f.w, level);
  }

  /** What the first pass detects: both sounds, and no silent window. */
  ghost predicate FirstPattern(f: Sound, active: seq<bool>)
    requires f.w > 0
  {
    && |active| == WINDOWS
    && forall i :: 0 <= i < WINDOWS ==> (IsSilent(f, i) ==> !active[i]) && (IsHeard(f, i) ==> active[i])
  }

  predicate IsHeard(f: Sound, i: int) {
    SECOND <= i < STOP || i == FIRST + 1 || i == if f.plan.Gap? then FIRST - 1 else FIRST
  }

  lemma SilentLevel(f: Sound, level: seq<byte> -> real, i: nat)
    requires IsRms(level) && WellFormed(f) && i < WINDOWS && IsSilent(f, i)
    ensures 0 <= At(i, f.w) && At(i, f.w) + f.w <= WINDOWS * f.w
    ensures level(Win(f, i)) < MIN_RMS
  {
    hide At, Piece, IsRms, Energy, Sample, IsSilent;
    WinFits(f.w, i);
    GapIsOne(f);
    SilentEnergy(f, i);
    hide WellFormed;
    TooFewClicks(f, At(i, f.w), f.w, level);
  }

  lemma HeardLevel(f: Sound, level: seq<byte> -> real, i: nat)
    requires IsRms(level) && WellFormed(f) && i < WINDOWS && IsHeard(f, i)
    ensures 0 <= At(i, f.w) && At(i, f.w) + f.w <= WINDOWS * f.w
    ensures level(Win(f, i)) >= Threshold(Ceiling(f, level))
  {
    hide At, Piece, IsRms, Energy, Sample, WellFormed;
    WinFits(f.w, i);
    WinFits(f.w, FIRST);
    GapIsOne(f);
    if SECOND <= i < STOP {
      ToneEnergy(f, i);
      ClearOrMore(f, At(i, f.w), f.w, level);
    } else if f.plan.Gap? {
      GapEnergy(f, i);
      ClearOrMore(f, At(i, f.w), f.w, level);
    } else if f.plan.Click? {
      ClicksAreLevel(f, level, i);
    } else {
      WeakEnergy(f, i);
      WeakOrMore(f, At(i, f.w), f.w, level);
    }
  }

  lemma FirstDetection(f: Sound, level: seq<byte> -> real)
    requires IsRms(level) && WellFormed(f)
    ensures f.w > 0 && Whole(Pcm(f), 2, At(WINDOWS, f.w))
    ensures FirstPattern(f, ActiveWindows(Levels(Pcm(f), 2, At(WINDOWS, f.w), f.w, level)))
  {
    hide At, Pcm, Levels, Peak, Threshold, IsRms, WellFormed, IsSilent, IsHeard, Win, Ceiling;
    GapIsOne(f);
    PcmSize(f);
    CountIs(WINDOWS, f.w);
    var levels := Levels(Pcm(f), 2, At(WINDOWS, f.w), f.w, level);
    forall i | 0 <= i < WINDOWS ensures levels[i] <= Ceiling(f, level) {
      FirstLevel(f, level, i);
      FirstAtMost(f, level, i);
    }
    FirstLevel(f, level, 0);
    FirstAtMost(f, level, 0);
    PeakOfPart(levels, Ceiling(f, level));
    ThresholdIsMonotone(Peak(levels), Ceiling(f, level));
    ThresholdAtLeast(Peak(levels));
    forall i | 0 <= i < WINDOWS
      ensures (IsSilent(f, i) ==> levels[i] < MIN_RMS) && (IsHeard(f, i) ==> levels[i] >= Threshold(Ceiling(f, level)))
    {
      FirstLevel(f, level, i);
      if IsSilent(f, i) {
        SilentLevel(f, level, i);
      }
      if IsHeard(f, i) {
        HeardLevel(f, level, i);
      }
    }
  }

  lemma ThresholdAtLeast(peak: real)
    ensures MIN_RMS <= Threshold(peak) <= MAX_RMS
    ensures peak >= 0.15 ==> Threshold(peak) == MAX_RMS
  {
  }

  /** The stable windows reach from the first sound to the end of the second. */
  lemma FirstSpan(f: Sound, active: seq<bool>)
    requires WellFormed(f) && FirstPattern(f, active)
    ensures FirstStable(active, 0) == FIRST && LastStable(active, |active|) == STOP - 1
  {
    hide At;
    forall i | 0 <= i < WINDOWS ensures Stable(active, i) ==> FIRST <= i < STOP {
      assert 0 <= i - 1 && IsSilent(f, i - 1) ==> !active[i - 1];
      assert IsSilent(f, i) ==> !active[i];
      assert i + 1 < WINDOWS && IsSilent(f, i + 1) ==> !active[i + 1];
    }
    assert IsHeard(f, FIRST + 1) && IsHeard(f, STOP - 1) && IsHeard(f, STOP - 2);
    assert IsHeard(f, if f.plan.Gap? then FIRST - 1 else FIRST);
    assert Stable(active, FIRST) && Stable(active, STOP - 1);
    hide Stable, WellFormed, FirstPattern;
    StableUnique(active, FIRST, STOP - 1);
  }

  // ----- The file for a rate -----

  /** The highest rate at which the file fits the 32-bit size field of its header. */
  const MAX_RATE: nat := 1206451499

  function Pre(rate: nat): nat {
    rate * 200 / 1000
  }

  function Post(rate: nat): nat {
    rate * 300 / 1000
  }

  /** As few full-scale frames as make a window of w frames active. */
  function Clicks(w: nat): nat {
    (81 * w + 3999999) / 4000000
  }

  function SoundFor(rate: nat): Sound {
    var w := WindowFrames(rate);
    if rate < 5 then Sound(Gap, w, 0, 0)
    else if Pre(rate) % w != 0 then Sound(Click, w, Clicks(w), 0)
    else Sound(Burst, w, Post(rate) % w, At(STOP, w) + Post(rate))
  }

  lemma RateFacts(rate: nat)
    requires 0 < rate <= MAX_RATE && !MarginsFit(rate)
    ensures var w, pre, post := WindowFrames(rate), Pre(rate), Post(rate);
            && rate <= 75 * w && pre <= 15 * w && post <= 23 * w && 178 * w < TWO32
            && (rate < 5 ==> w == 1 && pre == 0)
            && (rate >= 5 ==>
                  && w >= 2 && 10 * w <= pre <= 10 * w + 9 && 15 * w <= post <= 15 * w + 14
                  && (pre == 10 * w ==> post <= 15 * w + 1) && (pre % w != 0 || post % w != 0))
  {
    var w := WindowFrames(rate);
    assert rate < 100 ==> w == 1;
  }

  lemma ClickFits(w: nat, pre: nat)
    requires w >= 2 && 10 * w <= pre <= 10 * w + 9 && pre % w != 0
    ensures var m := Clicks(w);
            && 1 <= m <= w - pre % w && 4000000 * (m - 1) < 81 * w <= 4000000 * m
  {
    if w > 9 {
      RemainderIsUnique(pre, 10, pre - 10 * w, w);
    }
  }

  lemma BurstFits(w: nat, pre: nat, post: nat)
    requires w >= 2 && 10 * w <= pre <= 10 * w + 9 && 15 * w <= post <= 15 * w + 14
    requires pre == 10 * w ==> post <= 15 * w + 1
    requires pre % w == 0 && post % w != 0
    ensures 0 < 10 * (post % w) <= 9 * w
  {
    if w > 9 {
      RemainderIsUnique(pre, 10, pre - 10 * w, w);
      RemainderIsUnique(post, 15, post - 15 * w, w);
    }
  }

  lemma BurstPlace(w: nat, post: nat)
    requires w > 0 && 15 * w <= post <= 23 * w
    ensures var start := At(STOP, w) + post - post % w;
            && start / w == STOP + post / w && start == At(STOP + post / w, w)
            && STOP + 2 <= STOP + post / w < WINDOWS
  {
    var q := post / w;
    AtQuotient(post, w);
    AtAdds(STOP, q, w);
    AtAdds(q, 2, w);
    AtAdds(24, q, w);
    Multiples(w);
    assert post - post % w == At(q, w);
    QuotientIsUnique(At(STOP + q, w), w, STOP + q, 0);
    hide At;
  }

  lemma Multiples(w: nat)
    ensures At(2, w) == 2 * w && At(15, w) == 15 * w && At(23, w) == 23 * w && At(24, w) == 24 * w
  {
  }

  lemma SoundFits(rate: nat)
    requires 0 < rate <= MAX_RATE && !MarginsFit(rate)
    ensures WellFormed(SoundFor(rate))
  {
    hide WindowFrames, MarginsFit, Pre, Post, At, Clicks;
    RateFacts(rate);
    var w := WindowFrames(rate);
    if rate >= 5 && Pre(rate) % w != 0 {
      ClickFits(w, Pre(rate));
    } else if rate >= 5 {
      BurstFits(w, Pre(rate), Post(rate));
      BurstPlace(w, Post(rate));
    }
  }

  // ----- What the first pass keeps -----

  lemma FirstClip(rate: nat, level: seq<byte> -> real)
    requires 0 < rate <= MAX_RATE && !MarginsFit(rate) && IsRms(level)
    ensures var f := SoundFor(rate);
            var w := f.w;
            && w == WindowFrames(rate) && w > 0 && Whole(Pcm(f), 2, At(WINDOWS, w)) && At(WINDOWS, w) > 0
            && WindowCount(At(WINDOWS, w), w) == WINDOWS
            && var active := ActiveWindows(Levels(Pcm(f), 2, At(WINDOWS, w), w, level));
            SpeechClip(At(WINDOWS, w), rate, active) == Clip(At(FIRST, w) - Pre(rate), At(STOP, w) + Post(rate))
  {
    hide At, MarginsFit, Pcm, Levels, ActiveWindows, WellFormed, FirstStable, LastStable, FirstPattern, WindowFrames,
      IsRms;
    var f := SoundFor(rate);
    RateFacts(rate);
    SoundFits(rate);
    FirstDetection(f, level);
    CountIs(WINDOWS, f.w);
    Places(f.w);
    FirstSpan(f, ActiveWindows(Levels(Pcm(f), 2, At(WINDOWS, f.w), f.w, level)));
  }

  // ----- The second pass -----

  /** What the proof uses of the first cut, frames s up to e. */
  ghost predicate IsCut(f: Sound, pre: nat, s: int, e: int) {
    && WellFormed(f) && 0 <= s == At(FIRST, f.w) - pre && At(STOP, f.w) <= e <= WINDOWS * f.w && pre <= 15 * f.w
    && match f.plan
       case Gap => pre == 0
       case Click => 0 < pre % f.w <= f.w - f.m
       case Burst => e == f.e && (e - s) % f.w == f.m
  }

  /** The window of the second pass in which the second sound starts. */
  function Onset(w: nat, s: int): int
    requires w > 0
  {
    (At(SECOND, w) - s) / w
  }

  lemma OnsetFacts(f: Sound, pre: nat, s: int, e: int)
    requires IsCut(f, pre, s, e)
    ensures f.w > 0
    ensures var w, j := f.w, Onset(f.w, s);
            && j >= 24 && At(24, w) <= At(SECOND, w) - s && At(j, w) > At(23, w) + pre && At(j, w) >= 0
            && s + At(j, w) <= At(SECOND, w) < s + At(j + 1, w)
            && At(j + 2, w) == At(j + 1, w) + w && At(j + 3, w) == At(j + 2, w) + w
            && s + At(j + 3, w) <= At(STOP, w) && (f.plan.Gap? ==> j == 24)
  {
    var w := f.w;
    AtQuotient(At(SECOND, w) - s, w);
    var j := Onset(w, s);
    AtAdds(j, 1, w);
    AtAdds(j + 1, 1, w);
    AtAdds(j + 2, 1, w);
    Places(w);
    Multiples(w);
    AtAdds(23, 1, w);
    AtAdds(j + 1, 24, w);
    AtAdds(0, j, w);
    hide At;
  }

  /** Window j of the kept part, in the frames of the whole file. */
  function Later(f: Sound, s: int, e: int, j: nat): seq<byte>
    requires 0 <= s && 0 <= At(j, f.w) && s + At(j, f.w) <= e <= WINDOWS * f.w
  {
    Piece(f, s + At(j, f.w), Min(s + At(j, f.w) + f.w, e))
  }

  lemma LaterLevel(f: Sound, level: seq<byte> -> real, s: nat, e: nat, j: nat)
    requires f.w > 0 && s <= e <= WINDOWS * f.w && At(j, f.w) < e - s
    ensures 0 <= At(s, 2) <= At(e, 2) <= |Pcm(f)| && 0 <= At(j, f.w)
    ensures Whole(Stretch(Pcm(f), 2, s, e), 2, e - s) && j < WindowCount(e - s, f.w)
    ensures Levels(Stretch(Pcm(f), 2, s, e), 2, e - s, f.w, level)[j] == level(Later(f, s, e, j))
  {
    var w := f.w;
    PcmSize(f);
    AtAdds(0, j, w);
    Places(w);
    WindowExists(e - s, w, j);
    hide Pcm, WindowCount;
    StretchOfStretch(Pcm(f), 2, At(WINDOWS, w), s, e, At(j, w), Min(At(j, w) + w, e - s));
    hide Stretch, Levels, Window;
    WindowOfPart(f, s, e, j);
    LevelOfWindow(Stretch(Pcm(f), 2, s, e), e - s, w, level, j);
  }

  lemma LevelOfWindow(pcm: seq<byte>, total: nat, w: nat, level: seq<byte> -> real, j: nat)
    requires Whole(pcm, 2, total) && w > 0 && 0 <= At(j, w) < total && j < WindowCount(total, w)
    ensures Levels(pcm, 2, total, w, level)[j] == level(Window(pcm, 2, total, w, j))
  {
  }

  lemma WindowOfPart(f: Sound, s: nat, e: nat, j: nat)
    requires f.w > 0 && s <= e <= WINDOWS * f.w && 0 <= At(j, f.w) < e - s
    ensures 0 <= At(s, 2) <= At(e, 2) <= |Pcm(f)| && Whole(Stretch(Pcm(f), 2, s, e), 2, e - s)
    ensures Window(Stretch(Pcm(f), 2, s, e), 2, e - s, f.w, j) == Later(f, s, e, j)
  {
    PcmSize(f);
    Places(f.w);
    hide Pcm;
    StretchOfStretch(Pcm(f), 2, At(WINDOWS, f.w), s, e, At(j, f.w), Min(At(j, f.w) + f.w, e - s));
  }

  /** The two windows after the onset are inside the second sound. */
  lemma LateIsHeard(f: Sound, level: seq<byte> -> real, pre: nat, s: int, e: int, j: nat)
    requires IsCut(f, pre, s, e) && IsRms(level) && (j == Onset(f.w, s) + 1 || j == Onset(f.w, s) + 2)
    ensures 0 <= At(j, f.w) < e - s && e <= WINDOWS * f.w && level(Later(f, s, e, j)) >= MAX_RMS
  {
    hide At, Onset, IsRms, Piece, Sample, Energy;
    OnsetFacts(f, pre, s, e);
    AtAdds(0, j, f.w);
    assert At(SECOND, f.w) <= s + At(j, f.w) && s + At(j, f.w) + f.w <= At(STOP, f.w);
    hide IsCut;
    ToneInside(f, s + At(j, f.w));
    ClearOrMore(f, s + At(j, f.w), f.w, level);
  }

  lemma ToneInside(f: Sound, p: int)
    requires At(SECOND, f.w) <= p && p + f.w <= At(STOP, f.w)
    ensures Energy(f, p, p + f.w) == f.w * 360000
  {
    hide At;
    EnergyOf(f, p, p + f.w, CLEAR);
  }

  /** The one window that may be heard early: the far side of the gap, or the whole click. */
  function Stray(f: Sound, pre: nat): int
    requires f.w > 0
  {
    match f.plan
    case Gap => 1
    case Click => 1 + pre / f.w
    case Burst => -1
  }

  lemma EarlyGap(f: Sound, pre: nat, s: int, e: int, j: nat)
    requires IsCut(f, pre, s, e) && f.plan.Gap? && j < Onset(f.w, s) && j != 1
    ensures s + At(j, f.w) + f.w <= At(SECOND, f.w)
    ensures Energy(f, s + At(j, f.w), s + At(j, f.w) + f.w) == 0
  {
    OnsetFacts(f, pre, s, e);
    Places(f.w);
    hide Onset;
    assert At(j, 1) == j;
    EnergyOf(f, s + j, s + j + 1, 0);
  }

  lemma EarlyWeak(f: Sound, pre: nat, s: int, e: int, j: nat)
    requires IsCut(f, pre, s, e) && f.plan.Burst? && j < Onset(f.w, s)
    ensures s + At(j, f.w) + f.w <= At(SECOND, f.w)
    ensures Energy(f, s + At(j, f.w), s + At(j, f.w) + f.w) <= f.w * 336400
  {
    OnsetFacts(f, pre, s, e);
    AtAdds(j, Onset(f.w, s), f.w);
    AtAdds(STOP, BurstWindow(f), f.w);
    Places(f.w);
    hide At, Onset, BurstWindow;
    EnergyAtMost(f, s + At(j, f.w), s + At(j, f.w) + f.w, WEAK);
  }

  /**
   * A stretch that stops before the boundary or starts after the click misses at least one frame of its nearer half.
   */
  lemma PartOfClick(f: Sound, p: int)
    requires WellFormed(f) && f.plan.Click? && p + f.w <= At(SECOND, f.w)
    requires p + f.w < At(FIRST + 1, f.w) || p >= At(FIRST + 1, f.w) + f.m
    ensures Energy(f, p, p + f.w) <= (f.m - 1) * 1073741824
  {
    var w, b := f.w, At(FIRST + 1, f.w);
    hide At;
    if p + w < b && p + w > b - f.m {
      var mid := if p < b - f.m then b - f.m else p;
      EnergySplit(f, p, mid, p + w);
      EnergyOf(f, p, mid, 0);
      EnergyAtMost(f, mid, p + w, CLICK);
    } else {
      EnergyOf(f, p, p + w, 0);
    }
  }

  /** Only the window that starts pre % w frames before the boundary has enough of the click. */
  lemma EarlyClick(f: Sound, pre: nat, s: int, e: int, j: nat)
    requires IsCut(f, pre, s, e) && f.plan.Click? && j < Onset(f.w, s) && j != Stray(f, pre)
    ensures s + At(j, f.w) + f.w <= At(SECOND, f.w)
    ensures Energy(f, s + At(j, f.w), s + At(j, f.w) + f.w) <= (f.m - 1) * 1073741824
  {
    var w, q := f.w, pre / f.w;
    OnsetFacts(f, pre, s, e);
    AtAdds(j, Onset(w, s), w);
    StrayPlace(w, pre);
    AtAdds(j, 1 + q, w);
    AtAdds(1 + q, j, w);
    hide At, Onset, Energy, Sample;
    PartOfClick(f, s + At(j, w));
  }

  lemma StrayPlace(w: nat, pre: nat)
    requires w > 0
    ensures At(FIRST, w) - pre + At(1 + pre / w, w) == At(FIRST + 1, w) - pre % w
  {
    assert pre == pre / w * w + pre % w;
    assert (1 + pre / w) * w == w + pre / w * w;
  }

  lemma EarlyIsUnheard(f: Sound, level: seq<byte> -> real, pre: nat, s: int, e: int, j: nat)
    requires IsCut(f, pre, s, e) && IsRms(level) && j < Onset(f.w, s) && j != Stray(f, pre)
    ensures 0 <= At(j, f.w) < e - s && e <= WINDOWS * f.w
    ensures level(Later(f, s, e, j)) < if f.plan.Burst? then MAX_RMS else MIN_RMS
  {
    hide At, Onset, IsRms, Piece, Energy, Sample;
    OnsetFacts(f, pre, s, e);
    AtAdds(0, j, f.w);
    Places(f.w);
    match f.plan {
      case Gap =>
        EarlyGap(f, pre, s, e, j);
        TooFewClicks(f, s + At(j, f.w), f.w, level);
      case Click =>
        EarlyClick(f, pre, s, e, j);
        TooFewClicks(f, s + At(j, f.w), f.w, level);
      case Burst =>
        EarlyWeak(f, pre, s, e, j);
        WeakOrLess(f, s + At(j, f.w), f.w, level);
    }
  }

  /** The windows of the second pass that are active. */
  function SecondActive(f: Sound, level: seq<byte> -> real, s: nat, e: nat): seq<bool>
    requires f.w > 0 && s <= e && 0 <= At(s, 2) <= At(e, 2) <= |Pcm(f)|
    requires Whole(Stretch(Pcm(f), 2, s, e), 2, e - s)
  {
    ActiveWindows(Levels(Stretch(Pcm(f), 2, s, e), 2, e - s, f.w, level))
  }

  /** The burst is alone in the short window at the end. */
  lemma BurstStandsOut(f: Sound, level: seq<byte> -> real, pre: nat, s: nat, e: nat)
    requires IsCut(f, pre, s, e) && IsRms(level) && f.plan.Burst?
    ensures 0 <= At((e - s) / f.w, f.w) < e - s && e <= WINDOWS * f.w
    ensures level(Later(f, s, e, (e - s) / f.w)) >= 0.15
  {
    hide At, IsRms, Piece, Energy, Sample, BurstWindow;
    var q := (e - s) / f.w;
    Places(f.w);
    BurstEnergy(f);
    LastPlace(e - s, f.w);
    assert Later(f, s, e, q) == Piece(f, e - f.m, e - f.m + f.m);
    WholeBurst(f, e - f.m, f.m, level);
  }

  lemma LastPlace(n: nat, w: nat)
    requires w > 0
    ensures At(n / w, w) == n - n % w
  {
  }

  lemma SecondThreshold(f: Sound, level: seq<byte> -> real, pre: nat, s: nat, e: nat)
    requires IsCut(f, pre, s, e) && IsRms(level) && f.w > 0 && s <= e && 0 <= At(s, 2) <= At(e, 2) <= |Pcm(f)|
    requires Whole(Stretch(Pcm(f), 2, s, e), 2, e - s)
    ensures var levels := Levels(Stretch(Pcm(f), 2, s, e), 2, e - s, f.w, level);
            Threshold(Peak(levels)) <= MAX_RMS
            && Threshold(Peak(levels)) >= if f.plan.Burst? then MAX_RMS else MIN_RMS
  {
    hide At, IsRms, Pcm, Levels, Stretch, WindowCount, Piece, Whole, Threshold, WellFormed;
    var levels := Levels(Stretch(Pcm(f), 2, s, e), 2, e - s, f.w, level);
    ThresholdAtLeast(Peak(levels));
    if f.plan.Burst? {
      BurstStandsOut(f, level, pre, s, e);
      LaterLevel(f, level, s, e, (e - s) / f.w);
    }
  }

  /** Sound sets in at window j + 1, with at most one stray active window before j. */
  predicate IsOnset(active: seq<bool>, j: int, stray: int) {
    && 24 <= j < |active| - 2 && active[j + 1] && active[j + 2] && stray <= 16
    && forall i :: 0 <= i < j && i != stray ==> !active[i]
  }

  lemma StableOnset(active: seq<bool>, j: int, stray: int)
    requires IsOnset(active, j, stray)
    ensures Stable(active, j + 1) && forall i :: 0 <= i < j ==> !Stable(active, i)
  {
  }

  lemma CutIsPart(f: Sound, pre: nat, s: nat, e: nat)
    requires IsCut(f, pre, s, e)
    ensures f.w > 0 && s <= e <= WINDOWS * f.w
    ensures 0 <= At(s, 2) <= At(e, 2) <= |Pcm(f)| && Whole(Stretch(Pcm(f), 2, s, e), 2, e - s)
  {
    PcmSize(f);
    Places(f.w);
    AtAdds(0, 0, 1);
    hide Pcm, WellFormed;
    StretchOfStretch(Pcm(f), 2, At(WINDOWS, f.w), s, e, 0, 0);
  }

  lemma StrayIsEarly(f: Sound, pre: nat, s: nat, e: nat)
    requires IsCut(f, pre, s, e)
    ensures Stray(f, pre) <= 16
  {
    AtQuotient(pre, f.w);
    AtAdds(16, pre / f.w, f.w);
    Multiples(f.w);
    assert At(16, f.w) == 16 * f.w;
    hide At, WellFormed;
  }

  lemma SecondOnset(f: Sound, level: seq<byte> -> real, pre: nat, s: nat, e: nat)
    requires IsCut(f, pre, s, e) && IsRms(level) && s <= e
    requires 0 <= At(s, 2) <= At(e, 2) <= |Pcm(f)| && Whole(Stretch(Pcm(f), 2, s, e), 2, e - s)
    ensures f.w > 0 && IsOnset(SecondActive(f, level, s, e), Onset(f.w, s), Stray(f, pre))
  {
    hide At, IsRms, Pcm, Levels, Stretch, WindowCount, Piece, Whole, Threshold, Peak, WellFormed, Onset, Stray, Later;
    CutIsPart(f, pre, s, e);
    OnsetFacts(f, pre, s, e);
    StrayIsEarly(f, pre, s, e);
    SecondThreshold(f, level, pre, s, e);
    var j: nat := Onset(f.w, s);
    hide IsCut;
    LateIsHeard(f, level, pre, s, e, j + 1);
    LateIsHeard(f, level, pre, s, e, j + 2);
    LaterLevel(f, level, s, e, j + 1);
    LaterLevel(f, level, s, e, j + 2);
    var active := SecondActive(f, level, s, e);
    forall i | 0 <= i < j && i != Stray(f, pre) ensures i < |active| && !active[i] {
      EarlyIsUnheard(f, level, pre, s, e, i);
      LaterLevel(f, level, s, e, i);
    }
  }

  /** When nothing is stable for the first half second of a file, pre-roll included, its beginning is cut off. */
  lemma LateSpeechIsCut(data: seq<byte>, wav: PcmWav, level: seq<byte> -> real, j: nat)
    requires Readable(wav) && j < |Active(wav, level)| && Stable(Active(wav, level), j)
    requires forall i :: 0 <= i < j - 1 ==> !Stable(Active(wav, level), i)
    requires 10 * (At(j - 1, WindowFrames(wav.sampleRate)) - Pre(wav.sampleRate)) >= 3 * wav.sampleRate as int
    ensures var out := TrimParsed(data, wav, level);
            out.ok && out.stats.applied && |out.data| < 44 + |wav.pcm|
  {
    hide Active, SpeechClip, AudioTrim.Frames, WindowFrames, At, Part, Stable, Pre, DurationMS, Encode, Readable;
    var total, rate := AudioTrim.Frames(wav), wav.sampleRate as int;
    RateIsPositive(wav);
    ActiveSize(wav, level);
    LateClip(total, rate, Active(wav, level), j);
    var clip := SpeechClip(total, rate, Active(wav, level));
    SecondSaved(total, clip.end - clip.start, rate);
    PartIsShorter(wav, clip.start, clip.end);
    EncodedSize(wav.channels, wav.sampleRate, Part(wav, clip.start, clip.end));
  }

  lemma RateIsPositive(wav: PcmWav)
    requires Readable(wav)
    ensures wav.sampleRate > 0
  {
  }

  lemma ActiveSize(wav: PcmWav, level: seq<byte> -> real)
    requires Readable(wav)
    ensures |Active(wav, level)| == WindowCount(AudioTrim.Frames(wav), WindowFrames(wav.sampleRate))
  {
  }

  lemma LateClip(total: nat, rate: nat, active: seq<bool>, j: nat)
    requires rate > 0 && |active| == WindowCount(total, WindowFrames(rate)) && j < |active| && Stable(active, j)
    requires forall i :: 0 <= i < j - 1 ==> !Stable(active, i)
    requires 10 * (At(j - 1, WindowFrames(rate)) - Pre(rate)) >= 3 * rate
    ensures var clip := SpeechClip(total, rate, active);
            clip.Clip? && 0 < 3 * rate <= 10 * clip.start && clip.start < clip.end <= total
  {
    hide Stable, WindowFrames, At, FirstStable, LastStable, WindowCount;
    var first, last := FirstStable(active, 0), LastStable(active, |active|);
    StableOrdered(active, first, last);
    AtAdds(j - 1, first, WindowFrames(rate));
    assert first >= j - 1;
  }

  lemma SecondSaved(total: int, kept: int, rate: nat)
    requires rate > 0 && 0 <= kept <= total && 10 * (total - kept) >= 3 * rate
    ensures DurationMS(total, rate) - DurationMS(kept, rate) >= MIN_SAVINGS_MS
  {
    var a, b := total * 1000, kept * 1000;
    assert a >= b + 300 * rate;
    AtQuotient(a, rate);
    AtQuotient(b, rate);
    AtAdds(b / rate, 300, rate);
    AtAdds(a / rate + 1, b / rate + 300, rate);
    AtAdds(a / rate, 1, rate);
    assert At(300, rate) == 300 * rate;
    hide At;
  }

  lemma PartIsShorter(wav: PcmWav, start: nat, end: nat)
    requires Readable(wav) && 0 < start <= end <= AudioTrim.Frames(wav)
    ensures |Part(wav, start, end)| < |wav.pcm|
  {
    StretchFits(wav.pcm, FrameBytes(wav), AudioTrim.Frames(wav), start, end);
    AtAdds(0, start, FrameBytes(wav));
  }

  // ----- The theorem -----

  /** The first cut for a rate is as the second pass needs it. */
  lemma CutFits(rate: nat)
    requires 0 < rate <= MAX_RATE && !MarginsFit(rate)
    ensures var f := SoundFor(rate);
            var s, e := At(FIRST, f.w) - Pre(rate), At(STOP, f.w) + Post(rate);
            && f.w == WindowFrames(rate) && IsCut(f, Pre(rate), s, e) && 10 * s >= 3 * rate
            && 0 < 2 * (WINDOWS * f.w) < TWO32
  {
    hide WindowFrames, MarginsFit, Pre, Post, At, Clicks, WellFormed;
    RateFacts(rate);
    SoundFits(rate);
    var w, pre, post := WindowFrames(rate), Pre(rate), Post(rate);
    Places(w);
    if rate >= 5 && pre % w != 0 {
      ClickFits(w, pre);
    } else if rate >= 5 {
      SpanLeftOver(w, pre, post);
    }
  }

  lemma SpanLeftOver(w: nat, pre: nat, post: nat)
    requires w > 0 && pre % w == 0
    ensures (At(STOP, w) + post - (At(FIRST, w) - pre)) % w == post % w
  {
    ModuloShift(pre / w, post, w);
    ModuloShift(27, pre + post, w);
    assert At(STOP, w) - At(FIRST, w) == 27 * w;
  }

  lemma ModuloShift(k: nat, y: nat, w: nat)
    requires w > 0
    ensures (k * w + y) % w == y % w
  {
    assert (k + y / w) * w == k * w + y / w * w;
    RemainderIsUnique(k * w + y, k + y / w, y % w, w);
  }

  lemma FirstFile(rate: nat, wav: PcmWav)
    requires 0 < rate <= MAX_RATE && !MarginsFit(rate) && wav == PcmWav(1, rate, 16, Pcm(SoundFor(rate)))
    ensures Readable(wav) && AudioTrim.Frames(wav) == At(WINDOWS, WindowFrames(rate))
    ensures 0 < |wav.pcm| < TWO32 && |wav.pcm| % 2 == 0
  {
    hide MarginsFit, WindowFrames, Pcm, SoundFor, IsCut;
    CutFits(rate);
    PcmSize(SoundFor(rate));
    FramesOf(wav, WINDOWS, WindowFrames(rate));
  }

  lemma FramesOf(wav: PcmWav, n: nat, w: nat)
    requires wav.channels == 1 && wav.sampleRate > 0 && wav.bitsPerSample == 16
    requires |wav.pcm| == 2 * (n * w) && 0 < |wav.pcm| < TWO32
    ensures Readable(wav) && AudioTrim.Frames(wav) == At(n, w)
  {
    var m := n * w;
    assert 2 * m / 2 == m && 2 * m % 2 == 0;
  }

  lemma FirstPass(rate: nat, data: seq<byte>, wav: PcmWav, level: seq<byte> -> real)
    requires 0 < rate <= MAX_RATE && !MarginsFit(rate) && IsRms(level)
    requires wav == PcmWav(1, rate, 16, Pcm(SoundFor(rate))) && Readable(wav)
    ensures var w := WindowFrames(rate);
            var s, e := At(FIRST, w) - Pre(rate), At(STOP, w) + Post(rate);
            var out := TrimParsed(data, wav, level);
            && 0 < s < e <= AudioTrim.Frames(wav)
            && out.ok && out.stats.applied && out.data == Encode(1, rate, Part(wav, s, e))
  {
    hide At, Pcm, WindowFrames, MarginsFit, SpeechClip, Part, Encode, DurationMS, SoundFor, Pre, Post, Levels, IsRms;
    var w := WindowFrames(rate);
    FirstFile(rate, wav);
    FirstFound(rate, wav, level);
    CutFits(rate);
    Places(w);
    hide Active, AudioTrim.Frames, IsCut;
    SecondSaved(AudioTrim.Frames(wav), At(STOP, w) + Post(rate) - (At(FIRST, w) - Pre(rate)), rate);
  }

  lemma FirstFound(rate: nat, wav: PcmWav, level: seq<byte> -> real)
    requires 0 < rate <= MAX_RATE && !MarginsFit(rate) && IsRms(level)
    requires wav == PcmWav(1, rate, 16, Pcm(SoundFor(rate))) && Readable(wav)
    ensures var w := WindowFrames(rate);
            var kept := Clip(At(FIRST, w) - Pre(rate), At(STOP, w) + Post(rate));
            SpeechClip(AudioTrim.Frames(wav), rate, Active(wav, level)) == kept
  {
    hide At, Pcm, WindowFrames, MarginsFit, SpeechClip, SoundFor, Pre, Post, Levels, ActiveWindows, IsRms,
      AudioTrim.Frames;
    FirstFile(rate, wav);
    FirstClip(rate, level);
  }

  lemma SecondPass(rate: nat, data: seq<byte>, wav: PcmWav, level: seq<byte> -> real)
    requires 0 < rate <= MAX_RATE && !MarginsFit(rate) && IsRms(level)
    requires var f := SoundFor(rate);
             var s, e := At(FIRST, f.w) - Pre(rate), At(STOP, f.w) + Post(rate);
             && 0 <= s <= e && 0 <= At(s, 2) <= At(e, 2) <= |Pcm(f)|
             && wav == PcmWav(1, rate, 16, Stretch(Pcm(f), 2, s, e)) && Readable(wav)
             && AudioTrim.Frames(wav) == e - s
    ensures var out := TrimParsed(data, wav, level);
            out.ok && out.stats.applied && |out.data| < 44 + |wav.pcm|
  {
    hide At, Pcm, WindowFrames, ActiveWindows, Levels, AudioTrim.Frames, MarginsFit, Stretch, Onset, Stable, IsCut, Pre,
      Post, SoundFor, IsRms, IsOnset, Stray;
    var f := SoundFor(rate);
    var s, e := At(FIRST, f.w) - Pre(rate), At(STOP, f.w) + Post(rate);
    CutFits(rate);
    RateFacts(rate);
    CutIsPart(f, Pre(rate), s, e);
    SecondOnset(f, level, Pre(rate), s, e);
    StableOnset(SecondActive(f, level, s, e), Onset(f.w, s), Stray(f, Pre(rate)));
    OnsetInside(SecondActive(f, level, s, e), Onset(f.w, s), Stray(f, Pre(rate)));
    OnsetFacts(f, Pre(rate), s, e);
    Multiples(f.w);
    assert Active(wav, level) == SecondActive(f, level, s, e);
    LateSpeechIsCut(data, wav, level, Onset(f.w, s) + 1);
  }

  lemma OnsetInside(active: seq<bool>, j: int, stray: int)
    requires IsOnset(active, j, stray)
    ensures 0 <= j && j + 1 < |active|
  {
  }

  /**
   * Idempotence needs the margins to be whole windows: at any other rate, up to 1.2 GHz, one file is cut twice by every
   * measure that is the root mean square.
   */
  lemma UnfitMarginsCutTwice(rate: nat, level: seq<byte> -> real) returns (data: seq<byte>)
    requires 0 < rate <= MAX_RATE && !MarginsFit(rate) && IsRms(level)
    ensures Parse(data).Some? && Parse(data).value.sampleRate == rate
    ensures var once := Trim(data, level);
            var twice := Trim(once.data, level);
            once.stats.applied && twice.stats.applied && twice.data != once.data
  {
    hide Parse, Encode, Trim, At, Pcm, WindowFrames, SoundFor, MarginsFit, TrimParsed, Part, AudioTrim.Frames,
      Readable, Pre, Post, IsRms, IsCut;
    var f := SoundFor(rate);
    CutFits(rate);
    var s, e := At(FIRST, f.w) - Pre(rate), At(STOP, f.w) + Post(rate);
    var wav := PcmWav(1, rate, 16, Pcm(f));
    data := Encode(1, rate, wav.pcm);
    FirstFile(rate, wav);
    EncodeRoundTripExactly(1, rate, wav.pcm);
    FirstPass(rate, data, wav, level);
    TrimOfParsed(data, wav, level);
    PartReadsBack(wav, s, e);
    FramesOfPart(wav, s, e);
    var part := wav.(pcm := Part(wav, s, e));
    PartIsStretch(wav, s, e);
    var once := Trim(data, level).data;
    SecondPass(rate, once, part, level);
    TrimOfParsed(once, part, level);
    EncodedSize(1, rate, part.pcm);
  }

  lemma PartIsStretch(wav: PcmWav, start: nat, end: nat)
    requires Readable(wav) && start <= end <= AudioTrim.Frames(wav) && wav.channels == 1
    ensures 0 <= At(start, 2) <= At(end, 2) <= |wav.pcm| && Part(wav, start, end) == Stretch(wav.pcm, 2, start, end)
  {
    StretchFits(wav.pcm, FrameBytes(wav), AudioTrim.Frames(wav), start, end);
  }

  lemma EncodedSize(channels: uint16, rate: uint32, pcm: seq<byte>)
    ensures |Encode(channels, rate, pcm)| == 44 + |pcm|
  {
  }

  /** So up to 1.2 GHz trimming is idempotent on all files of a rate exactly when its margins are whole windows. */
  lemma IdempotentExactlyWhenMarginsFit(rate: nat, level: seq<byte> -> real)
    requires 0 < rate <= MAX_RATE && IsRms(level)
    ensures MarginsFit(rate)
            <==> forall data :: HasRate(data, rate) ==>
                   Trim(Trim(data, level).data, level).data == Trim(data, level).data
  {
    hide Trim, Parse, MarginsFit, IsRms;
    if MarginsFit(rate) {
      forall data | HasRate(data, rate) ensures Trim(Trim(data, level).data, level).data == Trim(data, level).data {
        TrimIsIdempotent(data, level);
      }
    } else {
      var data := UnfitMarginsCutTwice(rate, level);
      assert HasRate(data, rate);
    }
  }

  predicate HasRate(data: seq<byte>, rate: nat) {
    Parse(data).Some? && Parse(data).value.sampleRate == rate
  }
}
