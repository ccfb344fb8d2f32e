/** The two WAV readers and the writer: internal/server/audio_trim.go and internal/qwenrealtime/wav.go. */
module Wav {
  import opened Arithmetic
  import opened Bytes
  import opened Wrappers

  type uint16 = x: int | 0 <= x < 0x1_0000

  const RIFF: seq<byte> := [82, 73, 70, 70]
  const WAVE: seq<byte> := [87, 65, 86, 69]
  const FMT: seq<byte> := [102, 109, 116, 32]
  const DATA: seq<byte> := [100, 97, 116, 97]

  function U16(data: seq<byte>, at: nat): uint16
    requires at + 2 <= |data|
  {
    data[at] as int + 256 * data[at + 1] as int
  }

  function U32(data: seq<byte>, at: nat): uint32
    requires at + 4 <= |data|
  {
    U16(data, at) + 0x1_0000 * U16(data, at + 2)
  }

  predicate HasHeader(data: seq<byte>) {
    |data| >= 12 && data[0..4] == RIFF && data[8..12] == WAVE
  }

  // ----- Chunks -----

  datatype Chunk = Chunk(id: seq<byte>, body: seq<byte>)

  predicate ChunkFits(data: seq<byte>, at: nat) {
    at + 8 <= |data| && at + 8 + U32(data, at + 4) <= |data|
  }

  function ChunkAt(data: seq<byte>, at: nat): Chunk
    requires ChunkFits(data, at)
  {
    Chunk(data[at..at + 4], data[at + 8..at + 8 + U32(data, at + 4)])
  }

  /** Where the next chunk starts: chunks are padded to even positions. */
  function NextChunk(data: seq<byte>, at: nat): nat
    requires ChunkFits(data, at)
  {
    var end := at + 8 + U32(data, at + 4);
    if end % 2 == 1 then end + 1 else end
  }

  datatype Format = Format(audioFormat: uint16, channels: uint16, sampleRate: uint32, bitsPerSample: uint16)

  function FormatOf(body: seq<byte>): Format
    requires |body| >= 16
  {
    Format(U16(body, 0), U16(body, 2), U32(body, 4), U16(body, 14))
  }

  const FORMAT_16K_MONO := Format(1, 1, 16000, 16)

  // ----- The lenient reader: parsePCMWAV -----

  datatype PcmWav = PcmWav(channels: uint16, sampleRate: uint32, bitsPerSample: uint16, pcm: seq<byte>)

  datatype Found = Found(format: Format, pcm: seq<byte>)

  const NOTHING_FOUND := Found(Format(0, 0, 0, 0), [])

  /** The last sufficiently long format chunk and the last data chunk win; all others are ignored. */
  function Take(found: Found, chunk: Chunk): Found {
    if chunk.id == FMT then
      if |chunk.body| >= 16 then found.(format := FormatOf(chunk.body)) else found
    else if chunk.id == DATA then found.(pcm := chunk.body)
    else found
  }

  function Walk(data: seq<byte>, at: nat, found: Found): Option<Found>
    decreases |data| - at
  {
    if at + 8 > |data| then Some(found)
    else if !ChunkFits(data, at) then None
    else Walk(data, NextChunk(data, at), Take(found, ChunkAt(data, at)))
  }

  lemma WalkSteps(data: seq<byte>, at: nat, found: Found)
    ensures at + 8 > |data| ==> Walk(data, at, found) == Some(found)
    ensures at + 8 <= |data| && !ChunkFits(data, at) ==> Walk(data, at, found) == None
    ensures ChunkFits(data, at) ==>
            Walk(data, at, found) == Walk(data, NextChunk(data, at), Take(found, ChunkAt(data, at)))
  {
  }

  function Accept(found: Found): Option<PcmWav> {
    var f := found.format;
    var bytesPerFrame := f.channels * f.bitsPerSample / 8;
    if f.audioFormat != 1 || f.channels == 0 || f.sampleRate == 0 || f.bitsPerSample == 0 || found.pcm == [] then None
    else if bytesPerFrame <= 0 || |found.pcm| % bytesPerFrame != 0 then None
    else Some(PcmWav(f.channels, f.sampleRate, f.bitsPerSample, found.pcm))
  }

  function Parse(data: seq<byte>): Option<PcmWav> {
    if |data| < 44 || !HasHeader(data) then None
    else
      match Walk(data, 12, NOTHING_FOUND)
      case None => None
      case Some(found) => Accept(found)
  }

  method ParsePCMWAV(data: seq<byte>) returns (wav: PcmWav, ok: bool)
    ensures Parse(data) == if ok then Some(wav) else None
  {
    var none := PcmWav(0, 0, 0, []);
    if |data| < 44 || data[0..4] != RIFF || data[8..12] != WAVE {
      return none, false;
    }
    hide Walk;
    var found := FindChunks(data);
    if found.None? {
      return none, false;
    }
    var Found(format, pcm) := found.value;
    if format.audioFormat != 1 || format.channels == 0 || format.sampleRate == 0 || format.bitsPerSample == 0
        || |pcm| == 0 {
      return none, false;
    }
    var bytesPerFrame := format.channels * format.bitsPerSample / 8;
    if bytesPerFrame <= 0 || |pcm| % bytesPerFrame != 0 {
      return none, false;
    }
    return PcmWav(format.channels, format.sampleRate, format.bitsPerSample, pcm), true;
  }

  /** The chunk loop. */
  method FindChunks(data: seq<byte>) returns (found: Option<Found>)
    ensures found == Walk(data, 12, NOTHING_FOUND)
  {
    hide Walk, U32, U16, FormatOf;
    var format := Format(0, 0, 0, 0);
    var pcm: seq<byte> := [];
    var offset: nat := 12;
    while offset + 8 <= |data|
      invariant Walk(data, 12, NOTHING_FOUND) == Walk(data, offset, Found(format, pcm))
      decreases |data| - offset
    {
      WalkSteps(data, offset, Found(format, pcm));
      var chunkSize := U32(data, offset + 4);
      var body := offset + 8;
      if body + chunkSize > |data| {
        return None;
      }
      var chunk := ChunkAt(data, offset);
      if chunk.id == FMT {
        if chunkSize >= 16 {
          format := FormatOf(chunk.body);
        }
      } else if chunk.id == DATA {
        pcm := chunk.body;
      }
      offset := body + chunkSize;
      if offset % 2 == 1 {
        offset := offset + 1;
      }
    }
    WalkSteps(data, offset, Found(format, pcm));
    found := Some(Found(format, pcm));
  }

  // ----- The strict reader: DecodeWAV16KMono -----

  datatype Strict = Strict(formatFound: bool, pcm: seq<byte>)

  /** None when the chunk makes the strict reader give up. */
  function TakeStrict(found: Strict, chunk: Chunk): Option<Strict> {
    if chunk.id == FMT then
      if |chunk.body| < 16 || FormatOf(chunk.body) != FORMAT_16K_MONO then None
      else Some(found.(formatFound := true))
    else if chunk.id == DATA then Some(found.(pcm := chunk.body))
    else Some(found)
  }

  /** This reader pads by the parity of the chunk size, not of the position. */
  function NextStrict(data: seq<byte>, at: nat): nat
    requires ChunkFits(data, at)
  {
    var size := U32(data, at + 4);
    at + 8 + if size % 2 != 0 then size + 1 else size
  }

  function WalkStrict(data: seq<byte>, at: nat, found: Strict): Option<Strict>
    decreases |data| - at
  {
    if at + 8 > |data| then Some(found)
    else if !ChunkFits(data, at) then None
    else
      match TakeStrict(found, ChunkAt(data, at))
      case None => None
      case Some(next) => WalkStrict(data, NextStrict(data, at), next)
  }

  lemma StrictSteps(data: seq<byte>, at: nat, found: Strict)
    ensures at + 8 > |data| ==> WalkStrict(data, at, found) == Some(found)
    ensures at + 8 <= |data| && !ChunkFits(data, at) ==> WalkStrict(data, at, found) == None
    ensures ChunkFits(data, at) ==>
              var next := TakeStrict(found, ChunkAt(data, at));
              WalkStrict(data, at, found)
              == if next.None? then None else WalkStrict(data, NextStrict(data, at), next.value)
  {
  }

  function Decode16KMono(data: seq<byte>): Option<seq<byte>> {
    if !HasHeader(data) then None
    else
      match WalkStrict(data, 12, Strict(false, []))
      case None => None
      case Some(found) => if found.formatFound && found.pcm != [] && |found.pcm| % 2 == 0 then Some(found.pcm) else None
  }

  /** `ok` is false for any of the five errors. */
  method DecodeWAV16KMono(data: seq<byte>) returns (samples: seq<byte>, ok: bool)
    ensures Decode16KMono(data) == if ok then Some(samples) else None
  {
    if |data| < 12 || data[..4] != RIFF || data[8..12] != WAVE {
      return [], false;
    }
    hide WalkStrict;
    var found := FindStrict(data);
    if found.None? || !found.value.formatFound || |found.value.pcm| == 0 {
      return [], false;
    }
    if |found.value.pcm| % 2 != 0 {
      return [], false;
    }
    return found.value.pcm, true;
  }

  /** The chunk loop. */
  method FindStrict(data: seq<byte>) returns (found: Option<Strict>)
    ensures found == WalkStrict(data, 12, Strict(false, []))
  {
    hide WalkStrict, U32, U16, FormatOf;
    var formatFound, pcm := false, [];
    var offset: nat := 12;
    while offset + 8 <= |data|
      invariant WalkStrict(data, 12, Strict(false, [])) == WalkStrict(data, offset, Strict(formatFound, pcm))
      decreases |data| - offset
    {
      StrictSteps(data, offset, Strict(formatFound, pcm));
      var size := U32(data, offset + 4);
      if offset + 8 + size > |data| {
        return None;
      }
      var chunk := ChunkAt(data, offset);
      if chunk.id == FMT {
        if |chunk.body| < 16 || FormatOf(chunk.body) != FORMAT_16K_MONO {
          return None;
        }
        formatFound := true;
      } else if chunk.id == DATA {
        pcm := chunk.body;
      }
      offset := offset + 8 + size;
      if size % 2 != 0 {
        offset := offset + 1;
      }
    }
    StrictSteps(data, offset, Strict(formatFound, pcm));
    found := Some(Strict(formatFound, pcm));
  }

  // ----- The two readers agree -----

  /** Every format chunk on the walk is long enough and says 16 kHz 16-bit mono PCM. */
  predicate AllFormats16K(data: seq<byte>, at: nat)
    decreases |data| - at
  {
    if !ChunkFits(data, at) then true
    else
      var chunk := ChunkAt(data, at);
      && (chunk.id == FMT ==> |chunk.body| >= 16 && FormatOf(chunk.body) == FORMAT_16K_MONO)
      && AllFormats16K(data, NextChunk(data, at))
  }

  /** Both padding rules keep the position even, so both walks visit the same chunks. */
  lemma SameNextChunk(data: seq<byte>, at: nat)
    requires ChunkFits(data, at) && at % 2 == 0
    ensures NextStrict(data, at) == NextChunk(data, at) && NextChunk(data, at) % 2 == 0
  {
    var size: int := U32(data, at + 4);
    hide U32;
  }

  /** What the lenient walk has found when the strict walk has found `strict`. */
  ghost predicate Matches(strict: Strict, found: Found) {
    strict.pcm == found.pcm && found.format == if strict.formatFound then FORMAT_16K_MONO else Format(0, 0, 0, 0)
  }

  lemma {:induction false} WalksAgree(data: seq<byte>, at: nat, strict: Strict, found: Found)
    requires at % 2 == 0 && Matches(strict, found)
    ensures WalkStrict(data, at, strict).Some? <==> Walk(data, at, found).Some? && AllFormats16K(data, at)
    ensures WalkStrict(data, at, strict).Some? ==>
            Matches(WalkStrict(data, at, strict).value, Walk(data, at, found).value)
    decreases |data| - at
  {
    if ChunkFits(data, at) {
      SameNextChunk(data, at);
      var chunk := ChunkAt(data, at);
      hide ChunkAt, ChunkFits, FormatOf, NextStrict;
      if TakeStrict(strict, chunk).Some? {
        WalksAgree(data, NextChunk(data, at), TakeStrict(strict, chunk).value, Take(found, chunk));
      }
    }
  }

  /** A file in which both a format and audio were found is at least 44 bytes long. */
  lemma {:induction false} FoundNeedsRoom(data: seq<byte>, at: nat, found: Strict)
    requires found.formatFound ==> at >= 36
    requires found.pcm != [] ==> at >= 21
    requires found.formatFound && found.pcm != [] ==> at >= 45
    requires at <= |data| + 1 && at >= 12
    ensures var end := WalkStrict(data, at, found);
            end.Some? && end.value.formatFound && end.value.pcm != [] ==> |data| >= 44
    decreases |data| - at
  {
    if ChunkFits(data, at) {
      var chunk := ChunkAt(data, at);
      if TakeStrict(found, chunk).Some? {
        hide U32, FormatOf;
        FoundNeedsRoom(data, NextStrict(data, at), TakeStrict(found, chunk).value);
      }
    }
  }

  /**
   * The strict reader accepts a file exactly when the lenient one reads it as 16 kHz 16-bit mono and no format chunk on
   * the way says otherwise; the audio is then identical.
   */
  lemma ReadersAgree(data: seq<byte>, pcm: seq<byte>)
    ensures Decode16KMono(data) == Some(pcm)
            <==> Parse(data) == Some(PcmWav(1, 16000, 16, pcm)) && AllFormats16K(data, 12)
  {
    hide Walk, WalkStrict, AllFormats16K;
    if HasHeader(data) {
      WalksAgree(data, 12, Strict(false, []), NOTHING_FOUND);
      FoundNeedsRoom(data, 12, Strict(false, []));
    }
  }

  // ----- The writer: encodePCM16WAV -----

  /** The 44 header bytes; sizes and rates wrap at their field widths as Go's conversions do. */
  function Header(channels: uint16, sampleRate: uint32, size: nat): (h: seq<byte>)
    ensures |h| == 44
  {
    FormatPart(channels, sampleRate, size) + DATA + LE(size % TWO32, 4)
  }

  function Encode(channels: uint16, sampleRate: uint32, pcm: seq<byte>): seq<byte> {
    Header(channels, sampleRate, |pcm|) + pcm
  }

  method EncodePCM16WAV(channels: uint16, sampleRate: uint32, pcm: seq<byte>) returns (wav: seq<byte>)
    ensures wav == Encode(channels, sampleRate, pcm)
  {
    var data := new byte[44 + |pcm|](_ => 0);
    FillFormat(data, channels, sampleRate, |pcm|);
    FillData(data, |pcm|);
    Copy(data, 44, pcm);
    wav := data[..];
    assert wav == data[..44 + |pcm|];
  }

  /** The header up to the format tag, then the format chunk's fields. */
  function FormatPart(channels: uint16, sampleRate: uint32, size: nat): (h: seq<byte>)
    ensures |h| == 36
  {
    var blockAlign := channels * 2 % 0x1_0000;
    RIFF + LE((36 + size) % TWO32, 4) + WAVE + FMT + LE(16, 4) + LE(1, 2) + LE(channels, 2) + LE(sampleRate, 4)
    + LE(sampleRate * blockAlign % TWO32, 4) + LE(blockAlign, 2) + LE(16, 2)
  }

  method FillFormat(data: array<byte>, channels: uint16, sampleRate: uint32, size: nat)
    requires 44 <= data.Length
    modifies data
    ensures data[..36] == FormatPart(channels, sampleRate, size)
  {
    hide LE;
    Copy(data, 0, RIFF);
    Copy(data, 4, LE((36 + size) % TWO32, 4));
    Copy(data, 8, WAVE);
    Copy(data, 12, FMT);
    Copy(data, 16, LE(16, 4));
    ghost var front := RIFF + LE((36 + size) % TWO32, 4) + WAVE + FMT + LE(16, 4);
    assert data[..20] == front;
    Copy(data, 20, LE(1, 2));
    Copy(data, 22, LE(channels, 2));
    Copy(data, 24, LE(sampleRate, 4));
    var blockAlign := channels * 2 % 0x1_0000;
    Copy(data, 28, LE(sampleRate * blockAlign % TWO32, 4));
    Copy(data, 32, LE(blockAlign, 2));
    Copy(data, 34, LE(16, 2));
  }

  method FillData(data: array<byte>, size: nat)
    requires 44 <= data.Length
    modifies data
    ensures data[..44] == old(data[..36]) + DATA + LE(size % TWO32, 4)
  {
    hide LE;
    Copy(data, 36, DATA);
    Copy(data, 40, LE(size % TWO32, 4));
  }

  // ----- Round trip -----

  lemma LE2(n: uint16, data: seq<byte>, at: nat)
    requires at + 2 <= |data| && data[at..at + 2] == LE(n, 2)
    ensures U16(data, at) == n
  {
    var s := data[at..at + 2];
    assert s[0] == data[at] && s[1] == data[at + 1];
    assert LE(n, 2) == [n % 256, n / 256 % 256];
  }

  lemma LE4(n: uint32, data: seq<byte>, at: nat)
    requires at + 4 <= |data| && data[at..at + 4] == LE(n, 4)
    ensures U32(data, at) == n
  {
    var s := data[at..at + 4];
    assert s[0] == data[at] && s[1] == data[at + 1] && s[2] == data[at + 2] && s[3] == data[at + 3];
    var low, high := n % 0x1_0000, n / 0x1_0000;
    LE4Digits(n);
    hide LE;
    LE2Digits(low, data, at);
    LE2Digits(high, data, at + 2);
  }

  lemma LE4Digits(n: uint32)
    ensures LE(n, 4)[0] == n % 256 && LE(n, 4)[1] == n % 0x1_0000 / 256
    ensures LE(n, 4)[2] == n / 0x1_0000 % 256 && LE(n, 4)[3] == n / 0x1_0000 / 256
  {
    var n1: nat, n2: nat, n3: nat := n / 256, n / 0x1_0000, n / 0x1_0000 / 256;
    assert n1 / 256 == n2 && n2 / 256 == n3 && n1 % 256 == n % 0x1_0000 / 256 && n3 % 256 == n3;
    LEStep(n, 4);
    LEStep(n1, 3);
    LEStep(n2, 2);
    LEStep(n3, 1);
    hide LE;
  }

  lemma LEStep(n: nat, width: nat)
    requires width > 0
    ensures LE(n, width) == [n % 256] + LE(n / 256, width - 1)
  {
  }

  lemma LE2Digits(n: uint16, data: seq<byte>, at: nat)
    requires at + 2 <= |data| && data[at] == n % 256 && data[at + 1] == n / 256
    ensures U16(data, at) == n
  {
  }

  lemma HeaderFields(channels: uint16, sampleRate: uint32, size: nat, pcm: seq<byte>)
    ensures var data := Header(channels, sampleRate, size) + pcm;
            && HasHeader(data) && U32(data, 4) == (36 + size) % TWO32
            && data[12..16] == FMT && U32(data, 16) == 16
            && U16(data, 20) == 1 && U16(data, 22) == channels && U32(data, 24) == sampleRate
            && U32(data, 28) == sampleRate * (channels * 2 % 0x1_0000) % TWO32
            && U16(data, 32) == channels * 2 % 0x1_0000 && U16(data, 34) == 16
            && data[36..40] == DATA && U32(data, 40) == size % TWO32
            && data[44..] == pcm
  {
    var data := Header(channels, sampleRate, size) + pcm;
    HeaderSlices(channels, sampleRate, size, pcm);
    hide LE, U16, U32, Header;
    LE4((36 + size) % TWO32, data, 4);
    LE4(16, data, 16);
    LE4(sampleRate * (channels * 2 % 0x1_0000) % TWO32, data, 28);
    LE2(channels * 2 % 0x1_0000, data, 32);
    LE2(1, data, 20);
    LE2(channels, data, 22);
    LE4(sampleRate, data, 24);
    LE2(16, data, 34);
    LE4(size % TWO32, data, 40);
  }

  lemma HeaderSlices(channels: uint16, sampleRate: uint32, size: nat, pcm: seq<byte>)
    ensures var data := Header(channels, sampleRate, size) + pcm;
            && data[0..4] == RIFF && data[4..8] == LE((36 + size) % TWO32, 4) && data[8..12] == WAVE
            && data[12..16] == FMT && data[16..20] == LE(16, 4)
            && data[20..22] == LE(1, 2) && data[22..24] == LE(channels, 2) && data[24..28] == LE(sampleRate, 4)
            && data[28..32] == LE(sampleRate * (channels * 2 % 0x1_0000) % TWO32, 4)
            && data[32..34] == LE(channels * 2 % 0x1_0000, 2)
            && data[34..36] == LE(16, 2) && data[36..40] == DATA && data[40..44] == LE(size % TWO32, 4)
            && data[44..] == pcm
  {
    hide LE, FormatPart;
    var data, format := Header(channels, sampleRate, size) + pcm, FormatPart(channels, sampleRate, size);
    FormatSlices(channels, sampleRate, size);
    assert data[..36] == format;
    forall i: nat, j: nat | i <= j <= 36 ensures data[i..j] == format[i..j] {
    }
  }

  lemma FormatSlices(channels: uint16, sampleRate: uint32, size: nat)
    ensures var h := FormatPart(channels, sampleRate, size);
            && h[0..4] == RIFF && h[4..8] == LE((36 + size) % TWO32, 4) && h[8..12] == WAVE
            && h[12..16] == FMT && h[16..20] == LE(16, 4)
            && h[20..22] == LE(1, 2) && h[22..24] == LE(channels, 2) && h[24..28] == LE(sampleRate, 4)
            && h[28..32] == LE(sampleRate * (channels * 2 % 0x1_0000) % TWO32, 4)
            && h[32..34] == LE(channels * 2 % 0x1_0000, 2)
            && h[34..36] == LE(16, 2)
  {
    hide LE;
  }

  // ----- Every file made of whole chunks -----

  predicate IsChunk(chunk: Chunk) {
    |chunk.id| == 4 && |chunk.body| < TWO32
  }

  /** A chunk as it stands in a file: its name, its size, its body, and a byte of padding behind an odd body. */
  function ChunkBytes(chunk: Chunk): seq<byte> {
    chunk.id + LE(|chunk.body|, 4) + chunk.body + if |chunk.body| % 2 == 1 then [0] else []
  }

  function Chunked(chunks: seq<Chunk>): seq<byte> {
    if chunks == [] then [] else ChunkBytes(chunks[0]) + Chunked(chunks[1..])
  }

  function TakeAll(found: Found, chunks: seq<Chunk>): Found
    decreases |chunks|
  {
    if chunks == [] then found else TakeAll(Take(found, chunks[0]), chunks[1..])
  }

  lemma FirstChunk(front: seq<byte>, chunk: Chunk, rest: seq<byte>)
    requires |front| % 2 == 0 && IsChunk(chunk)
    ensures var data := front + ChunkBytes(chunk) + rest;
            && ChunkFits(data, |front|) && ChunkAt(data, |front|) == chunk
            && NextChunk(data, |front|) == |front + ChunkBytes(chunk)|
            && |front + ChunkBytes(chunk)| % 2 == 0
  {
    hide LE, U32;
    var at, size := |front|, |chunk.body|;
    var data := front + ChunkBytes(chunk) + rest;
    assert data[at..at + 4] == chunk.id;
    assert data[at + 4..at + 8] == LE(size, 4);
    assert data[at + 8..at + 8 + size] == chunk.body;
    LE4(size, data, at + 4);
  }

  lemma {:induction false} WalkReads(front: seq<byte>, chunks: seq<Chunk>, tail: seq<byte>, found: Found)
    requires |front| % 2 == 0 && forall i :: 0 <= i < |chunks| ==> IsChunk(chunks[i])
    ensures var data := front + Chunked(chunks) + tail;
            Walk(data, |front|, found) == Walk(data, |data| - |tail|, TakeAll(found, chunks))
    decreases |chunks|
  {
    hide ChunkBytes, ChunkAt, ChunkFits, NextChunk, Take, Walk;
    var data := front + Chunked(chunks) + tail;
    WalkSteps(data, |front|, found);
    if chunks != [] {
      var front' := front + ChunkBytes(chunks[0]);
      var rest := Chunked(chunks[1..]);
      FirstChunk(front, chunks[0], rest + tail);
      assert front' + (rest + tail) == front' + rest + tail == data;
      WalkReads(front', chunks[1..], tail, Take(found, chunks[0]));
    }
  }

  /** Chunk i is the last of that name with a body of at least that size. */
  predicate IsLast(chunks: seq<Chunk>, i: nat, id: seq<byte>, least: nat) {
    && i < |chunks| && chunks[i].id == id && |chunks[i].body| >= least
    && forall j :: i < j < |chunks| ==> chunks[j].id != id || |chunks[j].body| < least
  }

  lemma {:induction false} TakesLast(chunks: seq<Chunk>, found: Found, i: nat)
    ensures IsLast(chunks, i, DATA, 0) ==> TakeAll(found, chunks).pcm == chunks[i].body
    ensures IsLast(chunks, i, FMT, 16) ==> TakeAll(found, chunks).format == FormatOf(chunks[i].body)
    decreases |chunks|
  {
    hide FormatOf;
    if 0 < i < |chunks| {
      TakesLast(chunks[1..], Take(found, chunks[0]), i - 1);
      assert chunks[1..][i - 1] == chunks[i];
    } else if chunks != [] {
      KeepsWhenNone(chunks[1..], Take(found, chunks[0]));
    }
  }

  lemma {:induction false} KeepsWhenNone(chunks: seq<Chunk>, found: Found)
    ensures (forall j :: 0 <= j < |chunks| ==> chunks[j].id != DATA) ==> TakeAll(found, chunks).pcm == found.pcm
    ensures (forall j :: 0 <= j < |chunks| ==> chunks[j].id != FMT || |chunks[j].body| < 16) ==>
              TakeAll(found, chunks).format == found.format
    decreases |chunks|
  {
    hide FormatOf;
    if chunks != [] {
      KeepsWhenNone(chunks[1..], Take(found, chunks[0]));
    }
  }

  lemma {:induction false} ChunkedIsLonger(chunks: seq<Chunk>, i: nat, j: nat)
    requires i < j < |chunks|
    ensures |Chunked(chunks)| >= |ChunkBytes(chunks[i])| + |ChunkBytes(chunks[j])|
    decreases |chunks|
  {
    if i > 0 {
      ChunkedIsLonger(chunks[1..], i - 1, j - 1);
    } else {
      ChunkedIsLongerThanOne(chunks[1..], j - 1);
    }
  }

  lemma {:induction false} ChunkedIsLongerThanOne(chunks: seq<Chunk>, i: nat)
    requires i < |chunks|
    ensures |Chunked(chunks)| >= |ChunkBytes(chunks[i])|
    decreases |chunks|
  {
    if i > 0 {
      ChunkedIsLongerThanOne(chunks[1..], i - 1);
    }
  }

  lemma TagsAre()
    ensures RIFF == Ascii("RIFF") && WAVE == Ascii("WAVE") && FMT == Ascii("fmt ") && DATA == Ascii("data")
  {
  }

  /**
   * Whatever chunks a file holds and in whatever order, the last data chunk and the last format chunk of at least
   * sixteen bytes decide; the file is refused exactly when they are not whole frames of integer PCM. Up to seven
   * bytes behind the chunks are ignored.
   */
  lemma ChunkedFileIsRead(chunks: seq<Chunk>, size: seq<byte>, tail: seq<byte>, f: nat, d: nat)
    requires |size| == 4 && |tail| < 8 && forall i :: 0 <= i < |chunks| ==> IsChunk(chunks[i])
    requires IsLast(chunks, f, Ascii("fmt "), 16) && IsLast(chunks, d, Ascii("data"), 0)
    ensures var b, pcm := chunks[f].body, chunks[d].body;
            var tag: int, channels: int := b[0] as int + 256 * b[1] as int, b[2] as int + 256 * b[3] as int;
            var sampleRate: int := b[4] as int + 256 * b[5] as int + 0x1_0000 * b[6] as int + 0x100_0000 * b[7] as int;
            var bits: int := b[14] as int + 256 * b[15] as int;
            Parse(Ascii("RIFF") + size + Ascii("WAVE") + Chunked(chunks) + tail)
            == if tag == 1 && sampleRate > 0 && pcm != []
                  && channels * bits >= 8 && |pcm| % (channels * bits / 8) == 0
               then Some(PcmWav(channels, sampleRate, bits, pcm)) else None
  {
    hide Ascii, Chunked, FormatOf, Accept, Parse, IsChunk;
    TagsAre();
    ChunkedFileIsAccepted(chunks, size, tail, f, d);
    AcceptMeans(chunks[f].body, chunks[d].body);
  }

  lemma ChunkedFileIsAccepted(chunks: seq<Chunk>, size: seq<byte>, tail: seq<byte>, f: nat, d: nat)
    requires |size| == 4 && |tail| < 8 && forall i :: 0 <= i < |chunks| ==> IsChunk(chunks[i])
    requires IsLast(chunks, f, FMT, 16) && IsLast(chunks, d, DATA, 0)
    ensures f < |chunks| && |chunks[f].body| >= 16 && d < |chunks|
    ensures Parse(RIFF + size + WAVE + Chunked(chunks) + tail)
            == Accept(Found(FormatOf(chunks[f].body), chunks[d].body))
  {
    hide Chunked, FormatOf, Walk, IsLast, Accept, HasHeader, Parse, IsChunk;
    var rest := Chunked(chunks);
    var data := RIFF + size + WAVE + rest + tail;
    WalkReads(RIFF + size + WAVE, chunks, tail, NOTHING_FOUND);
    WalkSteps(data, 12 + |rest|, TakeAll(NOTHING_FOUND, chunks));
    TakesLast(chunks, NOTHING_FOUND, f);
    TakesLast(chunks, NOTHING_FOUND, d);
    HasRoom(chunks, f, d);
    Headed(size, rest, tail);
    ParseIsAccept(data, TakeAll(NOTHING_FOUND, chunks));
  }

  lemma ParseIsAccept(data: seq<byte>, found: Found)
    requires |data| >= 44 && HasHeader(data) && Walk(data, 12, NOTHING_FOUND) == Some(found)
    ensures Parse(data) == Accept(found)
  {
    hide Walk, Accept, HasHeader;
  }

  lemma Headed(size: seq<byte>, rest: seq<byte>, tail: seq<byte>)
    requires |size| == 4
    ensures HasHeader(RIFF + size + WAVE + rest + tail)
  {
    var data := RIFF + size + WAVE + rest + tail;
    assert data[0..4] == RIFF && data[8..12] == WAVE;
  }

  /** A last chunk that ends before its size says so makes both readers refuse the file. */
  lemma CutChunkIsRefused(front: seq<byte>, chunks: seq<Chunk>, cut: Chunk, kept: nat)
    requires |front| == 12 && IsChunk(cut) && kept < |cut.body|
    requires forall i :: 0 <= i < |chunks| ==> IsChunk(chunks[i])
    ensures var data := front + Chunked(chunks) + (cut.id + LE(|cut.body|, 4) + cut.body[..kept]);
            Parse(data) == None && Decode16KMono(data) == None
  {
    hide Chunked, Walk, LE, ChunkFits, Parse, Decode16KMono;
    var tail := cut.id + LE(|cut.body|, 4) + cut.body[..kept];
    var before := front + Chunked(chunks);
    WalkReads(front, chunks, tail, NOTHING_FOUND);
    WalkSteps(before + tail, |before|, TakeAll(NOTHING_FOUND, chunks));
    CutDoesNotFit(before, cut, kept);
    RefusedByBoth(before + tail);
  }

  lemma CutDoesNotFit(before: seq<byte>, cut: Chunk, kept: nat)
    requires IsChunk(cut) && kept < |cut.body|
    ensures !ChunkFits(before + (cut.id + LE(|cut.body|, 4) + cut.body[..kept]), |before|)
  {
    hide LE, U32;
    var data := before + (cut.id + LE(|cut.body|, 4) + cut.body[..kept]);
    var at := |before|;
    assert data[at + 4..at + 8] == LE(|cut.body|, 4);
    LE4(|cut.body|, data, at + 4);
  }

  lemma RefusedByBoth(data: seq<byte>)
    requires Walk(data, 12, NOTHING_FOUND).None?
    ensures Parse(data) == None && Decode16KMono(data) == None
  {
    hide Walk, WalkStrict, AllFormats16K;
    WalksAgree(data, 12, Strict(false, []), NOTHING_FOUND);
  }

  lemma HasRoom(chunks: seq<Chunk>, f: nat, d: nat)
    requires forall i :: 0 <= i < |chunks| ==> IsChunk(chunks[i])
    requires IsLast(chunks, f, FMT, 16) && IsLast(chunks, d, DATA, 0)
    ensures f < |chunks| && |chunks[f].body| >= 16 && d < |chunks| && |Chunked(chunks)| >= 32
  {
    if f < d {
      ChunkedIsLonger(chunks, f, d);
    } else {
      ChunkedIsLonger(chunks, d, f);
    }
  }

  lemma AcceptMeans(b: seq<byte>, pcm: seq<byte>)
    requires |b| >= 16
    ensures var tag: int, channels: int := b[0] as int + 256 * b[1] as int, b[2] as int + 256 * b[3] as int;
            var sampleRate: int := b[4] as int + 256 * b[5] as int + 0x1_0000 * b[6] as int + 0x100_0000 * b[7] as int;
            var bits: int := b[14] as int + 256 * b[15] as int;
            Accept(Found(FormatOf(b), pcm))
            == if tag == 1 && sampleRate > 0 && pcm != []
                  && channels * bits >= 8 && |pcm| % (channels * bits / 8) == 0
               then Some(PcmWav(channels, sampleRate, bits, pcm)) else None
  {
    FrameIsWhole(b[2] as int + 256 * b[3] as int, b[14] as int + 256 * b[15] as int);
  }

  lemma FrameIsWhole(channels: nat, bits: nat)
    ensures channels * bits >= 8 <==> channels > 0 && bits > 0 && channels * bits / 8 > 0
  {
  }

  /** Whatever the lenient reader returns came out of one chunk, whose size has 32 bits. */
  lemma {:induction false} PcmHas32BitSize(data: seq<byte>, at: nat, found: Found)
    requires |found.pcm| < TWO32
    ensures Walk(data, at, found).Some? ==> |Walk(data, at, found).value.pcm| < TWO32
    decreases |data| - at
  {
    if ChunkFits(data, at) {
      hide U32, FormatOf;
      PcmHas32BitSize(data, NextChunk(data, at), Take(found, ChunkAt(data, at)));
    }
  }

  lemma ParsedFacts(data: seq<byte>)
    ensures Parse(data).Some? ==>
              var wav := Parse(data).value;
              && 0 < |wav.pcm| < TWO32 && wav.channels > 0 && wav.sampleRate > 0 && wav.bitsPerSample > 0
              && wav.channels * wav.bitsPerSample / 8 > 0 && |wav.pcm| % (wav.channels * wav.bitsPerSample / 8) == 0
  {
    if Parse(data).Some? {
      PcmHas32BitSize(data, 12, NOTHING_FOUND);
      hide Walk;
    }
  }

  /** Reading back what was written returns it exactly when it is non-empty, whole frames and within the size field. */
  lemma EncodeRoundTripExactly(channels: uint16, sampleRate: uint32, pcm: seq<byte>)
    ensures Parse(Encode(channels, sampleRate, pcm)) == Some(PcmWav(channels, sampleRate, 16, pcm))
            <==> channels > 0 && sampleRate > 0 && 0 < |pcm| < TWO32 && |pcm| % (2 * channels as int) == 0
  {
    ParsedFacts(Encode(channels, sampleRate, pcm));
    assert channels as int * 16 / 8 == 2 * channels as int;
    hide Parse, Encode;
    if channels > 0 && sampleRate > 0 && 0 < |pcm| < TWO32 && |pcm| % (2 * channels as int) == 0 {
      WrittenIsRead(channels, sampleRate, pcm);
    }
  }

  lemma WrittenIsRead(channels: uint16, sampleRate: uint32, pcm: seq<byte>)
    requires channels > 0 && sampleRate > 0 && 0 < |pcm| < TWO32 && |pcm| % (2 * channels as int) == 0
    ensures Parse(Encode(channels, sampleRate, pcm)) == Some(PcmWav(channels, sampleRate, 16, pcm))
  {
    hide Walk, Header, U16, U32, Accept, HasHeader;
    var data := Encode(channels, sampleRate, pcm);
    EvenSize(channels, |pcm|);
    HeaderFields(channels, sampleRate, |pcm|, pcm);
    TwoChunkWalk(data, Format(1, channels, sampleRate, 16), pcm);
    AcceptWritten(channels, sampleRate, pcm);
  }

  lemma AcceptWritten(channels: uint16, sampleRate: uint32, pcm: seq<byte>)
    requires channels > 0 && sampleRate > 0 && pcm != [] && |pcm| % (2 * channels as int) == 0
    ensures Accept(Found(Format(1, channels, sampleRate, 16), pcm)) == Some(PcmWav(channels, sampleRate, 16, pcm))
  {
    assert channels as int * 16 / 8 == 2 * channels as int;
  }

  lemma EvenSize(channels: uint16, size: nat)
    requires channels > 0 && size % (2 * channels as int) == 0
    ensures size % 2 == 0
  {
    var q := size / (2 * channels as int);
    assert size == 2 * channels as int * q == 2 * (channels as int * q);
  }

  lemma TwoChunkWalk(data: seq<byte>, format: Format, pcm: seq<byte>)
    requires |data| == 44 + |pcm| && |pcm| % 2 == 0 && |pcm| < TWO32
    requires data[12..16] == FMT && U32(data, 16) == 16 && data[36..40] == DATA && U32(data, 40) == |pcm|
            && data[44..] == pcm
    requires U16(data, 20) == format.audioFormat && U16(data, 22) == format.channels
            && U32(data, 24) == format.sampleRate
    requires U16(data, 34) == format.bitsPerSample
    ensures Walk(data, 12, NOTHING_FOUND) == Some(Found(format, pcm))
  {
    var body := data[20..36];
    assert ChunkAt(data, 12) == Chunk(FMT, body);
    assert FormatOf(body) == format;
    assert data[44..44 + |pcm|] == pcm;
    assert ChunkAt(data, 36) == Chunk(DATA, pcm);
    hide U32, U16, FormatOf;
    var found := Found(format, []);
    WalkSteps(data, 12, NOTHING_FOUND);
    WalkSteps(data, 36, found);
    WalkSteps(data, |data|, Found(format, pcm));
  }
}
