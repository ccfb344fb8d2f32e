/** The Ogg/Opus page writer of internal/dashscopeapi/ogg_opus.go, and its round trip through the parser. */
module OggWriter {
  import opened Arithmetic
  import opened Bytes
  import opened OggCrc
  import opened OggParser
  import opened OggRemainder

  /** The longest packet whose segment count fits the one-byte field. */
  const MAX_PACKET: nat := 65024

  const VENDOR: seq<byte> := [112, 117, 112, 98, 111, 120]

  // ----- What a page is -----

  /** The mutable and fixed fields of the writer. */
  datatype Writer = Writer(serial: uint32, sequence: uint32, granule: uint64, frameSamples: uint64,
                           sampleRate: uint32, channels: byte)

  /** The header bytes between the version and the segment count. */
  function Fields(w: Writer, headerType: byte, granule: uint64, checksum: uint32): (r: seq<byte>)
    ensures |r| == 21
  {
    [headerType] + LE(granule, 8) + LE(w.serial, 4) + LE(w.sequence, 4) + LE(checksum, 4)
  }

  function WithChecksum(w: Writer, packet: seq<byte>, headerType: byte, granule: uint64, checksum: uint32): seq<byte> {
    CAPTURE_PATTERN + [0] + Fields(w, headerType, granule, checksum)
    + [(|packet| / 255 + 1) % 256] + LacingOf(|packet|) + packet
  }

  function Checksum(page: seq<byte>): uint32 {
    Number(Crc(page))
  }

  /** One page as section 6 of RFC 3533 defines it: the checksum is that of the page with a zero checksum field. */
  function PageImage(w: Writer, packet: seq<byte>, headerType: byte, granule: uint64): seq<byte> {
    WithChecksum(w, packet, headerType, granule, Checksum(WithChecksum(w, packet, headerType, granule, 0)))
  }

  lemma PatchChecksum(w: Writer, packet: seq<byte>, headerType: byte, granule: uint64, checksum: uint32)
    ensures var blank := WithChecksum(w, packet, headerType, granule, 0);
            && |blank| == 27 + |packet| / 255 + 1 + |packet|
            && WithChecksum(w, packet, headerType, granule, checksum) == blank[..22] + LE(checksum, 4) + blank[26..]
            && blank[22..26] == LE(0, 4)
  {
    hide LE;
    LacingSize(|packet|);
    var front := CAPTURE_PATTERN + [0] + ([headerType] + LE(granule, 8) + LE(w.serial, 4) + LE(w.sequence, 4));
    var back := [(|packet| / 255 + 1) % 256] + LacingOf(|packet|) + packet;
    assert WithChecksum(w, packet, headerType, granule, 0) == front + LE(0, 4) + back;
    assert WithChecksum(w, packet, headerType, granule, checksum) == front + LE(checksum, 4) + back;
    assert |front| == 22;
  }

  // ----- Filling a page buffer -----

  lemma {:induction false} LacingAt(n: nat, i: nat)
    requires i < n / 255 + 1
    ensures |LacingOf(n)| == n / 255 + 1
    ensures LacingOf(n)[i] == if n - 255 * i < 255 then n - 255 * i else 255
    decreases i
  {
    LacingSize(n);
    if i == 0 {
    } else {
      LacingAt(n - 255, i - 1);
      assert LacingOf(n)[i] == LacingOf(n - 255)[i - 1];
    }
  }

  function Head(w: Writer, headerType: byte, granule: uint64, segments: byte): (r: seq<byte>)
    ensures |r| == 27
  {
    CAPTURE_PATTERN + [0] + Fields(w, headerType, granule, 0) + [segments]
  }

  /** Fills the 27 fixed header bytes of a zeroed page in the source's order; the checksum field stays zero. */
  method FillHead(page: array<byte>, w: Writer, headerType: byte, granule: uint64, segments: byte)
    requires 27 <= page.Length && forall i :: 0 <= i < page.Length ==> page[i] == 0
    modifies page
    ensures page[..27] == Head(w, headerType, granule, segments)
    ensures forall i :: 27 <= i < page.Length ==> page[i] == old(page[i])
  {
    BlankChecksum();
    hide LE;
    ghost var g, serial, sequence := LE(granule, 8), LE(w.serial, 4), LE(w.sequence, 4);
    Copy(page, 0, CAPTURE_PATTERN);
    page[4] := 0;
    page[5] := headerType;
    ghost var start := CAPTURE_PATTERN + [0] + [headerType];
    assert page[..6] == page[..4] + [page[4]] + [page[5]] == start;
    Copy(page, 6, LE(granule, 8));
    assert page[..14] == start + g;
    Copy(page, 14, LE(w.serial, 4));
    assert page[..18] == start + g + serial;
    Copy(page, 18, LE(w.sequence, 4));
    assert page[..22] == start + g + serial + sequence;
    page[26] := segments;
    assert page[..27] == page[..22] + [page[22], page[23], page[24], page[25]] + [page[26]];
  }

  lemma BlankChecksum()
    ensures LE(0, 4) == [0, 0, 0, 0]
  {
  }

  /** The segment table loop. */
  method FillLacing(page: array<byte>, size: nat)
    requires 27 + size / 255 + 1 <= page.Length
    modifies page
    ensures page[..27 + size / 255 + 1] == old(page[..27]) + LacingOf(size)
  {
    ghost var lacing := LacingOf(size);
    LacingSize(size);
    var segmentCount := size / 255 + 1;
    var remaining := size;
    for i := 0 to segmentCount
      invariant remaining == if i < segmentCount then size - 255 * i else 0
      invariant page[..27 + i] == old(page[..27]) + lacing[..i]
    {
      LacingAt(size, i);
      var segmentSize := if remaining < 255 then remaining else 255;
      page[27 + i] := segmentSize;
      remaining := remaining - segmentSize;
    }
    assert lacing[..segmentCount] == lacing;
  }

  method StampChecksum(page: array<byte>)
    requires 26 <= page.Length
    modifies page
    ensures page[..] == old(page[..22]) + LE(Checksum(old(page[..])), 4) + old(page[26..])
  {
    hide Number, Crc, Checksum, LE;
    var crc := OggCRC(page[..]);
    ChecksumIs(page[..]);
    Copy(page, 22, LE(Number(crc), 4));
    assert page[26..] == old(page[26..]);
    assert page[..] == page[..26] + page[26..];
  }

  lemma ChecksumIs(page: seq<byte>)
    ensures Checksum(page) == Number(Crc(page))
  {
  }

  method RenderPage(w: Writer, packet: seq<byte>, headerType: byte, granule: uint64) returns (data: seq<byte>)
    ensures data == PageImage(w, packet, headerType, granule)
  {
    var segmentCount := |packet| / 255 + 1;
    var page := new byte[27 + segmentCount + |packet|](_ => 0);
    FillHead(page, w, headerType, granule, segmentCount % 256);
    FillLacing(page, |packet|);
    LacingSize(|packet|);
    Copy(page, 27 + segmentCount, packet);
    ghost var blank := WithChecksum(w, packet, headerType, granule, 0);
    assert page[..] == page[..27 + segmentCount + |packet|];
    assert page[..] == blank;
    PatchChecksum(w, packet, headerType, granule, Checksum(blank));
    StampChecksum(page);
    data := page[..];
  }

  // ----- What the three operations write -----

  /** The identification header of section 5.1 of RFC 7845, with zero pre-skip, gain and mapping family. */
  function HeadPacket(w: Writer): seq<byte> {
    OPUS_HEAD + [1, w.channels] + [0, 0] + LE(w.sampleRate, 4) + [0, 0, 0]
  }

  /** The comment header of section 5.2 of RFC 7845, with an empty comment list. */
  const TAGS_PACKET: seq<byte> := OPUS_TAGS + LE(|VENDOR|, 4) + VENDOR + LE(0, 4)

  function NextSequence(w: Writer): Writer {
    w.(sequence := Add32(w.sequence, 1))
  }

  function HeaderPages(w: Writer): seq<seq<byte>> {
    [PageImage(w, HeadPacket(w), 2, 0), PageImage(NextSequence(w), TAGS_PACKET, 0, 0)]
  }

  function Advance(w: Writer): Writer {
    w.(granule := Add64(w.granule, w.frameSamples))
  }

  function PacketPage(w: Writer, packet: seq<byte>): seq<byte> {
    PageImage(w, packet, 0, Advance(w).granule)
  }

  /** Go's division of a possibly negative dividend by a positive divisor truncates toward zero. */
  function Quotient(a: int, b: int): int
    requires 0 < b
  {
    if a < 0 then -(-a / b) else a / b
  }

  function WrapInt64(x: int): int {
    (x + TWO64 / 2) % TWO64 - TWO64 / 2
  }

  class OggOpusWriter {
    var serial: uint32
    var sequence: uint32
    var granulePosition: uint64
    var frameSamples: uint64
    var sampleRate: int
    var channels: int

    ghost function State(): Writer
      reads this
    {
      Writer(serial, sequence, granulePosition, frameSamples, sampleRate % TWO32, channels % 256)
    }

    /** `now` stands for the clock reading the serial number is cut from. */
    constructor (sampleRate: int, channels: int, frameDurationMS: int, now: int)
      ensures 0 <= 48000 * frameDurationMS < TWO64 / 2 ==> frameSamples == 48 * frameDurationMS
      ensures State() == Writer(now % TWO32, 0, 0, Quotient(WrapInt64(frameDurationMS * 48000), 1000) % TWO64,
                                sampleRate % TWO32, channels % 256)
    {
      serial := now % TWO32;
      sequence, granulePosition := 0, 0;
      frameSamples := Quotient(WrapInt64(frameDurationMS * 48000), 1000) % TWO64;
      if 0 <= 48000 * frameDurationMS < TWO64 / 2 {
        FrameLength(frameDurationMS);
      }
      this.sampleRate, this.channels := sampleRate, channels;
    }

    method Headers() returns (pages: seq<seq<byte>>)
      modifies this`sequence
      ensures pages == HeaderPages(old(State()))
      ensures State() == NextSequence(NextSequence(old(State())))
    {
      hide PageImage;
      var head := FillHeadPacket(channels % 256, sampleRate % TWO32);
      var tags := FillTagsPacket();
      var first := WritePage(head, 2, 0);
      var second := WritePage(tags, 0, 0);
      pages := [first, second];
    }

    /** `ok` is false for the empty-packet error. */
    method WritePacket(packet: seq<byte>) returns (page: seq<byte>, ok: bool)
      modifies this
      ensures ok <==> packet != []
      ensures !ok ==> page == [] && State() == old(State())
      ensures ok ==> page == PacketPage(old(State()), packet) && State() == NextSequence(Advance(old(State())))
    {
      hide PageImage;
      if |packet| == 0 {
        return [], false;
      }
      granulePosition := Add64(granulePosition, frameSamples);
      page := WritePage(packet, 0, granulePosition);
      PageIgnoresPosition(old(State()), packet, 0, granulePosition);
      ok := true;
    }

    method WritePage(packet: seq<byte>, headerType: byte, granule: uint64) returns (data: seq<byte>)
      modifies this`sequence
      ensures data == PageImage(old(State()), packet, headerType, granule)
      ensures State() == NextSequence(old(State()))
    {
      hide PageImage;
      var w := Writer(serial, sequence, granulePosition, frameSamples, sampleRate % TWO32, channels % 256);
      data := RenderPage(w, packet, headerType, granule);
      sequence := Add32(sequence, 1);
    }
  }

  /** A page depends on the writer only through the serial and sequence numbers. */
  lemma PageIgnoresPosition(w: Writer, packet: seq<byte>, headerType: byte, granule: uint64)
    ensures PageImage(Advance(w), packet, headerType, granule) == PageImage(w, packet, headerType, granule)
  {
  }

  method FillHeadPacket(channels: byte, sampleRate: uint32) returns (packet: seq<byte>)
    ensures packet == OPUS_HEAD + [1, channels] + [0, 0] + LE(sampleRate, 4) + [0, 0, 0]
  {
    hide LE;
    var head := new byte[19](_ => 0);
    Copy(head, 0, OPUS_HEAD);
    head[8] := 1;
    head[9] := channels;
    assert head[..12] == OPUS_HEAD + [1, channels] + [0, 0];
    Copy(head, 12, LE(sampleRate, 4));
    packet := head[..];
    assert packet == head[..16] + [head[16], head[17], head[18]];
  }

  method FillTagsPacket() returns (packet: seq<byte>)
    ensures packet == TAGS_PACKET
  {
    BlankChecksum();
    hide LE;
    var tags := new byte[8 + 4 + |VENDOR| + 4](_ => 0);
    Copy(tags, 0, OPUS_TAGS);
    Copy(tags, 8, LE(|VENDOR|, 4));
    Copy(tags, 12, VENDOR);
    packet := tags[..];
    assert packet == tags[..18] + [tags[18], tags[19], tags[20], tags[21]];
  }

  // ----- Reading the header fields back -----

  lemma LEFits(n: nat)
    ensures n < TWO32 ==> FromLE(LE(n, 4)) == n
    ensures n < TWO64 ==> FromLE(LE(n, 8)) == n
  {
    assert Pow256(4) == TWO32 && Pow256(8) == TWO64 by {
      assert Pow256(2) == 0x1_0000 && Pow256(4) == TWO32 && Pow256(6) == 0x1_0000_0000_0000;
    }
    if n < TWO32 {
      LERoundTrip(n, 4);
    }
    if n < TWO64 {
      LERoundTrip(n, 8);
    }
  }

  lemma PageSlices(w: Writer, packet: seq<byte>, headerType: byte, granule: uint64, checksum: uint32)
    ensures var page := WithChecksum(w, packet, headerType, granule, checksum);
            && |page| >= 28 && page[..4] == CAPTURE_PATTERN && page[4] == 0 && page[5] == headerType
            && page[6..14] == LE(granule, 8) && page[14..18] == LE(w.serial, 4)
            && page[18..22] == LE(w.sequence, 4) && page[22..26] == LE(checksum, 4)
  {
    hide LE;
    LacingSize(|packet|);
    var g, s, q, c := LE(granule, 8), LE(w.serial, 4), LE(w.sequence, 4), LE(checksum, 4);
    var back := [(|packet| / 255 + 1) % 256] + LacingOf(|packet|) + packet;
    var page := CAPTURE_PATTERN + [0] + [headerType] + g + s + q + c + back;
    assert WithChecksum(w, packet, headerType, granule, checksum) == page;
  }

  /** Every page, of any size, carries its own fields and the checksum of itself with the checksum field zeroed. */
  lemma PageFields(w: Writer, packet: seq<byte>, headerType: byte, granule: uint64)
    ensures var page := PageImage(w, packet, headerType, granule);
            && |page| >= 28 && page[..4] == CAPTURE_PATTERN && page[4] == 0 && page[5] == headerType
            && FromLE(page[6..14]) == granule
            && FromLE(page[14..18]) == w.serial
            && FromLE(page[18..22]) == w.sequence
            && FromLE(page[22..26]) == Checksum(page[..22] + [0, 0, 0, 0] + page[26..])
  {
    hide LE, FromLE, Checksum, WithChecksum;
    var blank := WithChecksum(w, packet, headerType, granule, 0);
    var page := PageImage(w, packet, headerType, granule);
    PageSlices(w, packet, headerType, granule, Checksum(blank));
    LEFits(granule);
    LEFits(w.serial);
    LEFits(w.sequence);
    LEFits(Checksum(blank));
    ChecksumZeroed(w, packet, headerType, granule, Checksum(blank));
  }

  lemma ChecksumZeroed(w: Writer, packet: seq<byte>, headerType: byte, granule: uint64, checksum: uint32)
    ensures var page := WithChecksum(w, packet, headerType, granule, checksum);
            |page| >= 28 && WithChecksum(w, packet, headerType, granule, 0) == page[..22] + [0, 0, 0, 0] + page[26..]
  {
    PatchChecksum(w, packet, headerType, granule, checksum);
    BlankChecksum();
    hide LE, WithChecksum;
    var blank := WithChecksum(w, packet, headerType, granule, 0);
    assert blank == blank[..22] + blank[22..26] + blank[26..];
  }

  // ----- A whole session -----

  /** The pages of successive `WritePacket` calls. */
  function Session(w: Writer, packets: seq<seq<byte>>): (r: seq<seq<byte>>)
    ensures |r| == |packets|
    decreases |packets|
  {
    if packets == [] then []
    else [PacketPage(w, packets[0])] + Session(NextSequence(Advance(w)), packets[1..])
  }

  /** The samples in k frames. */
  function Span(k: nat, frame: nat): nat {
    k * frame
  }

  lemma SpanSteps(k: nat, frame: nat)
    ensures Span(0, frame) == 0 && Span(k + 1, frame) == Span(k, frame) + frame
  {
  }

  /** The writer k packets further on. */
  function Position(w: Writer, k: nat): Writer {
    w.(sequence := Add32(w.sequence, k), granule := Add64(w.granule, Span(k, w.frameSamples)))
  }

  lemma PositionSteps(w: Writer, k: nat)
    ensures Position(w, 0) == w
    ensures Position(NextSequence(Advance(w)), k) == Position(w, k + 1)
    ensures NextSequence(Advance(Position(w, k))) == Position(w, k + 1)
  {
    var f := w.frameSamples;
    SpanSteps(k, f);
    AddTwice(w.granule, f, Span(k, f));
    AddTwice(w.granule, Span(k, f), f);
    AddTwice(w.sequence, 1, k);
    AddTwice(w.sequence, k, 1);
    hide Span, Add32, Add64;
  }

  lemma {:induction false} SessionPages(w: Writer, packets: seq<seq<byte>>, k: nat)
    requires k < |packets|
    ensures Session(w, packets)[k] == PacketPage(Position(w, k), packets[k])
    decreases k
  {
    hide PacketPage, Position, NextSequence, Advance;
    if k == 0 {
      PositionSteps(w, 0);
    } else {
      PositionSteps(w, k - 1);
      SessionPages(NextSequence(Advance(w)), packets[1..], k - 1);
    }
  }

  lemma PositionFields(w: Writer, k: nat)
    ensures Position(w, k).sequence == Add32(w.sequence, k)
    ensures Advance(Position(w, k)).granule == Add64(w.granule, Span(k + 1, w.frameSamples))
  {
    PositionSteps(w, k);
  }

  /** Sequence numbers are consecutive and the k-th packet's granule is k+1 frames on, both wrapping at their width. */
  lemma SessionNumbering(w: Writer, packets: seq<seq<byte>>, k: nat)
    requires k < |packets|
    ensures |Session(w, packets)[k]| >= 28
    ensures FromLE(Session(w, packets)[k][18..22]) == Add32(w.sequence, k)
    ensures FromLE(Session(w, packets)[k][6..14]) == Add64(w.granule, Span(k + 1, w.frameSamples))
  {
    hide Session, PageImage, FromLE, Span, Position, NextSequence;
    PositionFields(w, k);
    SessionPages(w, packets, k);
    PositionSteps(w, k);
    PageFields(Position(w, k), packets[k], 0, Advance(Position(w, k)).granule);
  }

  // ----- Round trip through the parser -----

  /** The page as the parser's own description of a page; only possible while the segment count fits its byte. */
  function Paged(w: Writer, packet: seq<byte>, headerType: byte, granule: uint64): (p: OggPage)
    requires |packet| <= MAX_PACKET
    ensures p.Conforms() && p.lacing == LacingOf(|packet|) && p.body == packet
    ensures p.Wire() == PageImage(w, packet, headerType, granule)
  {
    hide Fields, Checksum, LacingOf, Sum, WithChecksum, OggPage.Wire, OggPage.Conforms;
    var checksum := Checksum(WithChecksum(w, packet, headerType, granule, 0));
    PagedWire(w, packet, headerType, granule, checksum);
    OggPage(Fields(w, headerType, granule, checksum), LacingOf(|packet|), packet)
  }

  lemma PagedWire(w: Writer, packet: seq<byte>, headerType: byte, granule: uint64, checksum: uint32)
    requires |packet| <= MAX_PACKET
    ensures var p := OggPage(Fields(w, headerType, granule, checksum), LacingOf(|packet|), packet);
            p.Conforms() && p.Wire() == WithChecksum(w, packet, headerType, granule, checksum)
  {
    hide LacingOf, Sum, LE, Fields, WithChecksum;
    LacingSize(|packet|);
    SegmentsFit(|packet|);
    ShortPageBytes(w, packet, headerType, granule, checksum);
  }

  lemma ShortPageBytes(w: Writer, packet: seq<byte>, headerType: byte, granule: uint64, checksum: uint32)
    requires |packet| <= MAX_PACKET && |LacingOf(|packet|)| <= 255
    ensures WithChecksum(w, packet, headerType, granule, checksum)
         == CAPTURE_PATTERN + [0] + Fields(w, headerType, granule, checksum) + [|LacingOf(|packet|)|]
            + LacingOf(|packet|) + packet
  {
    hide LacingOf, Fields, LE;
    LacingSize(|packet|);
    SegmentsFit(|packet|);
  }

  lemma SegmentsFit(n: nat)
    ensures n <= MAX_PACKET <==> n / 255 + 1 <= 255
    ensures n <= MAX_PACKET ==> (n / 255 + 1) % 256 == n / 255 + 1
  {
  }

  function SessionPaged(w: Writer, packets: seq<seq<byte>>): (pages: seq<OggPage>)
    requires forall i :: 0 <= i < |packets| ==> |packets[i]| <= MAX_PACKET
    ensures Conforming(pages) && WireAll(pages) == Flatten(Session(w, packets))
    ensures Lacings(pages) == LacingOfAll(packets) && Bodies(pages) == Flatten(packets)
    decreases |packets|
  {
    hide PageImage, OggPage.Wire, LacingOf;
    if packets == [] then []
    else
      var first := Paged(w, packets[0], 0, Advance(w).granule);
      var rest := SessionPaged(NextSequence(Advance(w)), packets[1..]);
      ConsPaged(first, rest, packets);
      [first] + rest
  }

  lemma ConsPaged(first: OggPage, rest: seq<OggPage>, packets: seq<seq<byte>>)
    requires packets != [] && first.Conforms() && Conforming(rest)
    requires first.lacing == LacingOf(|packets[0]|) && first.body == packets[0]
    requires Lacings(rest) == LacingOfAll(packets[1..]) && Bodies(rest) == Flatten(packets[1..])
    ensures Conforming([first] + rest) && WireAll([first] + rest) == first.Wire() + WireAll(rest)
    ensures Lacings([first] + rest) == LacingOfAll(packets) && Bodies([first] + rest) == Flatten(packets)
  {
    hide OggPage.Wire;
    assert ([first] + rest)[1..] == rest;
  }

  /**
   * Everything a writer session puts on the wire, cut into chunks in any way, gives back exactly the written packets in
   * order, those that look like Opus headers excepted; the writer's own two headers never reach the callback.
   */
  lemma SessionRoundTrip(w: Writer, packets: seq<seq<byte>>, chunks: seq<seq<byte>>)
    requires forall i :: 0 <= i < |packets| ==> 1 <= |packets[i]| <= MAX_PACKET
    requires Flatten(chunks) == Flatten(HeaderPages(w) + Session(NextSequence(NextSequence(w)), packets))
    ensures FeedAll(chunks, [], []) == Outcome(Audio(packets), [], [], true)
    ensures Audio(packets) == packets <==>
            forall i :: 0 <= i < |packets| ==> !(OPUS_HEAD <= packets[i]) && !(OPUS_TAGS <= packets[i])
  {
    hide PageImage, OggPage.Wire, LE, LacingOf, Session, HeadPacket, OggPage.Conforms;
    var w2 := NextSequence(NextSequence(w));
    var all := [HeadPacket(w)] + ([TAGS_PACKET] + packets);
    var pages := WholePaged(w, packets);
    AnyPaginationAnyChunking(all, pages, chunks);
    HeadersAreNotAudio(w, packets);
    AudioOfAudio(packets);
  }

  lemma HeadersAreNotAudio(w: Writer, packets: seq<seq<byte>>)
    ensures Audio([HeadPacket(w)] + ([TAGS_PACKET] + packets)) == Audio(packets)
  {
    hide LE;
    AudioCons(HeadPacket(w), [TAGS_PACKET] + packets);
    AudioCons(TAGS_PACKET, packets);
    assert [] + ([] + Audio(packets)) == Audio(packets);
  }

  lemma WholePaged(w: Writer, packets: seq<seq<byte>>) returns (pages: seq<OggPage>)
    requires forall i :: 0 <= i < |packets| ==> |packets[i]| <= MAX_PACKET
    ensures var all := [HeadPacket(w)] + ([TAGS_PACKET] + packets);
            && Conforming(pages) && Lacings(pages) == LacingOfAll(all) && Bodies(pages) == Flatten(all)
            && WireAll(pages) == Flatten(HeaderPages(w) + Session(NextSequence(NextSequence(w)), packets))
  {
    HeadPacketSize(w);
    hide PageImage, Session, HeadPacket, NextSequence, HeaderPages, WireAll, Flatten, Lacings, Bodies, LacingOfAll;
    var w1 := NextSequence(w);
    var w2 := NextSequence(w1);
    var rest := SessionPaged(w2, packets);
    var second := PrependPage(w1, TAGS_PACKET, 0, rest, packets, Session(w2, packets));
    pages := PrependPage(w, HeadPacket(w), 2, second, [TAGS_PACKET] + packets,
                         [PageImage(w1, TAGS_PACKET, 0, 0)] + Session(w2, packets));
    HeadersFirst(w, Session(w2, packets));
  }

  lemma HeadersFirst(w: Writer, images: seq<seq<byte>>)
    ensures HeaderPages(w) + images
            == [PageImage(w, HeadPacket(w), 2, 0)] + ([PageImage(NextSequence(w), TAGS_PACKET, 0, 0)] + images)
  {
    hide PageImage, HeadPacket, NextSequence, HeaderPages;
    HeaderPagesAre(w);
  }

  lemma HeaderPagesAre(w: Writer)
    ensures HeaderPages(w) == [PageImage(w, HeadPacket(w), 2, 0)] + [PageImage(NextSequence(w), TAGS_PACKET, 0, 0)]
  {
  }

  lemma PrependPage(w: Writer, packet: seq<byte>, headerType: byte, rest: seq<OggPage>, packets: seq<seq<byte>>,
                    images: seq<seq<byte>>) returns (pages: seq<OggPage>)
    requires |packet| <= MAX_PACKET
    requires Conforming(rest) && WireAll(rest) == Flatten(images)
    requires Lacings(rest) == LacingOfAll(packets) && Bodies(rest) == Flatten(packets)
    ensures Conforming(pages) && WireAll(pages) == Flatten([PageImage(w, packet, headerType, 0)] + images)
    ensures Lacings(pages) == LacingOfAll([packet] + packets) && Bodies(pages) == Flatten([packet] + packets)
  {
    hide PageImage, OggPage.Wire, LacingOf, OggPage.Conforms;
    var first := Paged(w, packet, headerType, 0);
    pages := [first] + rest;
    assert ([packet] + packets)[1..] == packets;
    ConsPaged(first, rest, [packet] + packets);
    assert ([PageImage(w, packet, headerType, 0)] + images)[1..] == images;
  }

  lemma HeadPacketSize(w: Writer)
    ensures |HeadPacket(w)| == 19 && |TAGS_PACKET| == 22
  {
  }

  // ----- The exact limit of the format -----

  /** A packet takes up at least its own lacing values and bytes of any stream that delivers it. */
  lemma {:induction false} DeliveryNeedsRoom(lacing: seq<byte>, body: seq<byte>, carry: seq<byte>, packet: seq<byte>)
    requires Sum(lacing) == |body|
    requires packet in Assemble(lacing, body, carry).packets
    ensures |body| + |carry| >= |packet|
    ensures 255 * |lacing| + |carry| > |packet|
    decreases |lacing|
  {
    var n: nat := lacing[0];
    var full := carry + body[..n];
    if n == 255 {
      DeliveryNeedsRoom(lacing[1..], body[n..], full, packet);
    } else if packet != full {
      DeliveryNeedsRoom(lacing[1..], body[n..], [], packet);
    }
  }

  lemma {:induction false} PagesNeedRoom(pages: seq<OggPage>)
    requires Conforming(pages)
    ensures |WireAll(pages)| == 27 * |pages| + |Lacings(pages)| + |Bodies(pages)|
    ensures |Lacings(pages)| <= 255 * |pages|
    decreases |pages|
  {
    if pages == [] {
    } else {
      PagesNeedRoom(pages[1..]);
      WireSize(pages[0]);
      hide OggPage.Wire;
    }
  }

  lemma WireSize(page: OggPage)
    requires page.Conforms()
    ensures |page.Wire()| == 27 + |page.lacing| + |page.body|
  {
  }

  lemma DeliveredWasAssembled(packets: seq<seq<byte>>, packet: seq<byte>)
    requires packet in Audio(packets)
    ensures packet in packets
  {
  }

  /**
   * One written page gives back its packet exactly when the segment count fits its byte and the packet is not empty and
   * does not look like an Opus header. A longer packet cannot come back: its page would have to hold two page headers.
   */
  lemma PageRoundTripExactly(w: Writer, packet: seq<byte>, headerType: byte, granule: uint64)
    ensures Drain(PageImage(w, packet, headerType, granule), []) == Outcome([packet], [], [], true)
            <==> 1 <= |packet| <= MAX_PACKET && !(OPUS_HEAD <= packet) && !(OPUS_TAGS <= packet)
  {
    hide PageImage, Assemble, Audio, WireAll, Lacings, Bodies, Drain;
    var image := PageImage(w, packet, headerType, granule);
    if |packet| <= MAX_PACKET {
      ShortPageRoundTrip(w, packet, headerType, granule);
    } else if Drain(image, []) == Outcome([packet], [], [], true) {
      ImageSize(w, packet, headerType, granule);
      var pages := AcceptedIsPages(image, []);
      PagesNeedRoom(pages);
      var lacing, body := Lacings(pages), Bodies(pages);
      DeliveredWasAssembled(Assemble(lacing, body, []).packets, packet);
      DeliveryNeedsRoom(lacing, body, [], packet);
      assert false;
    }
  }

  lemma ImageSize(w: Writer, packet: seq<byte>, headerType: byte, granule: uint64)
    ensures |PageImage(w, packet, headerType, granule)| == 27 + |packet| / 255 + 1 + |packet|
  {
    PatchChecksum(w, packet, headerType, granule, Checksum(WithChecksum(w, packet, headerType, granule, 0)));
  }

  lemma ShortPageRoundTrip(w: Writer, packet: seq<byte>, headerType: byte, granule: uint64)
    requires |packet| <= MAX_PACKET
    ensures Drain(PageImage(w, packet, headerType, granule), []) == Outcome(Audio([packet]), [], [], true)
    ensures Audio([packet]) == if IsAudio(packet) then [packet] else []
  {
    var page := Paged(w, packet, headerType, granule);
    assert page.Wire() + [] == page.Wire();
    NextPageReadsWire(page, []);
    AssembleOne(packet, []);
    assert [] + packet == packet;
    AudioCons(packet, []);
    assert [packet] + [] == [packet];
    hide PageImage, OggPage.Wire, LacingOf, Assemble;
    DrainOnePage(page.Wire(), [], page.lacing, page.body, []);
  }

  // ----- Damage to a page -----

  /** The page with its checksum field zeroed. */
  function Blanked(page: seq<byte>): seq<byte>
    requires |page| >= 26
  {
    page[..22] + [0, 0, 0, 0] + page[26..]
  }

  /** The checksum field holds the checksum of the page with that field zeroed. */
  predicate IsSound(page: seq<byte>) {
    |page| >= 26 && FromLE(page[22..26]) == Checksum(Blanked(page))
  }

  lemma BlankedBits(page: seq<byte>)
    requires |page| >= 26
    ensures MessageBits(Blanked(page))
            == MessageBits(page)[..176] + MessageBits([0, 0, 0, 0]) + MessageBits(page)[208..]
    ensures MessageBits(page)[176..208] == MessageBits(page[22..26])
  {
    hide MessageBits;
    var a, b, c := page[..22], page[22..26], page[26..];
    assert page == a + b + c;
    BitsOfThree(a, [0, 0, 0, 0], c);
    BitsOfThree(a, b, c);
    Middle(MessageBits(a), MessageBits(b), MessageBits(c));
  }

  lemma BitsOfThree(a: seq<byte>, b: seq<byte>, c: seq<byte>)
    ensures MessageBits(a + b + c) == MessageBits(a) + MessageBits(b) + MessageBits(c)
  {
    hide MessageBits;
    MessageBitsAppend(a, b);
    MessageBitsAppend(a + b, c);
  }

  lemma Middle(a: seq<bool>, b: seq<bool>, c: seq<bool>)
    ensures var m := |a| + |b|;
            (a + b + c)[..|a|] == a && (a + b + c)[|a|..m] == b && (a + b + c)[m..] == c
  {
  }

  /**
   * A sound page that is damaged within 32 consecutive bits, inside its checksum field or outside it, is no longer
   * sound.
   */
  lemma DamageIsDetected(page: seq<byte>, damaged: seq<byte>, lo: nat, hi: nat)
    requires IsSound(page) && DifferInBurst(page, damaged, lo, hi)
    requires hi <= 176 || 208 <= lo || (176 <= lo && hi <= 208)
    ensures !IsSound(damaged)
  {
    hide MessageBits, Checksum, FromLE;
    BlankedBits(page);
    BlankedBits(damaged);
    var a, b := MessageBits(page), MessageBits(damaged);
    forall k | 0 <= k < |a| && !(lo <= k < hi) ensures a[k] == b[k] {
      SameOutside(a, b, lo, hi, k);
    }
    if 176 <= lo && hi <= 208 {
      assert MessageBits(Blanked(page)) == MessageBits(Blanked(damaged));
      MessageBitsInjective(Blanked(page), Blanked(damaged));
      FromLERoundTrip(page[22..26]);
      FromLERoundTrip(damaged[22..26]);
      FieldsDiffer(page, damaged);
    } else {
      assert a[176..208] == b[176..208];
      MessageBitsInjective(page[22..26], damaged[22..26]);
      BlankedDiffer(page, damaged, lo, hi);
      BurstChangesCrc(Blanked(page), Blanked(damaged), lo, hi);
      ChecksumsDiffer(Blanked(page), Blanked(damaged));
    }
  }

  lemma SameOutside(a: seq<bool>, b: seq<bool>, lo: nat, hi: nat, k: nat)
    requires |a| == |b| && lo <= hi <= |a| && a[..lo] == b[..lo] && a[hi..] == b[hi..] && k < |a| && !(lo <= k < hi)
    ensures a[k] == b[k]
  {
    if k < lo {
      assert a[k] == a[..lo][k] && b[k] == b[..lo][k];
    } else {
      assert a[k] == a[hi..][k - hi] && b[k] == b[hi..][k - hi];
    }
  }

  lemma FieldsDiffer(page: seq<byte>, damaged: seq<byte>)
    requires |page| == |damaged| >= 26 && page != damaged && Blanked(page) == Blanked(damaged)
    ensures page[22..26] != damaged[22..26]
  {
    var a, b := Blanked(page), Blanked(damaged);
    assert page[..22] == a[..22] && damaged[..22] == b[..22];
    assert page[26..] == a[26..] && damaged[26..] == b[26..];
    assert page == page[..22] + page[22..26] + page[26..];
    assert damaged == damaged[..22] + damaged[22..26] + damaged[26..];
  }

  lemma BlankedDiffer(page: seq<byte>, damaged: seq<byte>, lo: nat, hi: nat)
    requires DifferInBurst(page, damaged, lo, hi) && |page| >= 26 && page[22..26] == damaged[22..26]
    ensures DifferInBurst(Blanked(page), Blanked(damaged), lo, hi)
  {
    hide MessageBits;
    if Blanked(page) == Blanked(damaged) {
      FieldsDiffer(page, damaged);
    }
    BlankedBits(page);
    BlankedBits(damaged);
    var a, b := MessageBits(page), MessageBits(damaged);
    var c, d := MessageBits(Blanked(page)), MessageBits(Blanked(damaged));
    forall k | 0 <= k < |c| && !(lo <= k < hi) ensures c[k] == d[k] {
      SameOutside(a, b, lo, hi, k);
    }
  }

  lemma ChecksumsDiffer(a: seq<byte>, b: seq<byte>)
    requires Crc(a) != Crc(b)
    ensures Checksum(a) != Checksum(b)
  {
    hide Number, Crc;
    if Number(Crc(a)) == Number(Crc(b)) {
      NumberInjective(Crc(a), Crc(b));
    }
  }

  /** Every written page is sound, so any such damage to it shows. */
  lemma WrittenIsSound(w: Writer, packet: seq<byte>, headerType: byte, granule: uint64)
    ensures IsSound(PageImage(w, packet, headerType, granule))
  {
    hide PageImage, Checksum, FromLE;
    PageFields(w, packet, headerType, granule);
  }

  // ----- What the header pages say -----

  /** The identification header of section 5.1 of RFC 7845, field by field. */
  lemma HeadFields(w: Writer)
    ensures var h := HeadPacket(w);
            && |h| == 19 && h[..8] == Ascii("OpusHead") && h[8] == 1 && h[9] == w.channels
            && FromLE(h[10..12]) == 0 && FromLE(h[12..16]) == w.sampleRate && FromLE(h[16..18]) == 0 && h[18] == 0
  {
    hide LE, FromLE;
    var h := HeadPacket(w);
    assert h[12..16] == LE(w.sampleRate, 4);
    LEFits(w.sampleRate);
    assert h[10..12] == [0, 0] && h[16..18] == [0, 0];
    NoValue();
  }

  lemma NoValue()
    ensures FromLE([0, 0]) == 0
  {
  }

  /** The comment header of section 5.2 of RFC 7845, field by field. */
  lemma TagsFields()
    ensures var t := TAGS_PACKET;
            && |t| == 22 && t[..8] == Ascii("OpusTags") && FromLE(t[8..12]) == 6 && t[12..18] == Ascii("pupbox")
            && FromLE(t[18..22]) == 0
  {
    hide LE, FromLE;
    var t := TAGS_PACKET;
    assert t[8..12] == LE(6, 4) && t[18..22] == LE(0, 4);
    LEFits(6);
    LEFits(0);
  }

  /**
   * The identification page comes first and is flagged so; both carry granule zero and consecutive sequence numbers.
   */
  lemma HeaderPageFields(w: Writer)
    ensures var pages := HeaderPages(w);
            && |pages| == 2 && |pages[0]| >= 28 && |pages[1]| >= 28 && pages[0][5] == 2 && pages[1][5] == 0
            && FromLE(pages[0][6..14]) == 0 && FromLE(pages[1][6..14]) == 0
            && FromLE(pages[0][18..22]) == w.sequence && FromLE(pages[1][18..22]) == Add32(w.sequence, 1)
            && Drain(pages[0] + pages[1], []) == Outcome([], [], [], true)
  {
    hide PageImage, FromLE, HeadPacket, Drain, Audio, IsAudio, Checksum;
    HeadPacketSize(w);
    PageFields(w, HeadPacket(w), 2, 0);
    PageFields(NextSequence(w), TAGS_PACKET, 0, 0);
    hide NextSequence;
    ShortPageRoundTrip(w, HeadPacket(w), 2, 0);
    ShortPageRoundTrip(NextSequence(w), TAGS_PACKET, 0, 0);
    HeadersAreNotAudio(w, []);
    AudioCons(HeadPacket(w), [TAGS_PACKET]);
    DrainTwice(HeaderPages(w)[0], HeaderPages(w)[1], []);
    NotAudio(w);
    DeliverTwice([], [], Outcome([], [], [], true));
    assert [] + HeaderPages(w)[1] == HeaderPages(w)[1];
  }

  lemma NotAudio(w: Writer)
    ensures !IsAudio(HeadPacket(w)) && !IsAudio(TAGS_PACKET)
  {
    hide LE;
  }

  /** For durations that are not negative and do not overflow, a frame of d milliseconds has 48 d samples. */
  lemma FrameLength(d: int)
    requires 0 <= 48000 * d < TWO64 / 2
    ensures Quotient(WrapInt64(d * 48000), 1000) % TWO64 == 48 * d
  {
    var x := d * 48000;
    assert (x + TWO64 / 2) % TWO64 == x + TWO64 / 2;
    assert x == 1000 * (48 * d);
  }
}
