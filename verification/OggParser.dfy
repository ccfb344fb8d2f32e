/** The incremental Ogg page and packet reassembler of internal/dashscopeapi/realtime.go (RFC 3533, section 6). */
module OggParser {
  import opened Bytes
  import opened Picking

  const CAPTURE_PATTERN: seq<byte> := [79, 103, 103, 83]
  const OPUS_HEAD: seq<byte> := [79, 112, 117, 115, 72, 101, 97, 100]
  const OPUS_TAGS: seq<byte> := [79, 112, 117, 115, 84, 97, 103, 115]

  lemma Names()
    ensures CAPTURE_PATTERN == Ascii("OggS") && OPUS_HEAD == Ascii("OpusHead") && OPUS_TAGS == Ascii("OpusTags")
  {
  }

  // ----- One page -----

  datatype PageRead = NeedMore | Invalid | Page(lacing: seq<byte>, body: seq<byte>, size: nat)

  function HeaderSize(b: seq<byte>): nat
    requires 27 <= |b|
  {
    27 + b[26] as int
  }

  /** What the front of a byte stream holds: too little, something that is not a page, or a whole page. */
  function NextPage(b: seq<byte>): (r: PageRead)
    ensures r.Page? ==> 27 <= r.size <= |b| && Sum(r.lacing) == |r.body|
  {
    if |b| < 27 then NeedMore
    else if b[..4] != CAPTURE_PATTERN || b[4] != 0 then Invalid
    else
      var header := HeaderSize(b);
      if |b| < header then NeedMore
      else
        var size := header + Sum(b[27..header]);
        if |b| < size then NeedMore else Page(b[27..header], b[header..size], size)
  }

  lemma NextPageIsStable(a: seq<byte>, b: seq<byte>)
    ensures !NextPage(a).NeedMore? ==> NextPage(a + b) == NextPage(a)
  {
    if !NextPage(a).NeedMore? {
      assert (a + b)[..4] == a[..4];
      if NextPage(a).Page? {
        var header := HeaderSize(a);
        var size := header + Sum(a[27..header]);
        assert (a + b)[27..header] == a[27..header];
        assert (a + b)[header..size] == a[header..size];
      }
    }
  }

  // ----- Packets out of lacing values -----

  datatype Assembly = Assembly(packets: seq<seq<byte>>, carry: seq<byte>)

  /** The packets completed by running the lacing values over the body, and the unfinished one left over. */
  function Assemble(lacing: seq<byte>, body: seq<byte>, carry: seq<byte>): Assembly
    requires Sum(lacing) == |body|
  {
    if lacing == [] then Assembly([], carry)
    else
      var n := lacing[0];
      var packet := carry + body[..n];
      if n == 255 then Assemble(lacing[1..], body[n..], packet)
      else
        var rest := Assemble(lacing[1..], body[n..], []);
        rest.(packets := [packet] + rest.packets)
  }

  lemma {:induction false} AssembleAppend(l1: seq<byte>, b1: seq<byte>, l2: seq<byte>, b2: seq<byte>, carry: seq<byte>)
    requires Sum(l1) == |b1| && Sum(l2) == |b2|
    ensures Sum(l1 + l2) == |b1 + b2|
    ensures var first := Assemble(l1, b1, carry);
            var second := Assemble(l2, b2, first.carry);
            Assemble(l1 + l2, b1 + b2, carry) == Assembly(first.packets + second.packets, second.carry)
    decreases |l1|
  {
    hide Sum, Assemble;
    SumAppend(l1, l2);
    AssembleFirst(l1, b1, carry);
    AssembleFirst(l1 + l2, b1 + b2, carry);
    if l1 == [] {
      assert l1 + l2 == l2 && b1 + b2 == b2;
    } else {
      var n := l1[0];
      assert (l1 + l2)[1..] == l1[1..] + l2;
      assert (b1 + b2)[n..] == b1[n..] + b2;
      assert (b1 + b2)[..n] == b1[..n];
      AssembleAppend(l1[1..], b1[n..], l2, b2, if n == 255 then carry + b1[..n] else []);
    }
  }

  lemma AssembleFirst(lacing: seq<byte>, body: seq<byte>, carry: seq<byte>)
    requires Sum(lacing) == |body|
    ensures lacing == [] ==> body == [] && Assemble(lacing, body, carry) == Assembly([], carry)
    ensures lacing != [] ==>
              var n: nat := lacing[0];
              && n <= |body| && Sum(lacing[1..]) == |body[n..]|
              && var packet := carry + body[..n];
                 var rest := Assemble(lacing[1..], body[n..], if n == 255 then packet else []);
                 Assemble(lacing, body, carry) == if n == 255 then rest else rest.(packets := [packet] + rest.packets)
  {
  }

  /** One turn of the segment loop, at segment i and body position j. */
  lemma AssembleStep(lacing: seq<byte>, body: seq<byte>, i: nat, j: nat, carry: seq<byte>)
    requires i < |lacing| && j <= |body| && Sum(lacing[i..]) == |body| - j
    ensures j + lacing[i] as int <= |body| && Sum(lacing[i + 1..]) == |body| - (j + lacing[i] as int)
    ensures var next := j + lacing[i] as int;
            var packet := carry + body[j..next];
            var a := Assemble(lacing[i..], body[j..], carry);
            if lacing[i] == 255 then a == Assemble(lacing[i + 1..], body[next..], packet)
            else
              var rest := Assemble(lacing[i + 1..], body[next..], []);
              a == rest.(packets := [packet] + rest.packets)
  {
    var n: nat := lacing[i];
    assert lacing[i..][1..] == lacing[i + 1..];
    assert body[j..][..n] == body[j..j + n];
    assert body[j..][n..] == body[j + n..];
  }

  predicate IsAudio(packet: seq<byte>) {
    !(OPUS_HEAD <= packet) && !(OPUS_TAGS <= packet) && packet != []
  }

  /** The packets that reach the callback: neither empty nor one of the two Opus header packets. */
  function Audio(packets: seq<seq<byte>>): seq<seq<byte>> {
    if packets == [] then []
    else (if IsAudio(packets[0]) then [packets[0]] else []) + Audio(packets[1..])
  }

  lemma {:induction false} AudioAppend(a: seq<seq<byte>>, b: seq<seq<byte>>)
    ensures Audio(a + b) == Audio(a) + Audio(b)
  {
    if a == [] {
      assert a + b == b;
    } else {
      assert (a + b)[1..] == a[1..] + b;
      AudioAppend(a[1..], b);
    }
  }

  lemma AudioCons(packet: seq<byte>, rest: seq<seq<byte>>)
    ensures Audio([packet] + rest) == (if IsAudio(packet) then [packet] else []) + Audio(rest)
  {
    assert ([packet] + rest)[1..] == rest;
  }

  lemma {:induction false} AudioOfAudio(packets: seq<seq<byte>>)
    ensures Audio(packets) == packets <==> forall i :: 0 <= i < |packets| ==> IsAudio(packets[i])
    ensures |Audio(packets)| <= |packets|
  {
    if packets != [] {
      AudioOfAudio(packets[1..]);
      if IsAudio(packets[0]) {
        assert packets == [packets[0]] + packets[1..];
        assert Audio(packets)[1..] == Audio(packets[1..]);
        assert forall i :: 0 <= i < |packets| - 1 ==> packets[1..][i] == packets[i + 1];
        assert forall i :: 0 < i < |packets| ==> packets[i] == packets[1..][i - 1];
      } else {
        assert |Audio(packets)| < |packets|;
      }
    }
  }

  /** Delivered are exactly the packets that are neither empty nor an Opus header, in order. */
  lemma {:induction false} AudioPicks(packets: seq<seq<byte>>) returns (at: seq<nat>)
    ensures Picks(packets, p => p != [] && !(OPUS_HEAD <= p) && !(OPUS_TAGS <= p), Audio(packets), at)
    decreases |packets|
  {
    var wanted := p => p != [] && !(OPUS_HEAD <= p) && !(OPUS_TAGS <= p);
    hide Picks;
    if packets == [] {
      at := [];
      PicksNothing(wanted);
    } else {
      var front, x := packets[..|packets| - 1], packets[|packets| - 1];
      at := AudioPicks(front);
      assert packets == front + [x];
      AudioAppend(front, [x]);
      AudioCons(x, []);
      PicksNext(front, x, wanted, Audio(front), at);
      assert [x] + [] == [x] && Audio(front) + [] == Audio(front);
      if wanted(x) {
        at := at + [|front|];
      }
    }
  }

  /** The segment loop stands at segment i and body position j, having handed out `delivered` of the page's `whole`. */
  ghost predicate SegmentsLeft(whole: Assembly, delivered: seq<seq<byte>>, lacing: seq<byte>, body: seq<byte>,
                               i: nat, j: nat, carry: seq<byte>)
  {
    && i <= |lacing| && j <= |body| && Sum(lacing[i..]) == |body| - j
    && var rest := Assemble(lacing[i..], body[j..], carry);
    && Audio(whole.packets) == delivered + Audio(rest.packets)
    && whole.carry == rest.carry
  }

  lemma SegmentTaken(whole: Assembly, delivered: seq<seq<byte>>, lacing: seq<byte>, body: seq<byte>,
                     i: nat, j: nat, carry: seq<byte>)
    requires SegmentsLeft(whole, delivered, lacing, body, i, j, carry) && i < |lacing|
    ensures j + lacing[i] as int <= |body|
    ensures var next := j + lacing[i] as int;
            var packet := carry + body[j..next];
            if lacing[i] == 255 then SegmentsLeft(whole, delivered, lacing, body, i + 1, next, packet)
            else
              var out := if IsAudio(packet) then [packet] else [];
              SegmentsLeft(whole, delivered + out, lacing, body, i + 1, next, [])
  {
    hide Sum, Assemble, Audio, IsAudio;
    AssembleStep(lacing, body, i, j, carry);
    if lacing[i] != 255 {
      var next := j + lacing[i] as int;
      var packet := carry + body[j..next];
      var rest := Assemble(lacing[i + 1..], body[next..], []).packets;
      AudioCons(packet, rest);
      var out := if IsAudio(packet) then [packet] else [];
      assert delivered + (out + Audio(rest)) == (delivered + out) + Audio(rest);
    }
  }

  lemma SegmentsStart(lacing: seq<byte>, body: seq<byte>, carry: seq<byte>)
    requires Sum(lacing) == |body|
    ensures SegmentsLeft(Assemble(lacing, body, carry), [], lacing, body, 0, 0, carry)
  {
    assert lacing[0..] == lacing && body[0..] == body;
    var packets := Audio(Assemble(lacing, body, carry).packets);
    assert [] + packets == packets;
  }

  lemma SegmentsEnd(whole: Assembly, delivered: seq<seq<byte>>, lacing: seq<byte>, body: seq<byte>,
                    i: nat, j: nat, carry: seq<byte>)
    requires SegmentsLeft(whole, delivered, lacing, body, i, j, carry) && i == |lacing|
    ensures delivered == Audio(whole.packets) && carry == whole.carry
  {
    assert delivered + [] == delivered;
  }

  // ----- A whole stream -----

  datatype Outcome = Outcome(delivered: seq<seq<byte>>, buffer: seq<byte>, carry: seq<byte>, ok: bool)

  function Deliver(front: seq<seq<byte>>, o: Outcome): Outcome {
    o.(delivered := front + o.delivered)
  }

  lemma DeliverTwice(a: seq<seq<byte>>, b: seq<seq<byte>>, o: Outcome)
    ensures Deliver(a, Deliver(b, o)) == Deliver(a + b, o)
    ensures Deliver([], o) == o
  {
    assert a + (b + o.delivered) == (a + b) + o.delivered;
    assert [] + o.delivered == o.delivered;
  }

  /** Consumes pages while whole ones are available. */
  function Drain(b: seq<byte>, carry: seq<byte>): Outcome
    decreases |b|
  {
    match NextPage(b)
    case NeedMore => Outcome([], b, carry, true)
    case Invalid => Outcome([], b, carry, false)
    case Page(lacing, body, size) =>
      var a := Assemble(lacing, body, carry);
      var rest := Drain(b[size..], a.carry);
      Deliver(Audio(a.packets), rest)
  }

  lemma {:induction false} DrainTwice(a: seq<byte>, b: seq<byte>, carry: seq<byte>)
    ensures var first := Drain(a, carry);
            var whole := Drain(a + b, carry);
            if first.ok then
              var second := Drain(first.buffer + b, first.carry);
              whole == Deliver(first.delivered, second)
            else
              !whole.ok && whole.delivered == first.delivered
    decreases |a|
  {
    NextPageIsStable(a, b);
    match NextPage(a) {
      case NeedMore =>
        DeliverTwice([], [], Drain(a + b, carry));
      case Invalid =>
      case Page(lacing, body, size) =>
        var first := Assemble(lacing, body, carry);
        assert (a + b)[size..] == a[size..] + b;
        DrainTwice(a[size..], b, first.carry);
        var tail := Drain(a[size..], first.carry);
        if tail.ok {
          var second := Drain(tail.buffer + b, tail.carry);
          DeliverTwice(Audio(first.packets), tail.delivered, second);
        }
    }
  }

  lemma DrainEnds(whole: Outcome, delivered: seq<seq<byte>>, b: seq<byte>, carry: seq<byte>)
    requires whole == Deliver(delivered, Drain(b, carry)) && !NextPage(b).Page?
    ensures whole == Outcome(delivered, b, carry, NextPage(b).NeedMore?)
  {
    assert delivered + [] == delivered;
  }

  lemma DrainContinues(whole: Outcome, delivered: seq<seq<byte>>, b: seq<byte>, carry: seq<byte>)
    requires whole == Deliver(delivered, Drain(b, carry)) && NextPage(b).Page?
    ensures var Page(lacing, body, size) := NextPage(b);
            var a := Assemble(lacing, body, carry);
            whole == Deliver(delivered + Audio(a.packets), Drain(b[size..], a.carry))
  {
    var Page(lacing, body, size) := NextPage(b);
    var a := Assemble(lacing, body, carry);
    DeliverTwice(delivered, Audio(a.packets), Drain(b[size..], a.carry));
  }

  /** A run of `Feed` calls, stopping at the first error as every caller does. */
  function FeedAll(chunks: seq<seq<byte>>, buffer: seq<byte>, carry: seq<byte>): Outcome {
    if chunks == [] then Outcome([], buffer, carry, true)
    else
      var first := Drain(buffer + chunks[0], carry);
      if !first.ok then first
      else
        var rest := FeedAll(chunks[1..], first.buffer, first.carry);
        Deliver(first.delivered, rest)
  }

  /** How the bytes are cut into chunks is invisible: same packets, same verdict, and the same retained state. */
  lemma {:induction false} ChunkIndependence(chunks: seq<seq<byte>>, buffer: seq<byte>, carry: seq<byte>)
    requires NextPage(buffer).NeedMore?
    ensures var pieces := FeedAll(chunks, buffer, carry);
            var whole := Drain(buffer + Flatten(chunks), carry);
            && pieces.ok == whole.ok
            && pieces.delivered == whole.delivered
            && (whole.ok ==> pieces == whole)
    decreases |chunks|
  {
    if chunks == [] {
      assert buffer + Flatten(chunks) == buffer;
    } else {
      var first := Drain(buffer + chunks[0], carry);
      assert buffer + Flatten(chunks) == (buffer + chunks[0]) + Flatten(chunks[1..]);
      DrainTwice(buffer + chunks[0], Flatten(chunks[1..]), carry);
      if first.ok {
        DrainStops(buffer + chunks[0], carry);
        ChunkIndependence(chunks[1..], first.buffer, first.carry);
      }
    }
  }

  /** What is retained never starts with a whole page, and draining it again changes nothing. */
  lemma {:induction false} DrainStops(b: seq<byte>, carry: seq<byte>)
    ensures var o := Drain(b, carry);
            && |o.buffer| <= |b| && o.buffer == b[|b| - |o.buffer|..]
            && (o.ok <==> NextPage(o.buffer).NeedMore?)
            && (!o.ok <==> NextPage(o.buffer).Invalid?)
    decreases |b|
  {
    match NextPage(b) {
      case NeedMore =>
      case Invalid =>
      case Page(lacing, body, size) =>
        DrainStops(b[size..], Assemble(lacing, body, carry).carry);
    }
  }

  // ----- Conforming streams -----

  /** A page as section 6 of RFC 3533 lays it out; `fields` are the 21 header bytes this parser does not read. */
  datatype OggPage = OggPage(fields: seq<byte>, lacing: seq<byte>, body: seq<byte>) {
    predicate Conforms() {
      |fields| == 21 && |lacing| <= 255 && Sum(lacing) == |body|
    }

    function Wire(): seq<byte>
      requires |lacing| <= 255
    {
      CAPTURE_PATTERN + [0] + fields + [|lacing|] + lacing + body
    }
  }

  predicate Conforming(pages: seq<OggPage>) {
    forall i :: 0 <= i < |pages| ==> pages[i].Conforms()
  }

  function WireAll(pages: seq<OggPage>): seq<byte>
    requires Conforming(pages)
  {
    if pages == [] then [] else pages[0].Wire() + WireAll(pages[1..])
  }

  function Lacings(pages: seq<OggPage>): seq<byte> {
    if pages == [] then [] else pages[0].lacing + Lacings(pages[1..])
  }

  function Bodies(pages: seq<OggPage>): seq<byte> {
    if pages == [] then [] else pages[0].body + Bodies(pages[1..])
  }

  lemma NextPageReadsWire(p: OggPage, rest: seq<byte>)
    requires p.Conforms()
    ensures NextPage(p.Wire() + rest) == Page(p.lacing, p.body, |p.Wire()|)
  {
    var b := p.Wire() + rest;
    var header := 27 + |p.lacing|;
    assert b[..4] == CAPTURE_PATTERN;
    assert b[4] == 0;
    assert b[26] == |p.lacing|;
    assert b[27..header] == p.lacing;
    assert b[header..header + |p.body|] == p.body;
  }

  lemma DrainOnePage(wire: seq<byte>, tail: seq<byte>, lacing: seq<byte>, body: seq<byte>, carry: seq<byte>)
    requires NextPage(wire + tail) == Page(lacing, body, |wire|)
    ensures Sum(lacing) == |body|
    ensures var a := Assemble(lacing, body, carry);
            var o := Drain(tail, a.carry);
            Drain(wire + tail, carry) == Deliver(Audio(a.packets), o)
  {
    assert (wire + tail)[|wire|..] == tail;
  }

  lemma DrainFirstPage(pages: seq<OggPage>, rest: seq<byte>, carry: seq<byte>)
    requires Conforming(pages) && pages != []
    ensures var a := Assemble(pages[0].lacing, pages[0].body, carry);
            var o := Drain(WireAll(pages[1..]) + rest, a.carry);
            Drain(WireAll(pages) + rest, carry) == Deliver(Audio(a.packets), o)
  {
    var p, tail := pages[0], WireAll(pages[1..]) + rest;
    NextPageReadsWire(p, tail);
    assert WireAll(pages) + rest == p.Wire() + tail;
    DrainOnePage(p.Wire(), tail, p.lacing, p.body, carry);
  }

  lemma {:induction false} DrainPages(pages: seq<OggPage>, rest: seq<byte>, carry: seq<byte>)
    requires Conforming(pages)
    ensures Sum(Lacings(pages)) == |Bodies(pages)|
    ensures var a := Assemble(Lacings(pages), Bodies(pages), carry);
            var o := Drain(rest, a.carry);
            Drain(WireAll(pages) + rest, carry) == Deliver(Audio(a.packets), o)
    decreases |pages|
  {
    if pages == [] {
      assert WireAll(pages) + rest == rest;
      DeliverTwice([], [], Drain(rest, carry));
    } else {
      var p, tail := pages[0], pages[1..];
      var first := Assemble(p.lacing, p.body, carry);
      DrainFirstPage(pages, rest, carry);
      DrainPages(tail, rest, first.carry);
      AssembleAppend(p.lacing, p.body, Lacings(tail), Bodies(tail), carry);
      var second := Assemble(Lacings(tail), Bodies(tail), first.carry);
      AudioAppend(first.packets, second.packets);
      DeliverTwice(Audio(first.packets), Audio(second.packets), Drain(rest, second.carry));
    }
  }

  /**
   * Page boundaries are invisible too: two conforming streams with the same lacing values and bodies, cut into pages
   * and chunks in any two ways, deliver the same packets and leave the same unfinished packet.
   */
  lemma PageBoundaryIndependence(pages1: seq<OggPage>, chunks1: seq<seq<byte>>, pages2: seq<OggPage>,
                                 chunks2: seq<seq<byte>>)
    requires Conforming(pages1) && Conforming(pages2)
    requires Flatten(chunks1) == WireAll(pages1) && Flatten(chunks2) == WireAll(pages2)
    requires Lacings(pages1) == Lacings(pages2) && Bodies(pages1) == Bodies(pages2)
    ensures FeedAll(chunks1, [], []) == FeedAll(chunks2, [], [])
    ensures Sum(Lacings(pages1)) == |Bodies(pages1)|
    ensures var a := Assemble(Lacings(pages1), Bodies(pages1), []);
            FeedAll(chunks1, [], []) == Outcome(Audio(a.packets), [], a.carry, true)
  {
    FeedPages(pages1, chunks1);
    FeedPages(pages2, chunks2);
  }

  lemma FeedPages(pages: seq<OggPage>, chunks: seq<seq<byte>>)
    requires Conforming(pages) && Flatten(chunks) == WireAll(pages)
    ensures Sum(Lacings(pages)) == |Bodies(pages)|
    ensures var a := Assemble(Lacings(pages), Bodies(pages), []);
            FeedAll(chunks, [], []) == Outcome(Audio(a.packets), [], a.carry, true)
  {
    ChunkIndependence(chunks, [], []);
    DrainPages(pages, [], []);
    assert [] + Flatten(chunks) == WireAll(pages) == WireAll(pages) + [];
    var a := Assemble(Lacings(pages), Bodies(pages), []);
    assert Audio(a.packets) + [] == Audio(a.packets);
  }

  // ----- Packets in, packets out -----

  /**
   * The lacing values of one packet: 255 for each full segment and a final smaller one, 0 included (RFC 3533, section
   * 5).
   */
  function LacingOf(n: nat): seq<byte> {
    if n < 255 then [n] else [255] + LacingOf(n - 255)
  }

  lemma {:induction false} LacingSize(n: nat)
    ensures Sum(LacingOf(n)) == n
    ensures |LacingOf(n)| == n / 255 + 1
  {
    if n < 255 {
      assert LacingOf(n)[1..] == [];
    } else {
      LacingSize(n - 255);
      assert LacingOf(n)[1..] == LacingOf(n - 255);
    }
  }

  function LacingOfAll(packets: seq<seq<byte>>): seq<byte> {
    if packets == [] then [] else LacingOf(|packets[0]|) + LacingOfAll(packets[1..])
  }

  lemma {:induction false} AssembleOne(packet: seq<byte>, carry: seq<byte>)
    ensures Sum(LacingOf(|packet|)) == |packet|
    ensures Assemble(LacingOf(|packet|), packet, carry) == Assembly([carry + packet], [])
    decreases |packet|
  {
    var lacing := LacingOf(|packet|);
    LacingSize(|packet|);
    if |packet| < 255 {
      assert lacing[1..] == [] && packet[..|packet|] == packet;
    } else {
      assert lacing[1..] == LacingOf(|packet| - 255);
      AssembleOne(packet[255..], carry + packet[..255]);
      assert (carry + packet[..255]) + packet[255..] == carry + packet;
    }
  }

  lemma {:induction false} AssembleAll(packets: seq<seq<byte>>)
    ensures Sum(LacingOfAll(packets)) == |Flatten(packets)|
    ensures Assemble(LacingOfAll(packets), Flatten(packets), []) == Assembly(packets, [])
    decreases |packets|
  {
    if packets != [] {
      AssembleOne(packets[0], []);
      AssembleAll(packets[1..]);
      AssembleAppend(LacingOf(|packets[0]|), packets[0], LacingOfAll(packets[1..]), Flatten(packets[1..]), []);
      assert [] + packets[0] == packets[0];
      assert [packets[0]] + packets[1..] == packets;
    }
  }

  /**
   * Whatever conforming pages carry the packets (several to a page, one over many pages) and however the bytes arrive,
   * the callback sees exactly the audio packets in order and nothing is left behind.
   */
  lemma AnyPaginationAnyChunking(packets: seq<seq<byte>>, pages: seq<OggPage>, chunks: seq<seq<byte>>)
    requires Conforming(pages)
    requires Lacings(pages) == LacingOfAll(packets) && Bodies(pages) == Flatten(packets)
    requires Flatten(chunks) == WireAll(pages)
    ensures FeedAll(chunks, [], []) == Outcome(Audio(packets), [], [], true)
  {
    FeedPages(pages, chunks);
    AssembleAll(packets);
  }

  // ----- Every accepted stream is a run of pages -----

  /**
   * Inverse of `WireAll`: an accepted stream is the wire form of some conforming pages followed by what is retained.
   */
  lemma {:induction false} AcceptedIsPages(b: seq<byte>, carry: seq<byte>) returns (pages: seq<OggPage>)
    ensures Conforming(pages)
    ensures b == WireAll(pages) + Drain(b, carry).buffer
    ensures Sum(Lacings(pages)) == |Bodies(pages)|
    ensures var a := Assemble(Lacings(pages), Bodies(pages), carry);
            Drain(b, carry).delivered == Audio(a.packets) && Drain(b, carry).carry == a.carry
    decreases |b|
  {
    match NextPage(b) {
      case NeedMore => pages := [];
      case Invalid => pages := [];
      case Page(lacing, body, size) =>
        var tail := AcceptedIsPages(b[size..], Assemble(lacing, body, carry).carry);
        pages := [OggPage(b[5..26], lacing, body)] + tail;
        AcceptedCons(b, carry, tail);
    }
  }

  lemma AcceptedCons(b: seq<byte>, carry: seq<byte>, tail: seq<OggPage>)
    requires NextPage(b).Page? && Conforming(tail)
    requires Sum(Lacings(tail)) == |Bodies(tail)|
    requires var Page(lacing, body, size) := NextPage(b);
             var a := Assemble(lacing, body, carry);
             var o := Drain(b[size..], a.carry);
             && b[size..] == WireAll(tail) + o.buffer
             && var rest := Assemble(Lacings(tail), Bodies(tail), a.carry);
             o.delivered == Audio(rest.packets) && o.carry == rest.carry
    ensures var pages := [OggPage(b[5..26], NextPage(b).lacing, NextPage(b).body)] + tail;
            && Conforming(pages)
            && b == WireAll(pages) + Drain(b, carry).buffer
            && Sum(Lacings(pages)) == |Bodies(pages)|
            && var all := Assemble(Lacings(pages), Bodies(pages), carry);
            Drain(b, carry).delivered == Audio(all.packets) && Drain(b, carry).carry == all.carry
  {
    hide Sum, Assemble, Audio, OggPage.Wire, Conforming, WireAll, Lacings, Bodies;
    var Page(lacing, body, size) := NextPage(b);
    var a := Assemble(lacing, body, carry);
    var first := OggPage(b[5..26], lacing, body);
    assert b == first.Wire() + b[size..] by {
      WireOfPrefix(b);
      assert b == b[..size] + b[size..];
    }
    ConsPage(first, tail, b[size..], Drain(b[size..], a.carry).buffer);
    AssembleAppend(lacing, body, Lacings(tail), Bodies(tail), carry);
    AudioAppend(a.packets, Assemble(Lacings(tail), Bodies(tail), a.carry).packets);
  }

  lemma ConsPage(first: OggPage, tail: seq<OggPage>, b: seq<byte>, rest: seq<byte>)
    requires first.Conforms() && Conforming(tail) && b == WireAll(tail) + rest
    ensures Conforming([first] + tail)
    ensures WireAll([first] + tail) + rest == first.Wire() + b
    ensures Lacings([first] + tail) == first.lacing + Lacings(tail)
    ensures Bodies([first] + tail) == first.body + Bodies(tail)
  {
    assert ([first] + tail)[1..] == tail;
  }

  lemma WireOfPrefix(b: seq<byte>)
    requires NextPage(b).Page?
    ensures |NextPage(b).lacing| <= 255
    ensures b[..NextPage(b).size] == OggPage(b[5..26], NextPage(b).lacing, NextPage(b).body).Wire()
  {
    var Page(lacing, body, size) := NextPage(b);
    var header := HeaderSize(b);
    var wire := OggPage(b[5..26], lacing, body).Wire();
    assert |wire| == size;
    assert wire[..4] == b[..4];
    assert wire[4] == b[4];
    assert wire[5..26] == b[5..26];
    assert wire[26] == b[26];
    assert wire[27..header] == b[27..header];
    assert wire[header..] == b[header..size];
    assert wire == wire[..4] + [wire[4]] + wire[5..26] + [wire[26]] + wire[27..header] + wire[header..];
    assert b[..size] == b[..4] + [b[4]] + b[5..26] + [b[26]] + b[27..header] + b[header..size];
  }

  /**
   * An error means that what is retained does not start like a page; without one it is too short for a header or the
   * start of a page that is not all there.
   */
  lemma RejectedExactlyWhenNoPage(b: seq<byte>, carry: seq<byte>)
    ensures var o := Drain(b, carry);
            && (!o.ok <==> |o.buffer| >= 27 && !(Ascii("OggS") + [0] <= o.buffer))
            && (o.ok && |o.buffer| >= 27 ==> exists page: OggPage :: page.Conforms() && o.buffer < page.Wire())
  {
    DrainStops(b, carry);
    Names();
    var buffer := Drain(b, carry).buffer;
    hide Drain, Ascii;
    if |buffer| >= 27 {
      assert buffer[..5] == buffer[..4] + [buffer[4]];
      assert Ascii("OggS") + [0] <= buffer <==> buffer[..5] == CAPTURE_PATTERN + [0];
      assert (CAPTURE_PATTERN + [0])[..4] == CAPTURE_PATTERN;
    }
    if |buffer| >= 27 && NextPage(buffer).NeedMore? {
      StartOfPage(buffer);
    }
  }

  /** An unfinished page can be finished. */
  lemma StartOfPage(b: seq<byte>)
    requires |b| >= 27 && NextPage(b).NeedMore?
    ensures exists page: OggPage :: page.Conforms() && b < page.Wire()
  {
    var header := HeaderSize(b);
    var rest := b[27..];
    if |b| < header {
      var missing := Ones(header - |b|);
      OnesSum(header - |b|);
      SumAppend(rest, missing);
      var body := Ones(Sum(rest + missing));
      StartAndRest(b, rest + missing, body, missing + body);
    } else {
      var lacing, have := b[27..header], b[header..];
      var missing := Ones(Sum(lacing) - |have|);
      assert rest == lacing + have;
      StartAndRest(b, lacing, have + missing, missing);
    }
  }

  lemma StartAndRest(b: seq<byte>, lacing: seq<byte>, body: seq<byte>, more: seq<byte>)
    requires |b| >= 27 && b[..4] == CAPTURE_PATTERN && b[4] == 0 && |lacing| == b[26]
    requires Sum(lacing) == |body| && more != []
    requires b[27..] + more == lacing + body
    ensures exists page: OggPage :: page.Conforms() && b < page.Wire()
  {
    hide Sum;
    var page := OggPage(b[5..26], lacing, body);
    FrontOfPage(b);
    var front := CAPTURE_PATTERN + [0] + b[5..26] + [b[26]];
    assert page.Wire() == front + (lacing + body);
    assert front + (b[27..] + more) == b + more;
    assert page.Conforms() && b < page.Wire();
  }

  lemma FrontOfPage(b: seq<byte>)
    requires |b| >= 27 && b[..4] == CAPTURE_PATTERN && b[4] == 0
    ensures b == CAPTURE_PATTERN + [0] + b[5..26] + [b[26]] + b[27..]
  {
    assert b[..27] == b[..4] + [b[4]] + b[5..26] + [b[26]];
  }

  function Ones(n: nat): (r: seq<byte>)
    ensures |r| == n
  {
    if n == 0 then [] else Ones(n - 1) + [1]
  }

  lemma {:induction false} OnesSum(n: nat)
    ensures Sum(Ones(n)) == n
  {
    if n == 0 {
    } else {
      OnesSum(n - 1);
      SumAppend(Ones(n - 1), [1]);
      assert Sum([1]) == 1 + Sum([]);
    }
  }

  // ----- The parser object -----

  class OggPacketParser {
    var buffer: seq<byte>
    var packet: seq<byte>

    constructor ()
      ensures buffer == [] && packet == []
    {
      buffer, packet := [], [];
    }

    /** `delivered` lists the arguments of the `onPacket` calls in order; `ok` is false for the invalid-stream error. */
    method Feed(chunk: seq<byte>) returns (delivered: seq<seq<byte>>, ok: bool)
      modifies this
      ensures Outcome(delivered, buffer, packet, ok) == Drain(old(buffer) + chunk, old(packet))
    {
      hide Drain, Deliver, Assemble, Audio, Sum;
      buffer := buffer + chunk;
      delivered := [];
      ghost var whole := Drain(buffer, packet);
      DeliverTwice([], [], whole);
      while true
        invariant whole == Deliver(delivered, Drain(buffer, packet))
        decreases |buffer|
      {
        if |buffer| < 27 {
          DrainEnds(whole, delivered, buffer, packet);
          return delivered, true;
        }
        if buffer[..4] != CAPTURE_PATTERN || buffer[4] != 0 {
          DrainEnds(whole, delivered, buffer, packet);
          return delivered, false;
        }
        var segments: nat := buffer[26];
        var headerSize := 27 + segments;
        if |buffer| < headerSize {
          DrainEnds(whole, delivered, buffer, packet);
          return delivered, true;
        }
        var bodySize := SumSegments(buffer[27..headerSize]);
        var pageSize := headerSize + bodySize;
        if |buffer| < pageSize {
          DrainEnds(whole, delivered, buffer, packet);
          return delivered, true;
        }
        DrainContinues(whole, delivered, buffer, packet);
        var completed := TakeSegments(headerSize, pageSize);
        delivered := delivered + completed;
        buffer := buffer[pageSize..];
      }
    }

    /** The segment loop of one page: extends `packet` and hands out the audio packets that end on this page. */
    method TakeSegments(headerSize: nat, pageSize: nat) returns (delivered: seq<seq<byte>>)
      requires 27 <= headerSize <= pageSize <= |buffer|
      requires Sum(buffer[27..headerSize]) == pageSize - headerSize
      modifies this`packet
      ensures var a := Assemble(buffer[27..headerSize], buffer[headerSize..pageSize], old(packet));
              delivered == Audio(a.packets) && packet == a.carry
    {
      hide Assemble, Audio, Sum, SegmentsLeft;
      var lacing := buffer[27..headerSize];
      ghost var page := buffer;
      ghost var body := page[headerSize..pageSize];
      ghost var whole := Assemble(lacing, body, packet);
      var offset := headerSize;
      var i := 0;
      delivered := [];
      SegmentsStart(lacing, body, packet);
      while i < |lacing|
        invariant 0 <= i <= |lacing| && headerSize <= offset <= pageSize
        invariant buffer == page
        invariant SegmentsLeft(whole, delivered, lacing, body, i, offset - headerSize, packet)
      {
        var size: nat := lacing[i];
        SegmentTaken(whole, delivered, lacing, body, i, offset - headerSize, packet);
        SliceOfSlice(page, headerSize, pageSize, offset - headerSize, offset - headerSize + size);
        packet := packet + buffer[offset..offset + size];
        offset := offset + size;
        if size < 255 {
          var complete := packet;
          packet := [];
          assert delivered + [] == delivered;
          if OPUS_HEAD <= complete {
          } else if !(OPUS_TAGS <= complete) && |complete| > 0 {
            delivered := delivered + [complete];
          }
        }
        i := i + 1;
      }
      SegmentsEnd(whole, delivered, lacing, body, i, offset - headerSize, packet);
    }
  }

  method SumSegments(lacing: seq<byte>) returns (bodySize: nat)
    ensures bodySize == Sum(lacing)
  {
    bodySize := 0;
    for i := 0 to |lacing|
      invariant bodySize + Sum(lacing[i..]) == Sum(lacing)
    {
      assert lacing[i..][1..] == lacing[i + 1..];
      bodySize := bodySize + lacing[i];
    }
  }
}
