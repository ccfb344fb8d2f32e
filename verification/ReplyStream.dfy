/**
 * Early sentence release from a streamed structured reply: internal/server/streaming_reply.go, structuredReplyStream.
 */
module ReplyStream {
  import opened Bytes
  import opened JsonField
  import opened Picking
  import Trimming
  import opened Utf8

  type Text = seq<Scalar>

  // ----- Trimming -----

  /** unicode.IsSpace. */
  predicate IsSpace(r: Scalar) {
    || 9 <= r <= 13 || r == 0x20 || r == 0x85 || r == 0xA0 || r == 0x1680 || 0x2000 <= r <= 0x200A
    || r == 0x2028 || r == 0x2029 || r == 0x202F || r == 0x205F || r == 0x3000
  }

  /** The 25 code points of Unicode's White_Space property. */
  const SPACES: string := "\t\n\U{0B}\U{0C}\r \U{85}\U{A0}\U{1680}\U{2000}\U{2001}\U{2002}\U{2003}\U{2004}"
    + "\U{2005}\U{2006}\U{2007}\U{2008}\U{2009}\U{200A}\U{2028}\U{2029}\U{202F}\U{205F}\U{3000}"

  lemma SpacesAre(r: Scalar)
    ensures IsSpace(r) <==> r as char in SPACES
  {
  }

  function TrimText(t: Text): Text {
    Trimming.Trim(t, IsSpace)
  }

  /** strings.ToLower(strings.TrimSpace(kind)) == "chat"; only the ASCII capitals lower to these four letters. */
  predicate IsChat(kind: Text) {
    var t := TrimText(kind);
    && |t| == 4
    && (t[0] == 99 || t[0] == 67) && (t[1] == 104 || t[1] == 72) && (t[2] == 97 || t[2] == 65)
       && (t[3] == 116 || t[3] == 84)
  }

  /** The kind is these four letters, in either case, with white space around them. */
  lemma ChatMeans(kind: Text)
    ensures IsChat(kind)
            <==> exists a: nat, b: nat :: IsTrimmedText(kind, a, b) && b == a + 4
                   && LetterOf(kind[a], 'c', 'C') && LetterOf(kind[a + 1], 'h', 'H')
                   && LetterOf(kind[a + 2], 'a', 'A') && LetterOf(kind[a + 3], 't', 'T')
  {
    hide Trimming.Trim, IsSpace;
    var a, b := Trimming.TrimMeans(kind, IsSpace);
    assert IsTrimmedText(kind, a, b);
    forall c: nat, d: nat | IsTrimmedText(kind, c, d) ensures kind[c..d] == TrimText(kind) {
      Trimming.TrimIsOnly(kind, IsSpace, c, d);
    }
    var t := TrimText(kind);
    assert forall i :: 0 <= i < |t| ==> t[i] == kind[a + i];
    if c: nat, d: nat :| IsTrimmedText(kind, c, d) && d == c + 4
                        && LetterOf(kind[c], 'c', 'C') && LetterOf(kind[c + 1], 'h', 'H')
                        && LetterOf(kind[c + 2], 'a', 'A') && LetterOf(kind[c + 3], 't', 'T')
    {
      assert forall i :: 0 <= i < 4 ==> kind[c..d][i] == kind[c + i];
    }
  }

  predicate IsTrimmedText(t: Text, a: nat, b: nat) {
    Trimming.IsTrimmed(t, IsSpace, a, b)
  }

  predicate LetterOf(r: Scalar, lower: char, upper: char) {
    r == lower as int || r == upper as int
  }

  // ----- Sentences -----

  /** One of the five terminators, full-width or ASCII. */
  predicate EndsSentence(r: Scalar) {
    r == 0x3002 || r == 0xFF01 || r == 0xFF1F || r == 33 || r == 63
  }

  lemma TerminatorsAre(r: Scalar)
    ensures EndsSentence(r) <==> exists i :: 0 <= i < 5 && r == TERMINATORS[i] as int
  {
    if EndsSentence(r) {
      var i := if r == 0x3002 then 0 else if r == 0xFF01 then 1 else if r == 0xFF1F then 2 else if r == 33 then 3
          else 4;
      assert r == TERMINATORS[i] as int;
    }
  }

  /** Ideographic full stop, full-width exclamation and question marks, and the ASCII ones. */
  const TERMINATORS: string := "\U{3002}\U{FF01}\U{FF1F}!?"

  /** Text cut right after each terminator; `rest` is what follows the last one. */
  datatype Cut = Cut(pieces: seq<Text>, rest: Text)

  /** Cuts t, the text in `open` having been read since the last terminator. */
  function CutFrom(open: Text, t: Text): Cut
    decreases |t|
  {
    if t == [] then Cut([], open)
    else if EndsSentence(t[0]) then
      var tail := CutFrom([], t[1..]);
      Cut([open + [t[0]]] + tail.pieces, tail.rest)
    else CutFrom(open + [t[0]], t[1..])
  }

  /** What is spoken of the pieces: each trimmed, the empty ones dropped. */
  function Spoken(pieces: seq<Text>): seq<Text> {
    if pieces == [] then []
    else
      var first := TrimText(pieces[0]);
      (if first == [] then [] else [first]) + Spoken(pieces[1..])
  }

  lemma {:induction false} SpokenAppend(a: seq<Text>, b: seq<Text>)
    ensures Spoken(a + b) == Spoken(a) + Spoken(b)
  {
    hide TrimText;
    if a == [] {
      assert a + b == b;
    } else {
      assert (a + b)[1..] == a[1..] + b;
      SpokenAppend(a[1..], b);
    }
  }

  /** A piece that is not all white space. */
  predicate HasSound(piece: Text) {
    exists i :: 0 <= i < |piece| && !IsSpace(piece[i])
  }

  lemma SoundMeans(piece: Text)
    ensures HasSound(piece) <==> TrimText(piece) != []
  {
    hide Trimming.Trim, IsSpace;
    var a, b := Trimming.TrimMeans(piece, IsSpace);
    if a < b {
      assert !IsSpace(piece[a]);
    }
  }

  /** What is spoken are exactly the pieces that are not all white space, in order, each trimmed. */
  lemma {:induction false} SpokenPicks(pieces: seq<Text>) returns (kept: seq<Text>, at: seq<nat>)
    ensures Picks(pieces, HasSound, kept, at) && |Spoken(pieces)| == |kept|
    ensures forall i :: 0 <= i < |kept| ==> Spoken(pieces)[i] == TrimText(kept[i]) != []
    decreases |pieces|
  {
    hide Picks, HasSound, TrimText;
    if pieces == [] {
      kept, at := [], [];
      PicksNothing(HasSound);
    } else {
      var front, x := pieces[..|pieces| - 1], pieces[|pieces| - 1];
      assert pieces == front + [x];
      kept, at := SpokenPicks(front);
      SpokenAppend(front, [x]);
      SoundMeans(x);
      SpokenOne(x);
      PicksNext(front, x, HasSound, kept, at);
      if TrimText(x) != [] {
        kept, at := kept + [x], at + [|front|];
      }
    }
  }

  lemma SpokenOne(x: Text)
    ensures Spoken([x]) == if TrimText(x) == [] then [] else [TrimText(x)]
  {
    hide TrimText;
    assert [x][1..] == [];
  }

  /** Nothing spoken is empty, and nothing starts or ends with white space. */
  predicate IsClear(sentence: Text) {
    sentence != [] && !IsSpace(sentence[0]) && !IsSpace(sentence[|sentence| - 1])
  }

  lemma SpokenIsClear(pieces: seq<Text>)
    ensures forall i :: 0 <= i < |Spoken(pieces)| ==> IsClear(Spoken(pieces)[i])
  {
    hide Picks, HasSound, Spoken, IsSpace, Trimming.TrimLeft, Trimming.TrimRight;
    var kept, at := SpokenPicks(pieces);
  }

  lemma {:induction false} CutInTwo(open: Text, a: Text, b: Text)
    ensures var first := CutFrom(open, a);
            var second := CutFrom(first.rest, b);
            CutFrom(open, a + b) == Cut(first.pieces + second.pieces, second.rest)
    decreases |a|
  {
    hide EndsSentence;
    if a == [] {
      assert a + b == b;
      assert [] + CutFrom(open, b).pieces == CutFrom(open, b).pieces;
    } else {
      assert (a + b)[1..] == a[1..] + b;
      if EndsSentence(a[0]) {
        CutInTwo([], a[1..], b);
        var piece, tail := [open + [a[0]]], CutFrom([], a[1..]);
        var second := CutFrom(tail.rest, b);
        assert piece + (tail.pieces + second.pieces) == (piece + tail.pieces) + second.pieces;
      } else {
        CutInTwo(open + [a[0]], a[1..], b);
      }
    }
  }

  /** What a cut means: nothing is lost or reordered, and terminators stand exactly at the ends of pieces. */
  lemma {:induction false} CutIsExact(open: Text, t: Text)
    requires forall i :: 0 <= i < |open| ==> !EndsSentence(open[i])
    ensures var c := CutFrom(open, t);
            && Flatten(c.pieces) + c.rest == open + t
            && (forall i :: 0 <= i < |c.rest| ==> !EndsSentence(c.rest[i]))
            && (forall p :: 0 <= p < |c.pieces| ==> IsSentence(c.pieces[p]))
    decreases |t|
  {
    hide EndsSentence;
    if t == [] {
      assert open + t == open && [] + open == open;
    } else if EndsSentence(t[0]) {
      CutIsExact([], t[1..]);
      var tail := CutFrom([], t[1..]);
      var pieces := CutFrom(open, t).pieces;
      assert pieces[1..] == tail.pieces;
      assert (open + [t[0]]) + (Flatten(tail.pieces) + tail.rest) == open + t;
      assert (open + [t[0]])[..|open|] == open;
    } else {
      CutIsExact(open + [t[0]], t[1..]);
      assert (open + [t[0]]) + t[1..] == open + t;
    }
  }

  predicate IsSentence(piece: Text) {
    && piece != [] && EndsSentence(piece[|piece| - 1])
    && forall i :: 0 <= i < |piece| - 1 ==> !EndsSentence(piece[i])
  }

  lemma {:induction false} CutWithoutTerminator(open: Text, t: Text)
    requires forall i :: 0 <= i < |t| ==> !EndsSentence(t[i])
    ensures CutFrom(open, t) == Cut([], open + t)
    decreases |t|
  {
    hide EndsSentence;
    if t == [] {
      assert open + t == open;
    } else {
      CutWithoutTerminator(open + [t[0]], t[1..]);
      assert (open + [t[0]]) + t[1..] == open + t;
    }
  }

  // ----- What should have been heard of a document -----

  /** The decoded reply once the document is known to be chat, and nothing before. */
  function Heard(raw: seq<byte>): Text {
    var kind := PartialField(raw, KIND_MARKER);
    if kind.complete && IsChat(kind.value) then PartialField(raw, REPLY_MARKER).value else []
  }

  /** The sentences that are complete in what has been heard. */
  function Released(raw: seq<byte>): seq<Text> {
    Spoken(CutFrom([], Heard(raw)).pieces)
  }

  /** All sentences of a text, the unterminated last one included. */
  function Sentences(t: Text): seq<Text> {
    Spoken(CutFrom([], t).pieces + [CutFrom([], t).rest])
  }

  lemma HeardGrows(raw: seq<byte>, more: seq<byte>)
    ensures Heard(raw) <= Heard(raw + more)
  {
    PrefixMonotone(raw, more, KIND_MARKER);
    PrefixMonotone(raw, more, REPLY_MARKER);
    hide PartialField, IsChat;
  }

  // ----- The stream object -----

  class StructuredReplyStream {
    var raw: seq<byte>
    var seenReply: Text
    var pending: Text
    var delivered: Text

    /** Everything heard has been taken in; what was cut off was delivered, and the rest is pending. */
    ghost predicate Valid()
      reads this
    {
      && seenReply == Heard(raw)
      && pending == CutFrom([], seenReply).rest
      && delivered == Flatten(Released(raw))
    }

    constructor ()
      ensures Valid() && raw == []
    {
      raw, seenReply, pending, delivered := [], [], [], [];
    }

    /** Whatever was released before plus these sentences is what the longer document releases. */
    method Append(delta: seq<byte>) returns (sentences: seq<Text>)
      requires Valid()
      modifies this
      ensures Valid() && raw == old(raw) + delta
      ensures Released(old(raw)) + sentences == Released(raw)
    {
      hide PartialField, IsChat, CutFrom, Spoken;
      HeardGrows(raw, delta);
      ghost var before := raw;
      raw := raw + delta;
      var kind, _, kindComplete := PartialJSONStringField(raw, KIND_MARKER);
      if !kindComplete || !IsChat(kind) {
        assert Released(before) + [] == Released(raw);
        return [];
      }
      var reply, started, _ := PartialJSONStringField(raw, REPLY_MARKER);
      if !started || !(seenReply <= reply) {
        NothingBeforeStart(raw);
        assert Released(before) + [] == Released(raw);
        return [];
      }
      ghost var added := reply[|seenReply|..];
      assert reply == seenReply + added;
      CutInTwo([], seenReply, added);
      PendingIsOpen(seenReply, added);
      SpokenAppend(CutFrom([], seenReply).pieces, CutFrom(pending, added).pieces);
      FlattenAppend(Released(before), Spoken(CutFrom(pending, added).pieces));
      pending := pending + reply[|seenReply|..];
      seenReply := reply;
      sentences := TakeCompleteSentences();
    }

    method TakeCompleteSentences() returns (sentences: seq<Text>)
      modifies this`pending, this`delivered
      ensures sentences == Spoken(CutFrom([], old(pending)).pieces)
      ensures pending == CutFrom([], old(pending)).rest
      ensures delivered == old(delivered) + Flatten(sentences)
    {
      hide CutFrom, TrimText, EndsSentence;
      sentences := [];
      var start := 0;
      ghost var text, whole := pending, CutFrom([], pending);
      assert text[0..0] == [] && text[0..] == text;
      CutStarts(whole, text);
      for index := 0 to |pending|
        invariant 0 <= start <= index <= |text| && pending == text
        invariant Cutting(whole, sentences, text[start..index], text[index..])
        invariant delivered == old(delivered) + Flatten(sentences)
      {
        CutOne(whole, sentences, text, start, index);
        hide Cutting, Spoken;
        if EndsSentence(pending[index]) {
          var end := index + 1;
          var sentence := TrimText(pending[start..end]);
          if sentence != [] {
            FlattenAppend(sentences, [sentence]);
            assert Flatten([sentence]) == sentence + [] == sentence;
            sentences := sentences + [sentence];
            assert delivered + sentence == old(delivered) + (Flatten(sentences[..|sentences| - 1]) + sentence);
            delivered := delivered + sentence;
          }
          start := end;
        }
      }
      assert text[start..|text|] == text[start..];
      CutEnds(whole, sentences, text[start..], text[|text|..]);
      pending := pending[start..];
    }

    method Flush() returns (sentences: seq<Text>)
      modifies this`pending, this`delivered
      ensures sentences == Spoken([old(pending)]) && pending == []
      ensures delivered == old(delivered) + Flatten(sentences)
    {
      hide TrimText;
      var remaining := TrimText(pending);
      assert Spoken([pending]) == if remaining == [] then [] else [remaining];
      pending := [];
      if remaining == [] {
        assert delivered + [] == delivered;
        return [];
      }
      delivered := delivered + remaining;
      assert Flatten([remaining]) == remaining + [] == remaining;
      sentences := [remaining];
    }
  }

  lemma NothingBeforeStart(raw: seq<byte>)
    ensures !PartialField(raw, REPLY_MARKER).started ==> PartialField(raw, REPLY_MARKER).value == []
  {
  }

  /** The text after the last terminator can be re-read as if it were new. */
  lemma PendingIsOpen(t: Text, more: Text)
    ensures var pending := CutFrom([], t).rest;
            CutFrom([], pending + more) == CutFrom(pending, more)
  {
    var pending := CutFrom([], t).rest;
    CutIsExact([], t);
    CutWithoutTerminator([], pending);
    CutInTwo([], pending, more);
    assert [] + pending == pending;
    assert [] + CutFrom(pending, more).pieces == CutFrom(pending, more).pieces;
  }

  /** The scan has produced `sentences`, holds `open` since the last cut and has `ahead` in front of it. */
  ghost predicate Cutting(whole: Cut, sentences: seq<Text>, open: Text, ahead: Text) {
    var tail := CutFrom(open, ahead);
    Spoken(whole.pieces) == sentences + Spoken(tail.pieces) && whole.rest == tail.rest
  }

  lemma CutStarts(whole: Cut, t: Text)
    requires whole == CutFrom([], t)
    ensures Cutting(whole, [], [], t)
  {
    assert [] + Spoken(whole.pieces) == Spoken(whole.pieces);
  }

  lemma CutOne(whole: Cut, sentences: seq<Text>, t: Text, start: nat, index: nat)
    requires start <= index < |t| && Cutting(whole, sentences, t[start..index], t[index..])
    ensures var sentence := TrimText(t[start..index + 1]);
            if EndsSentence(t[index])
            then
              var now := if sentence == [] then sentences else sentences + [sentence];
              Cutting(whole, now, t[index + 1..index + 1], t[index + 1..])
            else Cutting(whole, sentences, t[start..index + 1], t[index + 1..])
  {
    hide TrimText, EndsSentence;
    var open, ahead := t[start..index], t[index..];
    assert ahead[1..] == t[index + 1..] && open + [ahead[0]] == t[start..index + 1];
    if EndsSentence(t[index]) {
      var piece := t[start..index + 1];
      var tail := CutFrom([], ahead[1..]);
      assert t[index + 1..index + 1] == [];
      assert ([piece] + tail.pieces)[1..] == tail.pieces;
      var first := if TrimText(piece) == [] then [] else [TrimText(piece)];
      assert sentences + (first + Spoken(tail.pieces)) == (sentences + first) + Spoken(tail.pieces);
      assert sentences + [] == sentences;
    }
  }

  lemma CutEnds(whole: Cut, sentences: seq<Text>, open: Text, ahead: Text)
    requires Cutting(whole, sentences, open, ahead) && ahead == []
    ensures sentences == Spoken(whole.pieces) && open == whole.rest
  {
    assert sentences + [] == sentences;
  }

  // ----- A whole stream of deltas -----

  /**
   * Feeding one document in any pieces and flushing speaks exactly the sentences of its decoded reply, once each and in
   * order; a document that never shows itself to be chat speaks nothing.
   */
  method SpeakDeltas(deltas: seq<seq<byte>>) returns (spoken: seq<Text>)
    ensures spoken == Sentences(Heard(Flatten(deltas)))
    ensures forall k :: 0 <= k < |spoken| ==> IsClear(spoken[k])
  {
    hide Heard, Released, CutFrom, Spoken;
    var stream := new StructuredReplyStream();
    spoken := [];
    NothingHeard();
    for i := 0 to |deltas|
      invariant stream.Valid() && fresh(stream)
      invariant stream.raw == Flatten(deltas[..i]) && spoken == Released(stream.raw)
    {
      FlattenNext(deltas, i);
      var sentences := stream.Append(deltas[i]);
      spoken := spoken + sentences;
    }
    assert deltas[..|deltas|] == deltas;
    var last := stream.Flush();
    ReleasedThenFlushed(Flatten(deltas));
    spoken := spoken + last;
    SentencesAreClear(Heard(Flatten(deltas)));
  }

  lemma SentencesAreClear(t: Text)
    ensures forall k :: 0 <= k < |Sentences(t)| ==> IsClear(Sentences(t)[k])
  {
    hide CutFrom, Spoken;
    SpokenIsClear(CutFrom([], t).pieces + [CutFrom([], t).rest]);
  }

  /**
   * A document whose kind is written out as `kind` and its reply as `reply`, each behind the first occurrence of its
   * key.
   */
  ghost predicate Holds(raw: seq<byte>, marker: seq<byte>, chars: Text) {
    exists front, blanks1, blanks2, forms, back :: IsField(raw, marker, chars, front, blanks1, blanks2, forms, back)
  }

  ghost predicate IsField(raw: seq<byte>, marker: seq<byte>, chars: Text, front: seq<byte>, blanks1: seq<byte>,
                          blanks2: seq<byte>, forms: seq<seq<byte>>, back: seq<byte>) {
    && AllBlank(blanks1) && AllBlank(blanks2) && |chars| == |forms|
    && (forall i :: 0 <= i < |chars| ==> Escapes(chars[i], forms[i]))
    && raw == Opening(front, marker, blanks1, blanks2) + (Flatten(forms) + ([QUOTE] + back))
    && IndexOf(raw, marker) == |front|
  }

  /**
   * From the document to the voice: a chat reply is heard as written, whatever its escapes, and no other reply at
   * all.
   */
  lemma DocumentIsHeard(raw: seq<byte>, kind: Text, reply: Text)
    requires Holds(raw, KIND_MARKER, kind) && Holds(raw, REPLY_MARKER, reply)
    ensures Heard(raw) == if IsChat(kind) then reply else []
  {
    hide IsField, PartialField, IsChat;
    FieldIsRead(raw, KIND_MARKER, kind);
    FieldIsRead(raw, REPLY_MARKER, reply);
  }

  lemma FieldIsRead(raw: seq<byte>, marker: seq<byte>, chars: Text)
    requires Holds(raw, marker, chars)
    ensures PartialField(raw, marker) == Partial(chars, true, true)
  {
    hide PartialField, Escapes, IndexOf, Opening;
    var front, blanks1, blanks2, forms, back :| IsField(raw, marker, chars, front, blanks1, blanks2, forms, back);
    StringRoundTrip(front, marker, blanks1, blanks2, chars, forms, back);
  }

  lemma NothingHeard()
    ensures Released([]) == []
  {
  }

  lemma FlattenNext<T>(parts: seq<seq<T>>, i: nat)
    requires i < |parts|
    ensures Flatten(parts[..i + 1]) == Flatten(parts[..i]) + parts[i]
    ensures Flatten(parts[..0]) == []
  {
    FlattenAppend(parts[..i], [parts[i]]);
    assert parts[..i + 1] == parts[..i] + [parts[i]];
    assert Flatten([parts[i]]) == parts[i] + [] == parts[i];
  }

  lemma ReleasedThenFlushed(raw: seq<byte>)
    ensures Released(raw) + Spoken([CutFrom([], Heard(raw)).rest]) == Sentences(Heard(raw))
  {
    SpokenAppend(CutFrom([], Heard(raw)).pieces, [CutFrom([], Heard(raw)).rest]);
  }

  /** Releasing early never has to be taken back: what a document has released stays a prefix of what it will speak. */
  lemma ReleasedEarlyIsFinal(raw: seq<byte>, more: seq<byte>)
    ensures Released(raw) <= Released(raw + more) <= Sentences(Heard(raw + more))
  {
    HeardGrows(raw, more);
    var t, u := Heard(raw), Heard(raw + more);
    hide Heard, Spoken;
    assert u == t + u[|t|..];
    CutInTwo([], t, u[|t|..]);
    SpokenAppend(CutFrom([], t).pieces, CutFrom(CutFrom([], t).rest, u[|t|..]).pieces);
    SpokenAppend(CutFrom([], u).pieces, [CutFrom([], u).rest]);
  }
}
