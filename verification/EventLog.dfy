/** The conversation event log: internal/server/events.go, EventStore. */
module EventLog {
  import opened Bytes
  import opened LineLog
  import opened Wrappers

  /** A conversation event; `rest` stands for its other fields. */
  datatype Event = Event(traceID: Line, rest: Line)

  /** One record of the file with the update applied when it is an event of that trace. */
  function Rewritten(line: Line, traceID: Line, update: Event -> Event, codec: Codec<Event>): Line {
    match codec.decode(line)
    case None => line
    case Some(event) => if event.traceID == traceID then codec.encode(update(event)) else line
  }

  function RewriteAll(lines: seq<Line>, traceID: Line, update: Event -> Event, codec: Codec<Event>): (r: seq<Line>)
    ensures |r| == |lines|
  {
    seq(|lines|, i requires 0 <= i < |lines| => Rewritten(lines[i], traceID, update, codec))
  }

  /** A history whose last `limit` records are rewritten; what was pruned before stays as it was. */
  function TailRewritten(history: seq<Line>, limit: nat, traceID: Line, update: Event -> Event,
                         codec: Codec<Event>): (r: seq<Line>)
    ensures |r| == |history|
  {
    var split := |history| - |LastN(history, limit)|;
    history[..split] + RewriteAll(history[split..], traceID, update, codec)
  }

  predicate Mentions(lines: seq<Line>, traceID: Line, codec: Codec<Event>) {
    exists i :: 0 <= i < |lines| && IsOf(lines[i], traceID, codec)
  }

  predicate IsOf(line: Line, traceID: Line, codec: Codec<Event>) {
    codec.decode(line).Some? && codec.decode(line).value.traceID == traceID
  }

  type Limit = n: int | 0 < n witness 1

  class EventStore {
    var file: seq<Line>
    var count: nat
    var initialized: bool
    const limit: Limit
    const codec: Codec<Event>

    /** Every record ever: those found at the start, then each appended one, updates made in place. */
    ghost var history: seq<Line>

    /** Before first use the file is whatever an earlier process left; afterwards it is the tail of the history. */
    ghost predicate Valid()
      reads this
    {
      && IsCodec(codec)
      && (!initialized ==> history == Records(file))
      && (initialized ==> Records(file) == LastN(history, limit) && count == |Records(file)|)
    }

    constructor (file: seq<Line>, limit: int, codec: Codec<Event>)
      requires IsCodec(codec)
      ensures Valid() && !initialized && this.file == file && this.codec == codec
      ensures this.limit == if limit > 0 then limit else 500
    {
      this.file, this.codec := file, codec;
      this.limit := if limit > 0 then limit else 500;
      count, initialized, history := 0, false, Records(file);
    }

    method Ensure()
      requires Valid()
      modifies this`file, this`count, this`initialized
      ensures Valid() && initialized
    {
      hide Records, LastN, IsCodec;
      if initialized {
        return;
      }
      count := CountLines(file);
      LastNFacts(Records(file), limit);
      if count > limit {
        Prune();
      }
      initialized := true;
    }

    /** Keeps the last `limit` records. */
    method Prune()
      modifies this`file, this`count
      ensures Records(file) == file == LastN(Records(old(file)), limit)
      ensures count == |file|
    {
      hide Records, LastN;
      var lines := ReadRecentLines(file, limit);
      CleanTail(file, limit);
      file := lines;
      count := |lines|;
    }

    method Append(event: Event)
      requires Valid()
      modifies this
      ensures Valid() && initialized
      ensures history == old(history) + [codec.encode(event)]
    {
      hide Records, LastN, IsClean;
      Ensure();
      var line := codec.encode(event);
      EncodedIsClean(codec, event);
      RecordsAppendClean(file, line);
      LastNAppend(history, limit, line);
      LastNFacts(Records(file + [line]), limit);
      LastNFacts(history, limit);
      file := file + [line];
      history := history + [line];
      count := count + 1;
      if count > limit {
        Prune();
      }
    }

    /** Rewrites the events of one trace in place; reports whether there were any. */
    method Update(traceID: Line, update: Event -> Event) returns (found: bool)
      requires Valid()
      modifies this
      ensures Valid()
      ensures TrimSpace(traceID) == [] ==> !found && history == old(history) && file == old(file)
      ensures TrimSpace(traceID) != [] ==> initialized && found == Mentions(LastN(old(history), limit), traceID, codec)
      ensures TrimSpace(traceID) != [] ==> history == TailRewritten(old(history), limit, traceID, update, codec)
    {
      hide Records, LastN, TrimSpace, IsCodec, RewriteAll, Mentions, TailRewritten;
      if TrimSpace(traceID) == [] {
        return false;
      }
      Ensure();
      var lines;
      lines, found := RewriteFile(traceID, update);
      if !found {
        NothingToRewrite(history, limit, traceID, update, codec);
        return false;
      }
      RewrittenIsClean(file, traceID, update, codec);
      RewrittenIsTail(history, limit, traceID, update, codec);
      file := lines;
      count := |lines|;
      history := TailRewritten(history, limit, traceID, update, codec);
    }

    method RewriteFile(traceID: Line, update: Event -> Event) returns (lines: seq<Line>, found: bool)
      ensures lines == RewriteAll(Records(file), traceID, update, codec)
      ensures found == Mentions(Records(file), traceID, codec)
    {
      hide TrimSpace, Records;
      lines, found := [], false;
      EmptyFile(file, 1);
      NoRecords(file);
      for i := 0 to |file|
        invariant lines == RewriteAll(Records(file[..i]), traceID, update, codec)
        invariant found == Mentions(Records(file[..i]), traceID, codec)
      {
        assert file[..i + 1] == file[..i] + [file[i]];
        RecordsAppend(file[..i], file[i]);
        ghost var before := Records(file[..i]);
        var line := TrimSpace(file[i]);
        if line == [] {
          assert before + [] == before;
          continue;
        }
        RewriteOneMore(before, line, traceID, update, codec);
        var event := codec.decode(line);
        if event.Some? && event.value.traceID == traceID {
          line := codec.encode(update(event.value));
          found := true;
        }
        lines := lines + [line];
      }
      assert file[..|file|] == file;
    }

    /** The newest events first; lines that are not events are skipped. */
    method Recent(n: nat) returns (events: seq<Event>)
      requires n > 0
      ensures events == Newest(LastN(Records(file), n), codec.decode)
    {
      var lines := ReadRecentLines(file, n);
      events := DecodeNewest(lines, codec.decode);
    }
  }

  lemma EncodedIsClean(codec: Codec<Event>, event: Event)
    requires IsCodec(codec)
    ensures IsClean(codec.encode(event))
  {
  }

  lemma RecordsAppendClean(file: seq<Line>, line: Line)
    requires IsClean(line)
    ensures Records(file + [line]) == Records(file) + [line]
  {
    RecordsAppend(file, line);
  }

  lemma LastNFacts(lines: seq<Line>, limit: nat)
    ensures |LastN(lines, limit)| == if |lines| <= limit then |lines| else limit
    ensures |lines| <= limit ==> LastN(lines, limit) == lines
  {
  }

  lemma RewrittenIsTail(history: seq<Line>, limit: nat, traceID: Line, update: Event -> Event, codec: Codec<Event>)
    ensures LastN(TailRewritten(history, limit, traceID, update, codec), limit)
         == RewriteAll(LastN(history, limit), traceID, update, codec)
  {
    hide RewriteAll, Mentions;
    assert history[|history| - |LastN(history, limit)|..] == LastN(history, limit);
  }

  lemma NoRecords(file: seq<Line>)
    ensures Records(file[..0]) == []
  {
  }

  lemma RewriteOneMore(before: seq<Line>, line: Line, traceID: Line, update: Event -> Event, codec: Codec<Event>)
    ensures RewriteAll(before + [line], traceID, update, codec)
         == RewriteAll(before, traceID, update, codec) + [Rewritten(line, traceID, update, codec)]
    ensures Mentions(before + [line], traceID, codec)
            <==> Mentions(before, traceID, codec) || IsOf(line, traceID, codec)
  {
    if Mentions(before, traceID, codec) {
      var i :| 0 <= i < |before| && IsOf(before[i], traceID, codec);
      assert IsOf((before + [line])[i], traceID, codec);
    }
    if IsOf(line, traceID, codec) {
      assert IsOf((before + [line])[|before|], traceID, codec);
    }
  }

  lemma NothingToRewrite(history: seq<Line>, limit: nat, traceID: Line, update: Event -> Event, codec: Codec<Event>)
    requires !Mentions(LastN(history, limit), traceID, codec)
    ensures TailRewritten(history, limit, traceID, update, codec) == history
  {
    var split := |history| - |LastN(history, limit)|;
    assert history[split..] == LastN(history, limit);
    assert history == history[..split] + history[split..];
    RewriteNothing(history[split..], traceID, update, codec);
  }

  lemma RewriteNothing(lines: seq<Line>, traceID: Line, update: Event -> Event, codec: Codec<Event>)
    requires !Mentions(lines, traceID, codec)
    ensures RewriteAll(lines, traceID, update, codec) == lines
  {
    forall i | 0 <= i < |lines| ensures Rewritten(lines[i], traceID, update, codec) == lines[i] {
      assert !IsOf(lines[i], traceID, codec);
    }
  }

  lemma RewrittenIsClean(file: seq<Line>, traceID: Line, update: Event -> Event, codec: Codec<Event>)
    requires IsCodec(codec)
    ensures Records(RewriteAll(Records(file), traceID, update, codec))
            == RewriteAll(Records(file), traceID, update, codec)
  {
    hide Records, IsClean;
    var records := Records(file);
    RecordsAreClean(file);
    forall i | 0 <= i < |records| ensures IsClean(Rewritten(records[i], traceID, update, codec)) {
    }
    RecordsOfClean(RewriteAll(records, traceID, update, codec));
  }

  // ----- What the log means for the events themselves -----

  function Apply(event: Event, traceID: Line, update: Event -> Event): Event {
    if event.traceID == traceID then update(event) else event
  }

  function ApplyToTail(events: seq<Event>, limit: nat, traceID: Line, update: Event -> Event): (r: seq<Event>)
    ensures |r| == |events|
  {
    seq(|events|, i requires 0 <= i < |events| =>
      if i < |events| - limit then events[i] else Apply(events[i], traceID, update))
  }

  /** On a log of encoded events, an update is the update of exactly the kept events of that trace. */
  lemma UpdateIsOnEvents(events: seq<Event>, limit: nat, traceID: Line, update: Event -> Event, codec: Codec<Event>)
    requires IsCodec(codec)
    ensures TailRewritten(EncodeAll(events, codec.encode), limit, traceID, update, codec)
         == EncodeAll(ApplyToTail(events, limit, traceID, update), codec.encode)
    ensures var updated := ApplyToTail(events, limit, traceID, update);
            forall i :: 0 <= i < |events| ==>
              updated[i] == if i >= |events| - limit && events[i].traceID == traceID then update(events[i])
                  else events[i]
  {
    ApplyMeans(events, limit, traceID, update);
    hide IsCodec, Rewritten, Apply;
    var history := EncodeAll(events, codec.encode);
    var split := |history| - |LastN(history, limit)|;
    forall i | 0 <= i < |events|
      ensures TailRewritten(history, limit, traceID, update, codec)[i]
           == EncodeAll(ApplyToTail(events, limit, traceID, update), codec.encode)[i]
    {
      if i < split {
        assert history[..split][i] == codec.encode(events[i]);
      } else {
        assert history[split..][i - split] == codec.encode(events[i]);
        EventIsRewritten(events[i], traceID, update, codec);
      }
    }
  }

  lemma ApplyMeans(events: seq<Event>, limit: nat, traceID: Line, update: Event -> Event)
    ensures var updated := ApplyToTail(events, limit, traceID, update);
            forall i :: 0 <= i < |events| ==>
              updated[i] == if i >= |events| - limit && events[i].traceID == traceID then update(events[i])
                  else events[i]
  {
  }

  lemma EventIsRewritten(event: Event, traceID: Line, update: Event -> Event, codec: Codec<Event>)
    requires IsCodec(codec)
    ensures Rewritten(codec.encode(event), traceID, update, codec) == codec.encode(Apply(event, traceID, update))
  {
    hide IsClean;
    assert codec.decode(codec.encode(event)) == Some(event);
  }

  /** It is found exactly when one of the kept events is of that trace. */
  lemma FoundMeansKept(events: seq<Event>, limit: nat, traceID: Line, codec: Codec<Event>)
    requires IsCodec(codec)
    ensures Mentions(LastN(EncodeAll(events, codec.encode), limit), traceID, codec)
        <==> exists i :: 0 <= i < |events| && i >= |events| - limit && events[i].traceID == traceID
  {
    hide IsClean;
    var kept := LastN(EncodeAll(events, codec.encode), limit);
    var split := |events| - |kept|;
    forall i | 0 <= i < |kept| ensures IsOf(kept[i], traceID, codec) <==> events[split + i].traceID == traceID {
      assert codec.decode(codec.encode(events[split + i])) == Some(events[split + i]);
    }
    if i :| 0 <= i < |events| && i >= |events| - limit && events[i].traceID == traceID {
      assert IsOf(kept[i - split], traceID, codec);
    }
  }
}
