/**
 * Single-flight speech synthesis over a memory cache and a disk cache: internal/server/server.go,
 * synthesizeSpeechWithCache, completeSpeechCall and cachedSpeechForStream, under every interleaving of requests.
 */
module SpeechCache {
  import opened Bytes
  import opened DiskCache
  import opened Wrappers

  const MAX_ENTRIES: nat := 128

  /** What synthesis gives: audio and MIME type, or an error. */
  datatype Reply = Reply(speech: Speech, failed: bool)

  const NO_REPLY := Reply(Speech([], []), false)

  /** A speechCall; `closes` counts the closings of its channel, `done` says that the channel is closed. */
  datatype Call = Call(key: Key, owner: nat, done: bool, closes: nat, reply: Reply)

  /** Everything guarded by speechMu, and the call records it hands out. */
  datatype Shared = Shared(memory: map<Key, Speech>, calls: map<Key, nat>, records: map<nat, Call>, next: nat)

  datatype Found = InMemory(speech: Speech) | Join(call: nat) | Own(call: nat)

  // ----- The locked sections -----

  /** The first locked section of a synthesis request. */
  ghost predicate LooksUp(before: Shared, after: Shared, key: Key, request: nat, found: Found) {
    if key in before.memory then after == before && found == InMemory(before.memory[key])
    else if key in before.calls then after == before && found == Join(before.calls[key])
    else
      var c := before.next;
      && found == Own(c)
      && after == before.(calls := before.calls[key := c],
                          records := before.records[c := Call(key, request, false, 0, NO_REPLY)], next := c + 1)
  }

  /** Insertion into the memory cache; when it is full an arbitrary entry goes first. */
  ghost predicate Remembers(before: map<Key, Speech>, after: map<Key, Speech>, key: Key, speech: Speech) {
    if |before| >= MAX_ENTRIES
    then exists victim :: victim in before && after == (before - {victim})[key := speech]
    else after == before[key := speech]
  }

  /** completeSpeechCall. */
  ghost predicate Completes(before: Shared, after: Shared, key: Key, call: nat, reply: Reply)
    requires call in before.records
  {
    var record := before.records[call];
    && (if reply.failed then after.memory == before.memory
        else Remembers(before.memory, after.memory, key, reply.speech))
    && after.calls == before.calls - {key}
    && after.records == before.records[call := record.(reply := reply, done := true, closes := record.closes + 1)]
    && after.next == before.next
  }

  class Server {
    var speechCache: map<Key, Speech>
    var speechCalls: map<Key, nat>
    var records: map<nat, Call>
    var next: nat

    ghost function State(): Shared
      reads this
    {
      Shared(speechCache, speechCalls, records, next)
    }

    constructor ()
      ensures State() == Shared(map[], map[], map[], 0)
    {
      speechCache, speechCalls, records, next := map[], map[], map[], 0;
    }

    method LookUp(key: Key, request: nat) returns (found: Found)
      modifies this
      ensures LooksUp(old(State()), State(), key, request, found)
    {
      if key in speechCache {
        return InMemory(speechCache[key]);
      }
      if key in speechCalls {
        return Join(speechCalls[key]);
      }
      records := records[next := Call(key, request, false, 0, NO_REPLY)];
      speechCalls := speechCalls[key := next];
      found := Own(next);
      next := next + 1;
    }

    method Remember(key: Key, speech: Speech)
      modifies this`speechCache
      ensures Remembers(old(speechCache), speechCache, key, speech)
      ensures key in speechCache && speechCache[key] == speech
    {
      if |speechCache| >= MAX_ENTRIES {
        SomeKey(speechCache);
        var cachedKey :| cachedKey in speechCache;
        speechCache := speechCache - {cachedKey};
      }
      speechCache := speechCache[key := speech];
    }

    method CompleteSpeechCall(key: Key, call: nat, reply: Reply)
      requires call in records
      modifies this
      ensures Completes(old(State()), State(), key, call, reply)
      ensures !reply.failed ==> key in speechCache && speechCache[key] == reply.speech
      ensures reply.failed ==> speechCache == old(speechCache)
    {
      if !reply.failed {
        Remember(key, reply.speech);
      }
      var record := records[call];
      records := records[call := record.(reply := reply, done := true, closes := record.closes + 1)];
      speechCalls := speechCalls - {key};
    }
  }

  lemma SomeKey<K, V>(m: map<K, V>)
    requires |m| > 0
    ensures exists k :: k in m
  {
    assert m.Keys != {};
    var k :| k in m.Keys;
  }

  // ----- Requests -----

  datatype Source = FromMemory | Coalesced(call: nat) | Owned(call: nat)

  /** Where a request stands between two of its atomic steps. */
  datatype Request =
    | ReadingDisk(key: Key, call: nat)
    | Speaking(key: Key, call: nat)
    | Storing(key: Key, call: nat, reply: Reply)
    | Completing(key: Key, call: nat, reply: Reply)
    | Waiting(key: Key, call: nat)
    | StreamReading(key: Key)
    | StreamRemembering(key: Key, speech: Speech)
    | Returned(key: Key, reply: Reply, source: Source)
    | GaveUp(key: Key)

  /** `given` records every success of the voice provider, those behind the initial files included. */
  datatype World = World(shared: Shared, files: Directory, requests: map<nat, Request>, given: set<(Key, Speech)>)

  predicate Owns(r: Request) {
    r.ReadingDisk? || r.Speaking? || r.Storing? || r.Completing?
  }

  /** A request starts: memory hit, joins a call in flight, or becomes the owner of a new one. */
  ghost predicate Start(w: World, w': World, t: nat, key: Key) {
    && t !in w.requests
    && exists found :: LooksUp(w.shared, w'.shared, key, t, found)
                       && w' == w.(shared := w'.shared, requests := w.requests[t := Starting(key, found)])
  }

  function Starting(key: Key, found: Found): Request {
    match found
    case InMemory(speech) => Returned(key, Reply(speech, false), FromMemory)
    case Join(c) => Waiting(key, c)
    case Own(c) => ReadingDisk(key, c)
  }

  /** The effect of reading the disk cache: a broken file is removed. */
  ghost function AfterRead(files: Directory, key: Key): Directory {
    if key in files && Decode(files[key].payload).None? then files - {key} else files
  }

  ghost function ReadFrom(files: Directory, key: Key): Option<Speech> {
    if key in files then Decode(files[key].payload) else None
  }

  ghost predicate ReadDisk(w: World, w': World, t: nat) {
    && t in w.requests && w.requests[t].ReadingDisk?
    && var ReadingDisk(key, c) := w.requests[t];
    w' == w.(files := AfterRead(w.files, key), requests := w.requests[t :=
      match ReadFrom(w.files, key)
      case Some(speech) => Completing(key, c, Reply(speech, false))
      case None => Speaking(key, c)])
  }

  /** The provider answers with anything at all. */
  ghost predicate Speak(w: World, w': World, t: nat, reply: Reply) {
    && t in w.requests && w.requests[t].Speaking?
    && var Speaking(key, c) := w.requests[t];
    w' == w.(given := if reply.failed then w.given else w.given + {(key, reply.speech)},
             requests := w.requests[t := if reply.failed then Completing(key, c, reply) else Storing(key, c, reply)])
  }

  ghost predicate Store(w: World, w': World, t: nat, now: int, limit: nat, ok: bool) {
    && t in w.requests && w.requests[t].Storing?
    && var Storing(key, c, reply) := w.requests[t];
    && IsPut(w.files, w'.files, key, reply.speech.mime, reply.speech.audio, now, limit, ok)
    && w' == w.(files := w'.files, requests := w.requests[t := Completing(key, c, reply)])
  }

  ghost predicate Complete(w: World, w': World, t: nat) {
    && t in w.requests && w.requests[t].Completing?
    && var Completing(key, c, reply) := w.requests[t];
    && c in w.shared.records && Completes(w.shared, w'.shared, key, c, reply)
    && w' == w.(shared := w'.shared, requests := w.requests[t := Returned(key, reply, Owned(c))])
  }

  /** A waiter sees the closed channel. */
  ghost predicate Wake(w: World, w': World, t: nat) {
    && t in w.requests && w.requests[t].Waiting?
    && var Waiting(key, c) := w.requests[t];
    && c in w.shared.records && w.shared.records[c].done
    && w' == w.(requests := w.requests[t := Returned(key, w.shared.records[c].reply, Coalesced(c))])
  }

  /** A waiter's context ends first. */
  ghost predicate GiveUp(w: World, w': World, t: nat) {
    && t in w.requests && w.requests[t].Waiting?
    && w' == w.(requests := w.requests[t := GaveUp(w.requests[t].key)])
  }

  ghost predicate StreamStart(w: World, w': World, t: nat, key: Key) {
    && t !in w.requests
    && w' == w.(requests := w.requests[t :=
         if key in w.shared.memory then Returned(key, Reply(w.shared.memory[key], false), FromMemory)
         else StreamReading(key)])
  }

  ghost predicate StreamRead(w: World, w': World, t: nat) {
    && t in w.requests && w.requests[t].StreamReading?
    && var key := w.requests[t].key;
    w' == w.(files := AfterRead(w.files, key), requests := w.requests[t :=
      match ReadFrom(w.files, key)
      case Some(speech) => StreamRemembering(key, speech)
      case None => GaveUp(key)])
  }

  ghost predicate StreamRemember(w: World, w': World, t: nat) {
    && t in w.requests && w.requests[t].StreamRemembering?
    && var StreamRemembering(key, speech) := w.requests[t];
    && Remembers(w.shared.memory, w'.shared.memory, key, speech)
    && w' == w.(shared := w.shared.(memory := w'.shared.memory),
                requests := w.requests[t := Returned(key, Reply(speech, false), FromMemory)])
  }

  /** One atomic step of request t. */
  ghost predicate Step(w: World, w': World, t: nat) {
    || (exists key :: Start(w, w', t, key))
    || ReadDisk(w, w', t)
    || (exists reply :: Speak(w, w', t, reply))
    || (exists now, limit, ok :: Store(w, w', t, now, limit, ok))
    || Complete(w, w', t)
    || Wake(w, w', t)
    || GiveUp(w, w', t)
    || (exists key :: StreamStart(w, w', t, key))
    || StreamRead(w, w', t)
    || StreamRemember(w, w', t)
  }

  /** Any request may take the next step. */
  ghost predicate Next(w: World, w': World) {
    exists t: nat :: Step(w, w', t)
  }

  // ----- What every step keeps -----

  /** The provider gave this recording for this key, the MIME type up to trimming. */
  ghost predicate Genuine(given: set<(Key, Speech)>, key: Key, speech: Speech) {
    exists m :: (key, Speech(speech.audio, m)) in given && (speech.mime == m || speech.mime == TrimSpace(m))
  }

  ghost predicate Faithful(files: Directory, given: set<(Key, Speech)>) {
    forall k :: k in files && Decode(files[k].payload).Some? ==> Genuine(given, k, Decode(files[k].payload).value)
  }

  /** Every call in flight is open and belongs to a live owner. */
  ghost predicate CallInFlight(w: World, key: Key, c: nat) {
    && c in w.shared.records
    && var record := w.shared.records[c];
    && record.key == key && !record.done && record.owner in w.requests
    && Owns(w.requests[record.owner]) && w.requests[record.owner].key == key && w.requests[record.owner].call == c
  }

  ghost predicate RecordOk(w: World, c: nat)
    requires c in w.shared.records
  {
    var record := w.shared.records[c];
    && c < w.shared.next && record.closes == (if record.done then 1 else 0)
    && (!record.done ==> record.key in w.shared.calls && w.shared.calls[record.key] == c)
    && (record.done && !record.reply.failed ==> Genuine(w.given, record.key, record.reply.speech))
  }

  ghost predicate RequestOk(w: World, t: nat)
    requires t in w.requests
  {
    match w.requests[t]
    case ReadingDisk(key, c) => OwnerOk(w, t, key, c)
    case Speaking(key, c) => OwnerOk(w, t, key, c)
    case Storing(key, c, reply) => OwnerOk(w, t, key, c) && !reply.failed && (key, reply.speech) in w.given
    case Completing(key, c, reply) => OwnerOk(w, t, key, c) && (!reply.failed ==> Genuine(w.given, key, reply.speech))
    case Waiting(key, c) => c in w.shared.records && w.shared.records[c].key == key
    case StreamReading(_) => true
    case StreamRemembering(key, speech) => Genuine(w.given, key, speech)
    case Returned(key, reply, source) =>
      && (!reply.failed ==> Genuine(w.given, key, reply.speech))
      && (!source.FromMemory? ==>
            source.call in w.shared.records
            && var record := w.shared.records[source.call]; record.key == key && record.done && record.reply == reply)
    case GaveUp(_) => true
  }

  ghost predicate OwnerOk(w: World, t: nat, key: Key, c: nat) {
    && key in w.shared.calls && w.shared.calls[key] == c
    && c in w.shared.records && w.shared.records[c].owner == t && w.shared.records[c].key == key
  }

  ghost predicate Inv(w: World) {
    && |w.shared.memory| <= MAX_ENTRIES
    && (forall k :: k in w.shared.memory ==> Genuine(w.given, k, w.shared.memory[k]))
    && Faithful(w.files, w.given)
    && (forall k :: k in w.shared.calls ==> CallInFlight(w, k, w.shared.calls[k]))
    && (forall c :: c in w.shared.records ==> RecordOk(w, c))
    && (forall t :: t in w.requests ==> RequestOk(w, t))
  }

  /** A fresh server over a faithful disk. */
  ghost predicate Init(w: World) {
    w.shared == Shared(map[], map[], map[], 0) && w.requests == map[] && Faithful(w.files, w.given)
  }

  lemma GenuineGrows(given: set<(Key, Speech)>, more: set<(Key, Speech)>, key: Key, speech: Speech)
    requires given <= more && Genuine(given, key, speech)
    ensures Genuine(more, key, speech)
  {
    var m :| (key, Speech(speech.audio, m)) in given && (speech.mime == m || speech.mime == TrimSpace(m));
    assert (key, Speech(speech.audio, m)) in more;
  }

  lemma GivenIsGenuine(given: set<(Key, Speech)>, key: Key, speech: Speech)
    requires (key, speech) in given
    ensures Genuine(given, key, speech) && Genuine(given, key, Speech(speech.audio, TrimSpace(speech.mime)))
  {
    assert speech == Speech(speech.audio, speech.mime);
  }

  lemma StartKeeps(w: World, w': World, t: nat, key: Key)
    requires Inv(w) && Start(w, w', t, key)
    ensures Inv(w')
  {
    hide Genuine, Faithful, RequestOk, RecordOk, CallInFlight, Starting;
    forall u | u in w'.requests ensures RequestOk(w', u) {
      StartKeepsRequest(w, w', t, key, u);
    }
    forall c | c in w'.shared.records ensures RecordOk(w', c) {
      StartKeepsRecord(w, w', t, key, c);
    }
    forall k | k in w'.shared.calls ensures CallInFlight(w', k, w'.shared.calls[k]) {
      StartKeepsCall(w, w', t, key, k);
    }
  }

  lemma StartKeepsRequest(w: World, w': World, t: nat, key: Key, u: nat)
    requires Inv(w) && Start(w, w', t, key) && u in w'.requests
    ensures RequestOk(w', u)
  {
    if u in w.requests {
      hide Genuine, Faithful, Starting, CallInFlight;
      StartKeepsOld(w, w', t, key, u);
    } else {
      hide Genuine, Faithful;
      if key in w.shared.calls {
        assert CallInFlight(w, key, w.shared.calls[key]);
      }
    }
  }

  lemma StartKeepsOld(w: World, w': World, t: nat, key: Key, u: nat)
    requires Inv(w) && Start(w, w', t, key) && u in w.requests
    ensures u in w'.requests && RequestOk(w', u)
  {
    hide Genuine, Faithful, Starting, CallInFlight;
    assert RequestOk(w, u);
    assert w.shared.next in w.shared.records ==> RecordOk(w, w.shared.next);
  }

  lemma StartKeepsRecord(w: World, w': World, t: nat, key: Key, c: nat)
    requires Inv(w) && Start(w, w', t, key) && c in w'.shared.records
    ensures RecordOk(w', c)
  {
    hide Genuine, Faithful, RequestOk, CallInFlight, Starting;
    if c in w.shared.records {
      assert RecordOk(w, c);
    }
  }

  lemma StartKeepsCall(w: World, w': World, t: nat, key: Key, k: Key)
    requires Inv(w) && Start(w, w', t, key) && k in w'.shared.calls
    ensures CallInFlight(w', k, w'.shared.calls[k])
  {
    hide Genuine, Faithful;
    if k in w.shared.calls {
      assert CallInFlight(w, k, w.shared.calls[k]);
      assert RecordOk(w, w.shared.calls[k]);
    }
  }

  /** A step that only moves one request on, from one owning place to another or between places that own nothing. */
  lemma MoveKeeps(w: World, w': World, t: nat)
    requires Inv(w) && t in w.requests && t in w'.requests && w'.requests == w.requests[t := w'.requests[t]]
    requires w'.shared == w.shared.(memory := w'.shared.memory) && w.given <= w'.given && Faithful(w'.files, w'.given)
    requires |w'.shared.memory| <= MAX_ENTRIES
    requires forall k :: k in w'.shared.memory ==> Genuine(w'.given, k, w'.shared.memory[k])
    requires Owns(w.requests[t]) <==> Owns(w'.requests[t])
    requires Owns(w.requests[t]) ==>
            w'.requests[t].key == w.requests[t].key && w'.requests[t].call == w.requests[t].call
    requires RequestOk(w', t)
    ensures Inv(w')
  {
    hide Genuine, Decode, Faithful;
    forall k, s | Genuine(w.given, k, s) ensures Genuine(w'.given, k, s) {
      GenuineGrows(w.given, w'.given, k, s);
    }
    forall u | u in w'.requests ensures RequestOk(w', u) {
      assert RequestOk(w, u);
    }
    forall c | c in w'.shared.records ensures RecordOk(w', c) {
      assert RecordOk(w, c);
    }
    forall k | k in w'.shared.calls ensures CallInFlight(w', k, w'.shared.calls[k]) {
      assert CallInFlight(w, k, w.shared.calls[k]);
    }
  }

  lemma AfterReadFaithful(files: Directory, given: set<(Key, Speech)>, key: Key)
    requires Faithful(files, given)
    ensures Faithful(AfterRead(files, key), given)
    ensures ReadFrom(files, key).Some? ==> Genuine(given, key, ReadFrom(files, key).value)
  {
    hide Genuine, Decode;
  }

  lemma ReadDiskKeeps(w: World, w': World, t: nat)
    requires Inv(w) && ReadDisk(w, w', t)
    ensures Inv(w')
  {
    assert RequestOk(w, t);
    AfterReadFaithful(w.files, w.given, w.requests[t].key);
    hide Genuine, Decode, Faithful, AfterRead, ReadFrom;
    assert RequestOk(w', t);
    MoveKeeps(w, w', t);
  }

  lemma FaithfulGrows(files: Directory, given: set<(Key, Speech)>, more: set<(Key, Speech)>)
    requires Faithful(files, given) && given <= more
    ensures Faithful(files, more)
  {
    forall k | k in files && Decode(files[k].payload).Some? ensures Genuine(more, k, Decode(files[k].payload).value) {
      GenuineGrows(given, more, k, Decode(files[k].payload).value);
    }
  }

  lemma SpeakKeeps(w: World, w': World, t: nat, reply: Reply)
    requires Inv(w) && Speak(w, w', t, reply)
    ensures Inv(w')
  {
    assert RequestOk(w, t);
    FaithfulGrows(w.files, w.given, w'.given);
    forall k | k in w.shared.memory ensures Genuine(w'.given, k, w.shared.memory[k]) {
      GenuineGrows(w.given, w'.given, k, w.shared.memory[k]);
    }
    hide Genuine, Decode, Faithful;
    assert RequestOk(w', t);
    MoveKeeps(w, w', t);
  }

  lemma PutIsFaithful(files: Directory, files': Directory, given: set<(Key, Speech)>, key: Key, speech: Speech,
                      now: int, limit: nat, ok: bool)
    requires Faithful(files, given) && (key, speech) in given
    requires IsPut(files, files', key, speech.mime, speech.audio, now, limit, ok)
    ensures Faithful(files', given)
  {
    GivenIsGenuine(given, key, speech);
    EncodeRoundTrip(speech.mime, speech.audio);
    hide Genuine, Decode, Encode, TrimSpace, IsPruning;
  }

  lemma StoreKeeps(w: World, w': World, t: nat, now: int, limit: nat, ok: bool)
    requires Inv(w) && Store(w, w', t, now, limit, ok)
    ensures Inv(w')
  {
    assert RequestOk(w, t);
    var Storing(key, c, reply) := w.requests[t];
    PutIsFaithful(w.files, w'.files, w.given, key, reply.speech, now, limit, ok);
    GivenIsGenuine(w.given, key, reply.speech);
    hide Genuine, Decode, Faithful, IsPut;
    assert RequestOk(w', t);
    MoveKeeps(w, w', t);
  }

  lemma RemembersKeeps(before: map<Key, Speech>, after: map<Key, Speech>, key: Key, speech: Speech,
                       given: set<(Key, Speech)>)
    requires Remembers(before, after, key, speech) && |before| <= MAX_ENTRIES && Genuine(given, key, speech)
    requires forall k :: k in before ==> Genuine(given, k, before[k])
    ensures |after| <= MAX_ENTRIES && forall k :: k in after ==> Genuine(given, k, after[k])
  {
    hide Genuine;
    if |before| >= MAX_ENTRIES {
      var victim :| victim in before && after == (before - {victim})[key := speech];
      assert (before - {victim}).Keys == before.Keys - {victim};
      assert |before.Keys - {victim}| == |before| - 1;
      assert after.Keys == (before.Keys - {victim}) + {key};
    } else {
      assert after.Keys == before.Keys + {key};
    }
  }

  lemma CompleteKeeps(w: World, w': World, t: nat)
    requires Inv(w) && Complete(w, w', t)
    ensures Inv(w')
  {
    var Completing(key, c, reply) := w.requests[t];
    assert RequestOk(w, t);
    if !reply.failed {
      RemembersKeeps(w.shared.memory, w'.shared.memory, key, reply.speech, w.given);
    }
    hide Genuine, Decode, Faithful, Remembers, RequestOk, RecordOk, CallInFlight, Complete;
    forall u | u in w'.requests ensures RequestOk(w', u) {
      CompleteKeepsRequest(w, w', t, u);
    }
    forall d | d in w'.shared.records ensures RecordOk(w', d) {
      CompleteKeepsRecord(w, w', t, d);
    }
    forall k | k in w'.shared.calls ensures CallInFlight(w', k, w'.shared.calls[k]) {
      CompleteKeepsCall(w, w', t, k);
    }
  }

  lemma CompleteKeepsRequest(w: World, w': World, t: nat, u: nat)
    requires Inv(w) && Complete(w, w', t) && u in w'.requests
    ensures RequestOk(w', u)
  {
    hide Genuine, Faithful, Remembers;
    var c := w.requests[t].call;
    assert RequestOk(w, t) && RequestOk(w, u) && RecordOk(w, c);
    if u != t {
      assert w'.requests[u] == w.requests[u];
    }
  }

  lemma CompleteKeepsRecord(w: World, w': World, t: nat, d: nat)
    requires Inv(w) && Complete(w, w', t) && d in w'.shared.records
    ensures RecordOk(w', d)
  {
    hide Genuine, Faithful, Remembers;
    var c := w.requests[t].call;
    assert RequestOk(w, t) && RecordOk(w, c) && RecordOk(w, d);
    assert CallInFlight(w, w.requests[t].key, c);
  }

  lemma CompleteKeepsCall(w: World, w': World, t: nat, k: Key)
    requires Inv(w) && Complete(w, w', t) && k in w'.shared.calls
    ensures CallInFlight(w', k, w'.shared.calls[k])
  {
    hide Genuine, Faithful, Remembers;
    assert RequestOk(w, t);
    assert k != w.requests[t].key;
    assert CallInFlight(w, k, w.shared.calls[k]);
    assert CallInFlight(w, w.requests[t].key, w.requests[t].call);
  }

  lemma WaiterKeeps(w: World, w': World, t: nat)
    requires Inv(w) && (Wake(w, w', t) || GiveUp(w, w', t))
    ensures Inv(w')
  {
    hide Genuine, Decode, Faithful;
    assert RequestOk(w, t);
    assert w.requests[t].call in w.shared.records && RecordOk(w, w.requests[t].call);
    assert RequestOk(w', t);
    MoveKeeps(w, w', t);
  }

  lemma StreamStartKeeps(w: World, w': World, t: nat, key: Key)
    requires Inv(w) && StreamStart(w, w', t, key)
    ensures Inv(w')
  {
    hide Genuine, Decode, Faithful;
    forall u | u in w'.requests ensures RequestOk(w', u) {
      if u in w.requests {
        assert RequestOk(w, u);
      }
    }
    forall c | c in w'.shared.records ensures RecordOk(w', c) {
      assert RecordOk(w, c);
    }
    forall k | k in w'.shared.calls ensures CallInFlight(w', k, w'.shared.calls[k]) {
      assert CallInFlight(w, k, w.shared.calls[k]);
    }
  }

  lemma StreamReadKeeps(w: World, w': World, t: nat)
    requires Inv(w) && StreamRead(w, w', t)
    ensures Inv(w')
  {
    AfterReadFaithful(w.files, w.given, w.requests[t].key);
    hide Genuine, Decode, Faithful, AfterRead, ReadFrom;
    assert RequestOk(w', t);
    MoveKeeps(w, w', t);
  }

  lemma StreamRememberKeeps(w: World, w': World, t: nat)
    requires Inv(w) && StreamRemember(w, w', t)
    ensures Inv(w')
  {
    assert RequestOk(w, t);
    var StreamRemembering(key, speech) := w.requests[t];
    RemembersKeeps(w.shared.memory, w'.shared.memory, key, speech, w.given);
    hide Genuine, Decode, Faithful, Remembers;
    assert RequestOk(w', t);
    MoveKeeps(w, w', t);
  }

  lemma StepKeeps(w: World, w': World)
    requires Inv(w) && Next(w, w')
    ensures Inv(w')
  {
    hide Inv, Start, ReadDisk, Speak, Store, Complete, Wake, GiveUp, StreamStart, StreamRead, StreamRemember;
    var t: nat :| Step(w, w', t);
    if key :| Start(w, w', t, key) {
      StartKeeps(w, w', t, key);
    } else if ReadDisk(w, w', t) {
      ReadDiskKeeps(w, w', t);
    } else if reply :| Speak(w, w', t, reply) {
      SpeakKeeps(w, w', t, reply);
    } else if now, limit, ok :| Store(w, w', t, now, limit, ok) {
      StoreKeeps(w, w', t, now, limit, ok);
    } else if Complete(w, w', t) {
      CompleteKeeps(w, w', t);
    } else if Wake(w, w', t) || GiveUp(w, w', t) {
      WaiterKeeps(w, w', t);
    } else if key :| StreamStart(w, w', t, key) {
      StreamStartKeeps(w, w', t, key);
    } else if StreamRead(w, w', t) {
      StreamReadKeeps(w, w', t);
    } else {
      StreamRememberKeeps(w, w', t);
    }
  }

  // ----- Whole runs -----

  ghost predicate IsRun(run: seq<World>) {
    && run != [] && Init(run[0])
    && forall i :: 0 <= i < |run| - 1 ==> Next(run[i], run[i + 1])
  }

  lemma {:induction false} RunsKeepInv(run: seq<World>, i: nat)
    requires IsRun(run) && i < |run|
    ensures Inv(run[i])
    decreases i
  {
    hide Inv, Next;
    if i == 0 {
      InitIsFine(run[0]);
    } else {
      RunsKeepInv(run, i - 1);
      assert Next(run[i - 1], run[i - 1 + 1]);
      StepKeeps(run[i - 1], run[i]);
    }
  }

  lemma InitIsFine(w: World)
    requires Init(w)
    ensures Inv(w)
  {
  }

  /** At most one request per key owns a call at any moment; in particular at most one is asking the provider. */
  lemma AtMostOneOwner(run: seq<World>, i: nat, t: nat, u: nat)
    requires IsRun(run) && i < |run|
    requires var r := run[i].requests;
             t in r && u in r && Owns(r[t]) && Owns(r[u]) && r[t].key == r[u].key
    ensures t == u
  {
    RunsKeepInv(run, i);
    assert RequestOk(run[i], t) && RequestOk(run[i], u);
    hide Genuine, IsRun, Faithful;
  }

  /** No waiter is left behind: its call is closed, or a live owner is still going to close it. */
  lemma WaitersHaveOwners(run: seq<World>, i: nat, t: nat)
    requires IsRun(run) && i < |run|
    requires t in run[i].requests && run[i].requests[t].Waiting?
    ensures var w, c := run[i], run[i].requests[t].call;
            && c in w.shared.records
            && (w.shared.records[c].done ||
                (w.shared.records[c].owner in w.requests && Owns(w.requests[w.shared.records[c].owner])
                 && w.requests[w.shared.records[c].owner].call == c))
  {
    RunsKeepInv(run, i);
    var w, c := run[i], run[i].requests[t].call;
    assert RequestOk(w, t) && RecordOk(w, c);
    if !w.shared.records[c].done {
      assert CallInFlight(w, w.shared.records[c].key, c);
    }
    hide Genuine, IsRun, Faithful;
  }

  /** A coalesced waiter and the owner of the call it joined return the very same result. */
  lemma WaiterGetsOwnersResult(run: seq<World>, i: nat, t: nat, u: nat)
    requires IsRun(run) && i < |run|
    requires var r := run[i].requests;
             && t in r && r[t].Returned? && r[t].source.Coalesced?
             && u in r && r[u].Returned? && r[u].source == Owned(r[t].source.call)
    ensures run[i].requests[t].reply == run[i].requests[u].reply && run[i].requests[t].key == run[i].requests[u].key
  {
    RunsKeepInv(run, i);
    assert RequestOk(run[i], t) && RequestOk(run[i], u);
    hide Genuine, IsRun, Faithful;
  }

  /** Every success is a recording the provider gave for that very key, and the memory cache stays within its bound. */
  lemma SuccessesAreGenuine(run: seq<World>, i: nat, t: nat)
    requires IsRun(run) && i < |run|
    ensures |run[i].shared.memory| <= MAX_ENTRIES
    ensures var r := run[i].requests;
            t in r && r[t].Returned? && !r[t].reply.failed ==> Genuine(run[i].given, r[t].key, r[t].reply.speech)
  {
    RunsKeepInv(run, i);
    assert t in run[i].requests ==> RequestOk(run[i], t);
    hide Genuine, IsRun, Faithful;
  }

  /** A channel that has been closed is never closed again, and its result never changes. */
  lemma {:induction false} ClosedOnce(run: seq<World>, i: nat, j: nat, c: nat)
    requires IsRun(run) && i <= j < |run|
    requires c in run[i].shared.records
    ensures c in run[j].shared.records && run[j].shared.records[c].closes <= 1
    ensures run[i].shared.records[c].done ==> run[j].shared.records[c] == run[i].shared.records[c]
    decreases j
  {
    hide IsRun, Inv, Next;
    RunsKeepInv(run, j);
    if j > i {
      ClosedOnce(run, i, j - 1, c);
      RunsKeepInv(run, j - 1);
      RunSteps(run, j - 1);
      StepKeepsRecord(run[j - 1], run[j], c);
    }
    ClosesAtMostOnce(run[j], c);
  }

  /** A channel is open exactly while its owner is still at it: one that has finished has closed its channel, once. */
  lemma FinishedOwnersHaveClosed(run: seq<World>, i: nat, c: nat)
    requires IsRun(run) && i < |run| && c in run[i].shared.records
    ensures var w, owner := run[i], run[i].shared.records[c].owner;
            var atIt := owner in w.requests && Owns(w.requests[owner]) && w.requests[owner].call == c;
            w.shared.records[c].closes == if atIt then 0 else 1
  {
    hide Genuine, IsRun, Faithful;
    RunsKeepInv(run, i);
    var w, record := run[i], run[i].shared.records[c];
    assert RecordOk(w, c);
    if record.owner in w.requests {
      assert RequestOk(w, record.owner);
      if Owns(w.requests[record.owner]) {
        assert CallInFlight(w, w.requests[record.owner].key, w.requests[record.owner].call);
      }
    }
    if !record.done {
      assert CallInFlight(w, record.key, c);
    }
  }

  lemma RunSteps(run: seq<World>, i: nat)
    requires IsRun(run) && i + 1 < |run|
    ensures Next(run[i], run[i + 1])
  {
  }

  lemma ClosesAtMostOnce(w: World, c: nat)
    requires Inv(w) && c in w.shared.records
    ensures w.shared.records[c].closes <= 1
  {
    assert RecordOk(w, c);
  }

  lemma StepKeepsRecord(w: World, w': World, c: nat)
    requires Inv(w) && Next(w, w') && c in w.shared.records
    ensures c in w'.shared.records
    ensures w.shared.records[c].done ==> w'.shared.records[c] == w.shared.records[c]
  {
    hide Inv, Start, ReadDisk, Speak, Store, Complete, Wake, GiveUp, StreamStart, StreamRead, StreamRemember;
    var t: nat :| Step(w, w', t);
    if key :| Start(w, w', t, key) {
      StartKeepsClosed(w, w', t, key, c);
    } else if Complete(w, w', t) {
      CompleteKeepsClosed(w, w', t, c);
    } else {
      OthersKeepRecords(w, w', t);
    }
  }

  lemma StartKeepsClosed(w: World, w': World, t: nat, key: Key, c: nat)
    requires Inv(w) && Start(w, w', t, key) && c in w.shared.records
    ensures c in w'.shared.records && w'.shared.records[c] == w.shared.records[c]
  {
    assert RecordOk(w, c);
    hide Genuine, Faithful, RequestOk, CallInFlight;
  }

  lemma CompleteKeepsClosed(w: World, w': World, t: nat, c: nat)
    requires Inv(w) && Complete(w, w', t) && c in w.shared.records
    ensures c in w'.shared.records && (w.shared.records[c].done ==> w'.shared.records[c] == w.shared.records[c])
  {
    assert RequestOk(w, t);
    assert CallInFlight(w, w.requests[t].key, w.requests[t].call);
    hide Genuine, Faithful, RecordOk;
  }

  lemma OthersKeepRecords(w: World, w': World, t: nat)
    requires Step(w, w', t) && !Complete(w, w', t) && forall key :: !Start(w, w', t, key)
    ensures w'.shared.records == w.shared.records
  {
    hide Complete, Start, Remembers, IsPut, Decode;
  }

  // ----- What the caches are for -----

  /** A success is remembered; nothing else changes in memory but for one entry that goes when 128 were held. */
  lemma CompletionRemembers(before: Shared, after: Shared, key: Key, call: nat, reply: Reply)
    requires call in before.records && Completes(before, after, key, call, reply) && !reply.failed
    ensures key in after.memory && after.memory[key] == reply.speech
    ensures forall k :: k in after.memory && k != key ==> k in before.memory && after.memory[k] == before.memory[k]
    ensures |before.memory| < 128 ==> after.memory.Keys == before.memory.Keys + {key}
    ensures |before.memory| >= 128 ==>
              exists victim :: victim in before.memory && after.memory.Keys == before.memory.Keys - {victim} + {key}
  {
    if |before.memory| >= 128 {
      var victim :| victim in before.memory && after.memory == (before.memory - {victim})[key := reply.speech];
      assert after.memory.Keys == before.memory.Keys - {victim} + {key};
    }
  }

  /** The step that makes or changes a request is that request's own. */
  lemma StepOf(w: World, w': World, t: nat)
    requires Next(w, w') && t in w'.requests && (t !in w.requests || w'.requests[t] != w.requests[t])
    ensures Step(w, w', t)
  {
    var u: nat :| Step(w, w', u);
    OnlyOneMoves(w, w', u);
    hide Step;
  }

  lemma OnlyOneMoves(w: World, w': World, u: nat)
    requires Step(w, w', u)
    ensures u in w'.requests && w'.requests == w.requests[u := w'.requests[u]]
  {
    hide LooksUp, Starting, AfterRead, ReadFrom, IsPut, Completes, Remembers;
  }

  /** The two kinds of request there are. */
  lemma NewRequest(w: World, w': World, t: nat)
    requires Next(w, w') && t in w'.requests && t !in w.requests
    ensures Start(w, w', t, w'.requests[t].key) || StreamStart(w, w', t, w'.requests[t].key)
  {
    hide LooksUp, AfterRead, ReadFrom, IsPut, Completes, Remembers;
    StepOf(w, w', t);
    if key :| Start(w, w', t, key) {
      StartingKey(w, w', t, key);
    }
  }

  lemma StartingKey(w: World, w': World, t: nat, key: Key)
    requires Start(w, w', t, key)
    ensures w'.requests[t].key == key
  {
  }

  /** Who is at work on a key. */
  ghost predicate IsOwned(w: World, key: Key) {
    exists u :: u in w.requests && Owns(w.requests[u]) && w.requests[u].key == key
  }

  /**
   * How a new request fares, without a look at the calls in flight: what is in memory is returned at once; else a
   * request for synthesis waits for whoever is at work on its key, and only when nobody is goes to work itself.
   */
  lemma NewRequestFares(run: seq<World>, i: nat, t: nat)
    requires IsRun(run) && i + 1 < |run| && t in run[i + 1].requests && t !in run[i].requests
    ensures var w, r := run[i], run[i + 1].requests[t];
            if r.key in w.shared.memory then r == Returned(r.key, Reply(w.shared.memory[r.key], false), FromMemory)
            else if r.StreamReading? then true
            else if IsOwned(w, r.key) then
              r.Waiting? && exists u :: u in w.requests && Owns(w.requests[u]) && w.requests[u].key == r.key
                                        && w.requests[u].call == r.call
            else r.ReadingDisk?
  {
    hide IsRun, Next, Inv;
    var w, w' := run[i], run[i + 1];
    var r := w'.requests[t];
    RunsKeepInv(run, i);
    RunSteps(run, i);
    NewRequest(w, w', t);
    if Start(w, w', t, r.key) {
      StartFares(w, w', t, r.key);
    } else {
      StreamFares(w, w', t, r.key);
    }
  }

  lemma StreamFares(w: World, w': World, t: nat, key: Key)
    requires StreamStart(w, w', t, key)
    ensures var r := w'.requests[t];
            if key in w.shared.memory then r == Returned(key, Reply(w.shared.memory[key], false), FromMemory)
            else r == StreamReading(key)
  {
  }

  lemma StartFares(w: World, w': World, t: nat, key: Key)
    requires Inv(w) && Start(w, w', t, key)
    ensures var r := w'.requests[t];
            && r.key == key && !r.StreamReading?
            && if key in w.shared.memory then r == Returned(key, Reply(w.shared.memory[key], false), FromMemory)
               else if IsOwned(w, key) then
                 r.Waiting? && exists u :: u in w.requests && Owns(w.requests[u]) && w.requests[u].key == key
                                           && w.requests[u].call == r.call
               else r.ReadingDisk?
  {
    hide Genuine, Faithful, RecordOk;
    if key in w.shared.calls {
      assert CallInFlight(w, key, w.shared.calls[key]);
      assert IsOwned(w, key);
    }
    forall u | u in w.requests && Owns(w.requests[u]) && w.requests[u].key == key ensures key in w.shared.calls {
      assert RequestOk(w, u);
    }
  }

  /** Request t remembers a recording on this step: a synthesis that succeeded, or a recording read for a stream. */
  ghost predicate Inserts(w: World, w': World, t: nat) {
    && t in w.requests && t in w'.requests && w'.requests[t].Returned?
    && (w.requests[t].StreamRemembering? || (w.requests[t].Completing? && !w.requests[t].reply.failed))
  }

  /** An entry is lost only to an insertion while 128 are held, and changed only by an insertion for its key. */
  lemma EntryStays(w: World, w': World, key: Key)
    requires Next(w, w') && key in w.shared.memory
    ensures || (key in w'.shared.memory && w'.shared.memory[key] == w.shared.memory[key])
            || exists t :: Inserts(w, w', t) && (w.requests[t].key == key || |w.shared.memory| >= 128)
  {
    var t: nat :| Step(w, w', t);
    if Complete(w, w', t) {
      CompleteEntry(w, w', t, key);
    } else if StreamRemember(w, w', t) {
      StreamEntry(w, w', t, key);
    } else {
      OthersKeepMemory(w, w', t);
    }
    hide Step, Complete, StreamRemember;
  }

  lemma OthersKeepMemory(w: World, w': World, t: nat)
    requires Step(w, w', t) && !Complete(w, w', t) && !StreamRemember(w, w', t)
    ensures w'.shared.memory == w.shared.memory
  {
    hide Complete, StreamRemember, Starting, AfterRead, ReadFrom, IsPut;
  }

  lemma CompleteEntry(w: World, w': World, t: nat, key: Key)
    requires Complete(w, w', t) && key in w.shared.memory
    ensures || (key in w'.shared.memory && w'.shared.memory[key] == w.shared.memory[key])
            || (Inserts(w, w', t) && (w.requests[t].key == key || |w.shared.memory| >= 128))
  {
  }

  lemma StreamEntry(w: World, w': World, t: nat, key: Key)
    requires StreamRemember(w, w', t) && key in w.shared.memory
    ensures || (key in w'.shared.memory && w'.shared.memory[key] == w.shared.memory[key])
            || (Inserts(w, w', t) && (w.requests[t].key == key || |w.shared.memory| >= 128))
  {
  }

  /** Between two moments nothing is inserted for the key, nor anything while 128 entries are held. */
  ghost predicate Undisturbed(run: seq<World>, key: Key, i: nat, j: nat)
    requires i <= j < |run|
  {
    forall m, t :: i <= m < j && Inserts(run[m], run[m + 1], t) ==>
      run[m].requests[t].key != key && |run[m].shared.memory| < 128
  }

  lemma {:induction false} EntryLasts(run: seq<World>, key: Key, i: nat, j: nat)
    requires IsRun(run) && i <= j < |run| && key in run[i].shared.memory && Undisturbed(run, key, i, j)
    ensures key in run[j].shared.memory && run[j].shared.memory[key] == run[i].shared.memory[key]
    decreases j
  {
    hide IsRun, Next, Inserts;
    if i < j {
      EntryLasts(run, key, i, j - 1);
      RunSteps(run, j - 1);
      EntryStays(run[j - 1], run[j - 1 + 1], key);
    }
  }

  /**
   * After an owner has returned a success, every new request for its key is answered from memory with that recording,
   * until the entry is replaced or evicted.
   */
  lemma SuccessIsServed(run: seq<World>, i: nat, t: nat, j: nat, u: nat)
    requires IsRun(run) && i < j && j + 1 < |run|
    requires t in run[i].requests && run[i].requests[t].Completing? && !run[i].requests[t].reply.failed
    requires t in run[i + 1].requests && run[i + 1].requests[t].Returned?
    requires u in run[j + 1].requests && u !in run[j].requests && run[j + 1].requests[u].key == run[i].requests[t].key
    requires Undisturbed(run, run[i].requests[t].key, i + 1, j)
    ensures var Completing(key, c, reply) := run[i].requests[t];
            run[j + 1].requests[u] == Returned(key, Reply(reply.speech, false), FromMemory)
  {
    hide IsRun, Undisturbed;
    RunSteps(run, i);
    var key := run[i].requests[t].key;
    hide Next;
    OwnerCompletes(run[i], run[i + 1], t);
    EntryLasts(run, key, i + 1, j);
    NewRequestFares(run, j, u);
  }

  /** An owner that has its result returns it, and a success is in memory from then on. */
  lemma OwnerCompletes(w: World, w': World, t: nat)
    requires Next(w, w') && t in w.requests && w.requests[t].Completing? && t in w'.requests
    requires w'.requests[t] != w.requests[t]
    ensures var Completing(key, c, reply) := w.requests[t];
            && w'.requests[t] == Returned(key, reply, Owned(c))
            && (!reply.failed ==> key in w'.shared.memory && w'.shared.memory[key] == reply.speech)
  {
    hide LooksUp, AfterRead, ReadFrom, IsPut, Remembers, Next;
    StepOf(w, w', t);
    assert Complete(w, w', t);
    var Completing(key, c, reply) := w.requests[t];
    if !reply.failed {
      CompletionRemembers(w.shared, w'.shared, key, c, reply);
    }
  }

  /** A recording on disk is used, and the provider is not asked; a broken file is removed and does not count. */
  lemma DiskIsRead(w: World, w': World, t: nat)
    requires Next(w, w') && t in w.requests && w.requests[t].ReadingDisk? && t in w'.requests
    requires w'.requests[t] != w.requests[t]
    ensures var ReadingDisk(key, c) := w.requests[t];
            && w'.given == w.given && w'.shared == w.shared
            && if key in w.files && Decode(w.files[key].payload).Some?
               then
                 var speech := Decode(w.files[key].payload).value;
                 w'.requests[t] == Completing(key, c, Reply(speech, false)) && w'.files == w.files
               else w'.requests[t] == Speaking(key, c) && w'.files == w.files - {key}
  {
    hide LooksUp, IsPut, Completes, Remembers, Decode;
    StepOf(w, w', t);
    assert ReadDisk(w, w', t);
  }

  /** Whatever the provider answers goes on: a recording to the disk, an error straight to the waiters. */
  lemma ProviderIsHeard(w: World, w': World, t: nat)
    requires Next(w, w') && t in w.requests && w.requests[t].Speaking? && t in w'.requests
    requires w'.requests[t] != w.requests[t]
    ensures var Speaking(key, c) := w.requests[t];
            && w'.shared == w.shared && w'.files == w.files
            && (w'.requests[t].Storing? || w'.requests[t].Completing?)
            && var reply := w'.requests[t].reply;
               if reply.failed then w'.requests[t] == Completing(key, c, reply) && w'.given == w.given
               else w'.requests[t] == Storing(key, c, reply) && w'.given == w.given + {(key, reply.speech)}
  {
    hide LooksUp, AfterRead, ReadFrom, IsPut, Completes, Remembers;
    StepOf(w, w', t);
    var reply :| Speak(w, w', t, reply);
  }

  /** A stream is served from the disk when the recording is there, and gives up when it is not. */
  lemma StreamIsRead(w: World, w': World, t: nat)
    requires Next(w, w') && t in w.requests && w.requests[t].StreamReading? && t in w'.requests
    requires w'.requests[t] != w.requests[t]
    ensures var key := w.requests[t].key;
            && w'.given == w.given && w'.shared == w.shared
            && if key in w.files && Decode(w.files[key].payload).Some?
               then
                 var speech := Decode(w.files[key].payload).value;
                 w'.requests[t] == StreamRemembering(key, speech) && w'.files == w.files
               else w'.requests[t] == GaveUp(key) && w'.files == w.files - {key}
  {
    hide LooksUp, IsPut, Completes, Remembers, Decode;
    StepOf(w, w', t);
    assert StreamRead(w, w', t);
  }

  /** What a stream was served is in memory from then on. */
  lemma StreamIsRemembered(w: World, w': World, t: nat)
    requires Next(w, w') && t in w.requests && w.requests[t].StreamRemembering? && t in w'.requests
    requires w'.requests[t] != w.requests[t]
    ensures var StreamRemembering(key, speech) := w.requests[t];
            && w'.requests[t] == Returned(key, Reply(speech, false), FromMemory) && w'.files == w.files
            && key in w'.shared.memory && w'.shared.memory[key] == speech
  {
    hide LooksUp, AfterRead, ReadFrom, IsPut, Completes;
    StepOf(w, w', t);
    assert StreamRemember(w, w', t);
  }

  /** What the provider gave is on disk for next time, if it can be stored. */
  lemma GivenIsStored(w: World, w': World, t: nat)
    requires Next(w, w') && t in w.requests && w.requests[t].Storing? && t in w'.requests
    requires w'.requests[t] != w.requests[t]
    ensures var Storing(key, c, reply) := w.requests[t];
            && w'.requests[t] == Completing(key, c, reply)
            && (Storable(TrimSpace(reply.speech.mime), reply.speech.audio) ==>
                  key in w'.files
                  && Decode(w'.files[key].payload) == Some(Speech(reply.speech.audio, TrimSpace(reply.speech.mime))))
  {
    hide LooksUp, AfterRead, ReadFrom, Completes, Remembers, IsPut, Decode, Storable, TrimSpace;
    StepOf(w, w', t);
    var now, limit, ok :| Store(w, w', t, now, limit, ok);
    var Storing(key, c, reply) := w.requests[t];
    if Storable(TrimSpace(reply.speech.mime), reply.speech.audio) {
      StorableIsPut(w.files, w'.files, key, reply.speech, now, limit, ok);
    }
  }

  lemma StorableIsPut(before: Directory, after: Directory, key: Key, speech: Speech, now: int, limit: nat, ok: bool)
    requires IsPut(before, after, key, speech.mime, speech.audio, now, limit, ok)
    requires Storable(TrimSpace(speech.mime), speech.audio)
    ensures key in after && Decode(after[key].payload) == Some(Speech(speech.audio, TrimSpace(speech.mime)))
  {
    hide Decode, TrimSpace, IsPruning;
    assert speech.audio != [];
    EncodeRoundTrip(speech.mime, speech.audio);
  }
}
