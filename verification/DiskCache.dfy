/** The on-disk speech cache of internal/server/speech_cache.go: payload format, lookup, insertion and pruning. */
module DiskCache {
  import opened Arithmetic
  import opened Bytes
  import opened Wrappers

  /** "PUPBOX-TTS-V1\n" */
  const MAGIC: seq<byte> := [80, 85, 80, 66, 79, 88, 45, 84, 84, 83, 45, 86, 49, 10]
  const MAX_AUDIO: nat := 12582912

  datatype Speech = Speech(audio: seq<byte>, mime: seq<byte>)

  // ----- Payloads -----

  predicate Storable(mime: seq<byte>, audio: seq<byte>) {
    1 <= |mime| <= 255 && 1 <= |audio| <= MAX_AUDIO
  }

  /** Magic, big-endian length of the MIME type, MIME type, audio. */
  function Layout(mime: seq<byte>, audio: seq<byte>): seq<byte>
    requires |mime| <= 255
  {
    MAGIC + [0, |mime|] + mime + audio
  }

  function Encode(mime: seq<byte>, audio: seq<byte>): Option<seq<byte>> {
    var m := TrimSpace(mime);
    if Storable(m, audio) then Some(Layout(m, audio)) else None
  }

  function Decode(payload: seq<byte>): Option<Speech> {
    var offset := |MAGIC|;
    if |payload| < offset + 2 || payload[..offset] != MAGIC then None
    else
      var mimeLength := 256 * payload[offset] as int + payload[offset + 1] as int;
      if mimeLength == 0 || mimeLength > 255 || |payload| <= offset + 2 + mimeLength then None
      else
        var mime := payload[offset + 2..offset + 2 + mimeLength];
        var audio := payload[offset + 2 + mimeLength..];
        if |audio| > MAX_AUDIO then None else Some(Speech(audio, mime))
  }

  /** The reader accepts exactly the payloads of the format, and each for exactly one recording. */
  lemma DecodeIsExact(payload: seq<byte>, speech: Speech)
    ensures Decode(payload) == Some(speech)
            <==> Storable(speech.mime, speech.audio) && payload == Layout(speech.mime, speech.audio)
  {
    var offset := |MAGIC|;
    if Decode(payload) == Some(speech) {
      var n := |speech.mime|;
      assert payload[offset] == 0 && payload[offset + 1] == n;
      assert payload == payload[..offset] + [payload[offset], payload[offset + 1]]
                        + payload[offset + 2..offset + 2 + n] + payload[offset + 2 + n..];
    }
    if Storable(speech.mime, speech.audio) && payload == Layout(speech.mime, speech.audio) {
      var n := |speech.mime|;
      assert payload[..offset] == MAGIC;
      assert payload[offset] == 0 && payload[offset + 1] == n;
      assert payload[offset + 2..offset + 2 + n] == speech.mime;
      assert payload[offset + 2 + n..] == speech.audio;
    }
  }

  lemma LayoutFields(mime: seq<byte>, audio: seq<byte>)
    requires |mime| <= 255
    ensures var p := Layout(mime, audio);
            && |p| == 16 + |mime| + |audio| && p[..14] == Ascii("PUPBOX-TTS-V1\n")
            && 256 * (p[14] as int) + p[15] as int == |mime|
            && p[16..16 + |mime|] == mime && p[16 + |mime|..] == audio
  {
    assert MAGIC == Ascii("PUPBOX-TTS-V1\n");
    hide Ascii;
  }

  /** What is stored comes back, the MIME type trimmed. */
  lemma EncodeRoundTrip(mime: seq<byte>, audio: seq<byte>)
    ensures Encode(mime, audio).Some? <==> Storable(TrimSpace(mime), audio)
    ensures Encode(mime, audio).Some? ==> Decode(Encode(mime, audio).value) == Some(Speech(audio, TrimSpace(mime)))
  {
    hide TrimSpace, Decode, Layout;
    if Encode(mime, audio).Some? {
      DecodeIsExact(Encode(mime, audio).value, Speech(audio, TrimSpace(mime)));
    }
  }

  method EncodeCachedSpeech(rawMime: seq<byte>, audio: seq<byte>) returns (payload: seq<byte>, ok: bool)
    ensures Encode(rawMime, audio) == if ok then Some(payload) else None
  {
    hide TrimSpace;
    var mime := TrimSpace(rawMime);
    if |mime| == 0 || |mime| > 255 {
      return [], false;
    }
    if |audio| == 0 || |audio| > MAX_AUDIO {
      return [], false;
    }
    var buffer := new byte[|MAGIC| + 2 + |mime| + |audio|](_ => 0);
    Copy(buffer, 0, MAGIC);
    var offset := |MAGIC|;
    Copy(buffer, offset, [|mime| / 256, |mime| % 256]);
    assert [|mime| / 256, |mime| % 256] == [0, |mime|];
    offset := offset + 2;
    Copy(buffer, offset, mime);
    offset := offset + |mime|;
    Copy(buffer, offset, audio);
    payload := buffer[..];
    assert payload == buffer[..offset + |audio|] == MAGIC + [0, |mime|] + mime + audio;
    ok := true;
  }

  // ----- The directory -----

  /** File names are SHA-256 digests of the keys, taken to be distinct, so a file is identified by its key. */
  type Key = seq<byte>

  datatype File = File(payload: seq<byte>, modified: int)

  type Directory = map<Key, File>

  /** `victims` are as many of the oldest files as have to go before one more fits; ties may be broken either way. */
  ghost predicate IsPruning(files: Directory, incoming: Key, limit: nat, victims: set<Key>) {
    && victims <= files.Keys
    && |victims| == (if incoming in files || |files| < limit then 0 else |files| - limit + 1)
    && OlderThanRest(files, victims)
  }

  lemma {:induction false} OldestExists(files: Directory, among: set<Key>)
    requires among != {} && among <= files.Keys
    ensures exists k :: k in among && forall j :: j in among ==> files[k].modified <= files[j].modified
    decreases |among|
  {
    var k :| k in among;
    if among == {k} {
    } else {
      OldestExists(files, among - {k});
      var m :| m in among - {k} && forall j :: j in among - {k} ==> files[m].modified <= files[j].modified;
      var best := if files[k].modified <= files[m].modified then k else m;
      assert best in among && forall j :: j in among ==> files[best].modified <= files[j].modified;
    }
  }

  /** The pruned directory, with the new file unless the recording cannot be stored. */
  ghost predicate Replaces(before: Directory, after: Directory, key: Key, payload: Option<seq<byte>>, now: int,
                           victims: set<Key>, ok: bool)
  {
    match payload
    case None => after == before - victims && !ok
    case Some(p) => after == (before - victims)[key := File(p, now)] && ok
  }

  /** What a `Put` leaves. Pruning comes first, so even a recording that cannot be stored may cost an old one. */
  ghost predicate IsPut(before: Directory, after: Directory, key: Key, mime: seq<byte>, audio: seq<byte>, now: int,
                        limit: nat, ok: bool)
  {
    if audio == [] then after == before && ok
    else exists victims :: IsPruning(before, key, limit, victims)
                           && Replaces(before, after, key, Encode(mime, audio), now, victims, ok)
  }

  type Limit = n: int | 0 < n witness 1

  class SpeechDiskCache {
    var files: Directory
    const limit: Limit

    /** The directory may hold files of an earlier process. */
    constructor (files: Directory, limit: int)
      ensures this.files == files && this.limit == (if limit <= 0 then 512 else limit)
    {
      this.files := files;
      this.limit := if limit <= 0 then 512 else limit;
    }

    /**
     * `found` is false both for a missing file and for a broken one, which `failed` tells apart and which is removed.
     */
    method Get(key: Key) returns (speech: Speech, found: bool, failed: bool)
      modifies this
      ensures key !in old(files) ==> !found && !failed && files == old(files)
      ensures key in old(files) ==>
                match Decode(old(files)[key].payload)
                case Some(s) => found && !failed && speech == s && files == old(files)
                case None => !found && failed && files == old(files) - {key}
    {
      if key !in files {
        return Speech([], []), false, false;
      }
      match Decode(files[key].payload) {
        case Some(s) =>
          return s, true, false;
        case None =>
          files := files - {key};
          return Speech([], []), false, true;
      }
    }

    method Put(key: Key, mime: seq<byte>, audio: seq<byte>, now: int) returns (ok: bool)
      modifies this
      ensures IsPut(old(files), files, key, mime, audio, now, limit, ok)
    {
      hide Encode;
      if |audio| == 0 {
        return true;
      }
      ghost var victims := Prune(key);
      var payload, encoded := EncodeCachedSpeech(mime, audio);
      if encoded {
        files := files[key := File(payload, now)];
      }
      ok := encoded;
      assert Replaces(old(files), files, key, Encode(mime, audio), now, victims, ok);
    }

    /** pruneLocked: makes room for one more file before it is written. */
    method Prune(incoming: Key) returns (ghost victims: set<Key>)
      modifies this
      ensures IsPruning(old(files), incoming, limit, victims) && files == old(files) - victims
    {
      hide Pruned;
      victims := {};
      ghost var start := files;
      StartPruning(start);
      if incoming in files {
        PrunedMeans(start, victims, files);
        return;
      }
      var removeCount := |files| - limit + 1;
      ghost var needed := Max(0, removeCount);
      while removeCount > 0
        invariant Pruned(start, victims, files)
        invariant |victims| + Max(0, removeCount) == needed && removeCount <= |files|
        decreases removeCount
      {
        OldestExists(files, files.Keys);
        var oldest :| oldest in files && forall j :: j in files ==> files[oldest].modified <= files[j].modified;
        RemoveOldest(start, victims, files, oldest);
        files := files - {oldest};
        victims := victims + {oldest};
        removeCount := removeCount - 1;
      }
      PrunedMeans(start, victims, files);
    }
  }

  ghost predicate OlderThanRest(files: Directory, victims: set<Key>)
    requires victims <= files.Keys
  {
    forall v, k :: v in victims && k in files && k !in victims ==> files[v].modified <= files[k].modified
  }

  /** What is left when some of the oldest files are gone. */
  ghost predicate Pruned(start: Directory, victims: set<Key>, files: Directory) {
    victims <= start.Keys && files == start - victims && OlderThanRest(start, victims)
  }

  lemma StartPruning(start: Directory)
    ensures Pruned(start, {}, start)
  {
    assert start - {} == start;
  }

  lemma PrunedMeans(start: Directory, victims: set<Key>, files: Directory)
    requires Pruned(start, victims, files)
    ensures victims <= start.Keys && files == start - victims && OlderThanRest(start, victims)
  {
  }

  lemma RemoveOldest(start: Directory, victims: set<Key>, files: Directory, oldest: Key)
    requires Pruned(start, victims, files)
    requires oldest in files && forall j :: j in files ==> files[oldest].modified <= files[j].modified
    ensures Pruned(start, victims + {oldest}, files - {oldest})
    ensures |files - {oldest}| == |files| - 1 && |victims + {oldest}| == |victims| + 1
  {
    PruneSize(files, {oldest});
    assert files - {oldest} == start - (victims + {oldest});
    assert forall k :: k in start && k !in victims ==> k in files && files[k] == start[k];
  }

  // ----- What the cache promises -----

  lemma PruneSize(files: Directory, victims: set<Key>)
    requires victims <= files.Keys
    ensures |files - victims| == |files| - |victims|
  {
    assert (files - victims).Keys == files.Keys - victims;
    assert |files.Keys - victims| == |files.Keys| - |victims|;
  }

  /**
   * A stored recording can be read back, and nothing else in the directory changed except that older files may be
   * gone.
   */
  lemma GetAfterPut(before: Directory, after: Directory, key: Key, mime: seq<byte>, audio: seq<byte>, now: int,
                    limit: nat)
    requires IsPut(before, after, key, mime, audio, now, limit, true) && audio != []
    ensures key in after && Decode(after[key].payload) == Some(Speech(audio, TrimSpace(mime)))
    ensures after[key].modified == now
    ensures forall k :: k in after && k != key ==> k in before && after[k] == before[k]
    ensures key in before ==> after.Keys == before.Keys
  {
    EncodeRoundTrip(mime, audio);
    hide Encode, Decode, TrimSpace;
  }

  /**
   * Storing succeeds exactly for a recording of at most 12 MiB whose type, trimmed, has 1 to 255 bytes, or for none.
   */
  lemma PutSucceedsExactly(before: Directory, after: Directory, key: Key, mime: seq<byte>, audio: seq<byte>, now: int,
                           limit: nat, ok: bool)
    requires IsPut(before, after, key, mime, audio, now, limit, ok)
    ensures ok <==> audio == [] || (1 <= |TrimSpace(mime)| <= 255 && |audio| <= 12 * 1024 * 1024)
    ensures audio == [] ==> after == before
  {
    EncodeRoundTrip(mime, audio);
    hide Encode, TrimSpace, Decode;
  }

  lemma ReplaceSize(before: Directory, after: Directory, key: Key, payload: Option<seq<byte>>, now: int,
                    victims: set<Key>, ok: bool)
    requires victims <= before.Keys && key !in victims && Replaces(before, after, key, payload, now, victims, ok)
    ensures |after| == |before| - |victims| + if ok && key !in before then 1 else 0
  {
    PruneSize(before, victims);
    var pruned := before - victims;
    if ok {
      assert after.Keys == pruned.Keys + {key};
      assert key in pruned <==> key in before;
    }
  }

  /** The directory never outgrows its limit, and a new recording costs as many old ones as needed and no more. */
  lemma PutRespectsLimit(before: Directory, after: Directory, key: Key, mime: seq<byte>, audio: seq<byte>, now: int,
                         limit: nat, ok: bool)
    requires IsPut(before, after, key, mime, audio, now, limit, ok) && limit > 0
    ensures |before| <= limit ==> |after| <= limit
    ensures ok && audio != [] && key !in before ==> |after| == (if |before| < limit then |before| + 1 else limit)
    ensures ok && audio != [] && key in before ==> |after| == |before|
  {
    hide Encode;
    if audio != [] {
      var victims :| IsPruning(before, key, limit, victims)
                     && Replaces(before, after, key, Encode(mime, audio), now, victims, ok);
      assert key !in victims by {
        if key in before {
          assert victims == {};
        }
      }
      ReplaceSize(before, after, key, Encode(mime, audio), now, victims, ok);
      hide Replaces;
    }
  }

  /** Only the oldest files make room: whatever is evicted is no newer than anything that stays. */
  lemma EvictedAreOldest(before: Directory, after: Directory, key: Key, mime: seq<byte>, audio: seq<byte>, now: int,
                         limit: nat, ok: bool, gone: Key, kept: Key)
    requires IsPut(before, after, key, mime, audio, now, limit, ok)
    requires gone in before && gone !in after && kept in before && kept in after && kept != key
    ensures before[gone].modified <= before[kept].modified
  {
    hide Encode;
  }

  /**
   * What a refused recording costs: the directory is left as it was exactly when the key has a file already or there is
   * room for one more; otherwise old files go for nothing.
   */
  lemma RefusedPutCosts(before: Directory, after: Directory, key: Key, mime: seq<byte>, audio: seq<byte>, now: int,
                        limit: nat, ok: bool)
    requires IsPut(before, after, key, mime, audio, now, limit, ok) && limit > 0 && !ok
    ensures after == before <==> key in before || |before| < limit
    ensures key !in before && |before| >= limit ==> |after| == limit - 1
  {
    hide Encode, OlderThanRest;
    var victims :| IsPruning(before, key, limit, victims)
                   && Replaces(before, after, key, Encode(mime, audio), now, victims, ok);
    PruneSize(before, victims);
    if victims == {} {
      assert before - victims == before;
    }
  }

  /** A full directory loses a file to a recording without a MIME type. */
  lemma EmptyMimeTypeCosts(before: Directory, after: Directory, key: Key, audio: seq<byte>, now: int, ok: bool)
    requires IsPut(before, after, key, [], audio, now, |before|, ok) && before != map[] && key !in before && audio != []
    ensures !ok && |after| == |before| - 1
  {
    EncodeRoundTrip([], audio);
    hide Encode;
    SomeFile(before);
    RefusedPutCosts(before, after, key, [], audio, now, |before|, ok);
  }

  lemma SomeFile(files: Directory)
    ensures |files| == 0 ==> files == map[]
  {
    if |files| == 0 {
      assert files.Keys == {};
    }
  }
}
