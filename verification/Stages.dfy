/** The transformations between a dump and its stored bytes, their inverse at
    restore time, and the counters and checksum that are read off the stream as it
    flows. */
module Stages {
  import opened Schema

  type Bytes = seq<int>

  // ----- transformations -----

  /** A key pair or a symmetric key. */
  type Key = nat

  datatype Stage =
    | Compress(algorithm: string)
    | Encrypt(algorithm: string, key: Key, seed: nat)
    | Decrypt(algorithm: string, key: Key)
    | Decompress(algorithm: string)

  datatype Codecs = Codecs(
    compress: (string, Bytes) -> Bytes,
    decompress: (string, Bytes) -> Option<Bytes>,
    encrypt: (string, Key, nat, Bytes) -> Bytes,
    decrypt: (string, Key, Bytes) -> Option<Bytes>)

  const AGE := "age"
  const AES_GCM := "aes-256-gcm"
  const COMPRESSIONS: set<string> := {"zstd", "gzip"}

  /** Each decoder undoes its encoder, whatever randomness the encoder drew. */
  ghost predicate DecodersUndo(codecs: Codecs) {
    && (forall a, b :: a in COMPRESSIONS ==> codecs.decompress(a, codecs.compress(a, b)) == Some(b))
    && (forall a, k, seed, b :: codecs.decrypt(a, k, codecs.encrypt(a, k, seed, b)) == Some(b))
  }

  /** What a stage makes of a stream; None is a stream that fails. */
  function Wrap(codecs: Codecs, stage: Stage, input: Option<Bytes>): Option<Bytes> {
    if input.None? then None
    else
      match stage
      case Compress(a) => Some(codecs.compress(a, input.value))
      case Encrypt(a, k, seed) => Some(codecs.encrypt(a, k, seed, input.value))
      case Decrypt(a, k) => codecs.decrypt(a, k, input.value)
      case Decompress(a) => codecs.decompress(a, input.value)
  }

  function Through(codecs: Codecs, stages: seq<Stage>, input: Option<Bytes>): Option<Bytes> {
    if stages == [] then input
    else Wrap(codecs, stages[|stages| - 1], Through(codecs, stages[..|stages| - 1], input))
  }

  class StageStack {
    var stages: seq<Stage>

    constructor ()
      ensures stages == []
    {
      stages := [];
    }

    method Push(stage: Stage)
      modifies this
      ensures stages == old(stages) + [stage]
    {
      stages := stages + [stage];
    }

    method Apply(codecs: Codecs, source: Option<Bytes>) returns (reader: Option<Bytes>)
      ensures reader == Through(codecs, stages, source)
    {
      reader := source;
      for i := 0 to |stages|
        invariant reader == Through(codecs, stages[..i], source)
      {
        assert stages[..i + 1][..i] == stages[..i];
        reader := Wrap(codecs, stages[i], reader);
      }
      assert stages[..|stages|] == stages;
    }
  }

  // ----- the reverse stack -----

  datatype CompressionMeta = CompressionMeta(algorithm: string, level: Option<int>)

  datatype EncryptionMeta = EncryptionMeta(algorithm: string, keyId: Option<string>)

  /** The part of a manifest that says how its bytes were made. */
  datatype PipelineMeta = PipelineMeta(compression: Option<CompressionMeta>, encryption: Option<EncryptionMeta>)

  /** The keys that the environment of the restoring host offers. */
  datatype Env = Env(ageIdentity: Option<Key>, aesKey: Option<Key>)

  datatype StackError = MissingKey | UnknownEncryption | UnknownCompression

  /** The stages of a backup: compress first, then encrypt. */
  function ForwardStages(meta: PipelineMeta, key: Key, seed: nat): seq<Stage> {
    (if meta.compression.Some? then [Compress(meta.compression.value.algorithm)] else [])
    + (if meta.encryption.Some? then [Encrypt(meta.encryption.value.algorithm, key, seed)] else [])
  }

  datatype StageConfig = StageConfig(
    compression: string, level: Option<int>,
    encrypts: bool, encryption: string, recipient: Option<Key>, aesKey: Option<Key>)

  const NO_COMPRESSION := "none"

  function EncryptKey(config: StageConfig): Result<Key, StackError> {
    if config.encryption == AGE then (if config.recipient.Some? then Ok(config.recipient.value) else Err(MissingKey))
    else if config.encryption == AES_GCM then (if config.aesKey.Some? then Ok(config.aesKey.value) else Err(MissingKey))
    else Err(UnknownEncryption)
  }

  /** The key for an algorithm: of the recipient or identity for age, the symmetric one for AES. */
  ghost function KeyFor(algorithm: string, age: Option<Key>, aes: Option<Key>): Option<Key> {
    if algorithm == "age" then age else if algorithm == "aes-256-gcm" then aes else None
  }

  /** The stack of a backup and the metadata that its manifest records: a restore
      that has the key can always reverse it. */
  method BuildStages(config: StageConfig, seed: nat, keyId: Option<string>)
    returns (r: Result<(StageStack, PipelineMeta), StackError>)
    ensures r.Ok? <==> && (config.compression == "none" || config.compression in {"zstd", "gzip"})
                       && (config.encrypts ==> KeyFor(config.encryption, config.recipient, config.aesKey).Some?)
    ensures r.Ok? ==>
              var (stack, meta) := r.value;
              && fresh(stack)
              && meta.compression == (if config.compression == "none" then None
                                      else Some(CompressionMeta(config.compression, config.level)))
              && meta.encryption == (if config.encrypts then Some(EncryptionMeta(config.encryption, keyId)) else None)
              && var key := if config.encrypts then KeyFor(config.encryption, config.recipient, config.aesKey).value else 0;
                 && stack.stages == ForwardStages(meta, key, seed)
                 && stack.stages == (if config.compression == "none" then [] else [Compress(config.compression)])
                                    + (if config.encrypts then [Encrypt(config.encryption, key, seed)] else [])
                 && CanReverse(meta, Env(Some(key), Some(key)))
    ensures r.Err? ==>
              r.error == if config.compression !in {"none", "zstd", "gzip"} then UnknownCompression
                         else if config.encryption in {"age", "aes-256-gcm"} then MissingKey else UnknownEncryption
  {
    var stack := new StageStack();
    var meta := PipelineMeta(None, None);
    if config.compression != NO_COMPRESSION {
      if config.compression !in COMPRESSIONS {
        return Err(UnknownCompression);
      }
      meta := meta.(compression := Some(CompressionMeta(config.compression, config.level)));
      stack.Push(Compress(config.compression));
    }
    if config.encrypts {
      var key := EncryptKey(config);
      if key.Err? {
        return Err(key.error);
      }
      meta := meta.(encryption := Some(EncryptionMeta(config.encryption, keyId)));
      stack.Push(Encrypt(config.encryption, key.value, seed));
    }
    r := Ok((stack, meta));
  }

  function ResolveDecryptKey(env: Env, algorithm: string): Result<Key, StackError> {
    if algorithm == AGE then (if env.ageIdentity.Some? then Ok(env.ageIdentity.value) else Err(MissingKey))
    else if algorithm == AES_GCM then (if env.aesKey.Some? then Ok(env.aesKey.value) else Err(MissingKey))
    else Err(UnknownEncryption)
  }

  method ReverseStackFor(meta: PipelineMeta, env: Env) returns (r: Result<StageStack, StackError>)
    ensures r.Ok? ==> fresh(r.value)
    ensures r.Ok? <==> CanReverse(meta, env)
    ensures r.Ok? <==>
              && (meta.encryption.Some? ==>
                    KeyFor(meta.encryption.value.algorithm, env.ageIdentity, env.aesKey).Some?)
              && (meta.compression.Some? ==> meta.compression.value.algorithm in {"zstd", "gzip"})
    ensures r.Ok? ==> r.value.stages == ReverseStages(meta, env)
    ensures r.Ok? ==>
              var enc, comp := meta.encryption, meta.compression;
              r.value.stages
              == (if enc.Some?
                  then [Decrypt(enc.value.algorithm, KeyFor(enc.value.algorithm, env.ageIdentity, env.aesKey).value)]
                  else [])
                 + (if comp.Some? then [Decompress(comp.value.algorithm)] else [])
    ensures r.Err? ==>
              r.error == if meta.encryption.Some? && meta.encryption.value.algorithm !in {"age", "aes-256-gcm"}
                         then UnknownEncryption
                         else if meta.encryption.Some?
                                 && KeyFor(meta.encryption.value.algorithm, env.ageIdentity, env.aesKey).None?
                         then MissingKey
                         else UnknownCompression
  {
    var stack := new StageStack();
    if meta.encryption.Some? {
      var key := ResolveDecryptKey(env, meta.encryption.value.algorithm);
      if key.Err? {
        return Err(key.error);
      }
      stack.Push(Decrypt(meta.encryption.value.algorithm, key.value));
    }
    if meta.compression.Some? {
      var algorithm := meta.compression.value.algorithm;
      if algorithm !in COMPRESSIONS {
        return Err(UnknownCompression);
      }
      stack.Push(Decompress(algorithm));
    }
    r := Ok(stack);
  }

  predicate CanReverse(meta: PipelineMeta, env: Env) {
    && (meta.encryption.Some? ==> ResolveDecryptKey(env, meta.encryption.value.algorithm).Ok?)
    && (meta.compression.Some? ==> meta.compression.value.algorithm in COMPRESSIONS)
  }

  function ReverseStages(meta: PipelineMeta, env: Env): seq<Stage>
    requires CanReverse(meta, env)
  {
    (if meta.encryption.Some?
     then [Decrypt(meta.encryption.value.algorithm, ResolveDecryptKey(env, meta.encryption.value.algorithm).value)]
     else [])
    + (if meta.compression.Some? then [Decompress(meta.compression.value.algorithm)] else [])
  }

  lemma ThroughOne(codecs: Codecs, stages: seq<Stage>, stage: Stage, input: Option<Bytes>)
    ensures Through(codecs, stages + [stage], input) == Wrap(codecs, stage, Through(codecs, stages, input))
  {
    assert (stages + [stage])[..|stages|] == stages;
  }

  lemma ThroughOptional(
      codecs: Codecs, first: Option<Stage>, second: Option<Stage>, input: Option<Bytes>)
    ensures var stages := (if first.Some? then [first.value] else []) + (if second.Some? then [second.value] else []);
            var mid := if first.Some? then Wrap(codecs, first.value, input) else input;
            Through(codecs, stages, input) == if second.Some? then Wrap(codecs, second.value, mid) else mid
  {
    if first.Some? {
      ThroughOne(codecs, [], first.value, input);
      assert [] + [first.value] == [first.value];
    }
    var one := if first.Some? then [first.value] else [];
    if second.Some? {
      ThroughOne(codecs, one, second.value, input);
    } else {
      assert one + [] == one;
    }
  }

  /** For every combination of metadata, the reverse stack undoes the backup's
      stages, whenever it can be built with the key that encrypted. */
  lemma ReverseUndoesForward(codecs: Codecs, meta: PipelineMeta, env: Env, key: Key, seed: nat, raw: Bytes)
    requires DecodersUndo(codecs) && CanReverse(meta, env)
    requires meta.encryption.Some? ==> ResolveDecryptKey(env, meta.encryption.value.algorithm) == Ok(key)
    ensures var stored := Through(codecs, ForwardStages(meta, key, seed), Some(raw));
            stored.Some? && Through(codecs, ReverseStages(meta, env), stored) == Some(raw)
  {
    var comp, enc := meta.compression, meta.encryption;
    ThroughOptional(
      codecs,
      if comp.Some? then Some(Compress(comp.value.algorithm)) else None,
      if enc.Some? then Some(Encrypt(enc.value.algorithm, key, seed)) else None,
      Some(raw));
    ThroughOptional(
      codecs,
      if enc.Some? then Some(Decrypt(enc.value.algorithm, key)) else None,
      if comp.Some? then Some(Decompress(comp.value.algorithm)) else None,
      Through(codecs, ForwardStages(meta, key, seed), Some(raw)));
  }

  // ----- what flows past -----

  /** One poll: nothing yet, some bytes, the end, or an error. */
  datatype Poll = Pending | Data(bytes: Bytes) | Eof | Failed

  function BytesOf(p: Poll): Bytes {
    if p.Data? then p.bytes else []
  }

  /** The shared count of a counting reader and its handle. */
  class Counter {
    var total: nat

    constructor ()
      ensures total == 0
    {
      total := 0;
    }

    method Observe(p: Poll)
      modifies this
      ensures total == old(total) + |BytesOf(p)|
    {
      if p.Data? && p.bytes != [] {
        total := total + |p.bytes|;
      }
    }
  }

  /** The shared hasher: the bytes it was fed, until it is taken. */
  class Hasher {
    var fed: Option<Bytes>

    constructor ()
      ensures fed == Some([])
    {
      fed := Some([]);
    }

    method Observe(p: Poll)
      modifies this
      ensures fed == if old(fed).Some? then Some(old(fed).value + BytesOf(p)) else None
    {
      if p.Data? && p.bytes != [] && fed.Some? {
        fed := Some(fed.value + p.bytes);
      } else if fed.Some? {
        assert fed.value + [] == fed.value;
      }
    }

    /** Valid once: the state is taken. */
    method Finalize(hash: Bytes -> string) returns (r: Option<string>)
      modifies this
      ensures fed == None
      ensures r == if old(fed).Some? then Some(hash(old(fed).value)) else None
    {
      r := if fed.Some? then Some(hash(fed.value)) else None;
      fed := None;
    }
  }

  /** The dump behind the raw counter: any piece of what is left, at any pace; it
      may break off. */
  class CountedDump {
    const raw: Bytes
    var read: nat
    const counter: Counter

    constructor (raw: Bytes, counter: Counter)
      ensures this.raw == raw && this.counter == counter && read == 0
    {
      this.raw := raw;
      this.counter := counter;
      read := 0;
    }

    ghost predicate Valid()
      reads this, counter
    {
      read <= |raw| && counter.total == read
    }

    method PollRead(room: nat) returns (p: Poll)
      requires Valid() && room > 0
      modifies this, counter
      ensures Valid() && (p == Eof ==> read == |raw|)
      ensures old(read) <= read && BytesOf(p) == raw[old(read)..read]
    {
      var ready: bool, broken: bool := *, *;
      if !ready {
        p := Pending;
      } else if broken {
        p := Failed;
      } else if read == |raw| {
        p := Eof;
      } else {
        var n :| 0 < n <= |raw| - read && n <= room;
        p := Data(raw[read..read + n]);
        read := read + n;
      }
      counter.Observe(p);
    }
  }

  /** The reader behind the stages: it pulls its input as it likes, gives out what
      the stages make of the whole input piece by piece, and ends after its input. */
  class StagedReader {
    const input: CountedDump
    const output: Option<Bytes>
    var given: nat
    var inputEnded: bool

    constructor (codecs: Codecs, stages: seq<Stage>, input: CountedDump)
      ensures this.input == input && output == Through(codecs, stages, Some(input.raw))
      ensures given == 0 && !inputEnded
    {
      this.input := input;
      this.output := Through(codecs, stages, Some(input.raw));
      given := 0;
      inputEnded := false;
    }

    ghost predicate Valid()
      reads this, input, input.counter
    {
      && input.Valid()
      && (if output.Some? then given <= |output.value| else given == 0)
      && (inputEnded ==> input.read == |input.raw|)
    }

    method PollRead(room: nat) returns (p: Poll)
      requires Valid() && room > 0
      modifies this, input, input.counter
      ensures Valid() && old(given) <= given
      ensures p == Eof ==> output.Some? && given == |output.value| && inputEnded
      ensures output.Some? ==> BytesOf(p) == output.value[old(given)..given]
      ensures output.None? ==> BytesOf(p) == []
    {
      var pull: bool, hold: bool := *, *;
      if pull && !inputEnded {
        var got := input.PollRead(room);
        if got == Failed {
          return Failed;
        }
        inputEnded := got == Eof;
      }
      if hold {
        p := Pending;
      } else if output.None? {
        p := Failed;
      } else if given < |output.value| {
        var n :| 0 < n <= |output.value| - given && n <= room;
        p := Data(output.value[given..given + n]);
        given := given + n;
      } else if inputEnded {
        p := Eof;
      } else {
        p := Pending;
      }
    }
  }

  // ----- storing a dump -----

  datatype StoreError = PutFailed | DumpFailed | AlreadyFinalized

  datatype StoredDump = StoredDump(id: Id, storedSize: nat, originalSize: nat, checksum: string)

  class Storage {
    var objects: map<Id, Bytes>

    constructor ()
      ensures objects == map[]
    {
      objects := map[];
    }
  }

  /** Polls the stream with the given rooms until it ends, through the hasher and
      the stored counter.  `done` is what was written. */
  method Consume(reader: StagedReader, hasher: Hasher, stored: Counter, rooms: seq<nat>)
    returns (ended: bool, done: Bytes)
    requires reader.Valid() && reader.given == 0 && forall i :: 0 <= i < |rooms| ==> rooms[i] > 0
    requires hasher.fed == Some([]) && stored.total == 0 && stored != reader.input.counter
    modifies reader, reader.input, reader.input.counter, hasher, stored
    ensures reader.Valid()
    ensures hasher.fed == Some(done) && stored.total == |done|
    ensures ended ==> reader.output == Some(done) && reader.input.counter.total == |reader.input.raw|
  {
    done := [];
    for i := 0 to |rooms|
      invariant reader.Valid() && hasher.fed == Some(done) && stored.total == |done|
      invariant reader.output.Some? ==> done == reader.output.value[..reader.given]
    {
      ghost var given := reader.given;
      var p := reader.PollRead(rooms[i]);
      hasher.Observe(p);
      stored.Observe(p);
      done := done + BytesOf(p);
      if reader.output.Some? {
        assert done == reader.output.value[..given] + reader.output.value[given..reader.given];
      }
      if p == Eof {
        assert done == reader.output.value[..reader.given];
        assert reader.output.value[..|reader.output.value|] == reader.output.value;
        return true, done;
      }
      if p == Failed {
        return false, done;
      }
    }
    ended := false;
  }

  /** The common core of the full backups: count, transform, hash, count, store.
      `rooms` is any poll pattern of the storage; `dumpEnds` says whether the dump
      process ended well. */
  method StoreDumpStream(
      codecs: Codecs, storage: Storage, raw: Bytes, stages: StageStack, id: Id, rooms: seq<nat>, dumpEnds: bool,
      hash: Bytes -> string)
    returns (r: Result<StoredDump, StoreError>)
    requires forall i :: 0 <= i < |rooms| ==> rooms[i] > 0
    modifies storage
    ensures forall other :: other != id ==> (other in storage.objects <==> other in old(storage.objects))
    ensures forall other :: other != id && other in old(storage.objects) ==>
                              storage.objects[other] == old(storage.objects)[other]
    ensures r.Ok? ==>
              && dumpEnds && id in storage.objects
              && Through(codecs, stages.stages, Some(raw)) == Some(storage.objects[id])
              && r.value == StoredDump(id, |storage.objects[id]|, |raw|, hash(storage.objects[id]))
  {
    var original := new Counter();
    var dump := new CountedDump(raw, original);
    var staged := new StagedReader(codecs, stages.stages, dump);
    var hasher := new Hasher();
    var stored := new Counter();
    var ended, done := Consume(staged, hasher, stored, rooms);
    if !ended {
      var partial: bool := *;
      if partial {
        storage.objects := storage.objects[id := done];
      }
      return Err(PutFailed);
    }
    storage.objects := storage.objects[id := done];
    if !dumpEnds {
      var cleaned: bool := *;
      if cleaned {
        storage.objects := storage.objects - {id};
      }
      return Err(DumpFailed);
    }
    var checksum := hasher.Finalize(hash);
    if checksum.None? {
      return Err(AlreadyFinalized);
    }
    r := Ok(StoredDump(id, stored.total, original.total, checksum.value));
  }
}
