/** The encrypted stream format: a magic, a nonce prefix, and length-prefixed
    frames of at most 64 KiB of plaintext, the last of which is sealed with a flag.
    The AEAD is ideal: it opens a frame only at the nonce that sealed it. */
module AesStream {
  import opened Schema
  import opened StableSort

  type byte = x: int | 0 <= x < 256

  type Bytes = seq<byte>

  const MAGIC: Bytes := [0x58, 0x42, 0x41, 0x45, 0x53, 0x47, 0x30, 0x31]

  const NONCE_PREFIX_LEN: nat := 7

  const CHUNK_SIZE: nat := 64 * 1024

  const TAG_LEN: nat := 16

  const COUNTER_MAX: nat := 0xFFFF_FFFF

  type Prefix = p: Bytes | |p| == NONCE_PREFIX_LEN witness [0, 0, 0, 0, 0, 0, 0]

  datatype Nonce = Nonce(prefix: Prefix, counter: u32, last: bool)

  // ----- the AEAD -----

  datatype Aead = Aead(seal: (Nonce, Bytes) -> Bytes, open: (Nonce, Bytes) -> Option<Bytes>)

  ghost predicate IsIdeal(a: Aead) {
    && (forall n, p :: |a.seal(n, p)| == |p| + TAG_LEN && a.open(n, a.seal(n, p)) == Some(p))
    && (forall m, n, p :: m != n ==> a.open(m, a.seal(n, p)) == None)
  }

  // ----- the format -----

  /** 32-bit big-endian lengths. */
  function ToBE(n: u32): (b: Bytes)
    ensures |b| == 4
  {
    var high := n / 0x100;
    [high / 0x100 / 0x100, high / 0x100 % 0x100, high % 0x100, n % 0x100]
  }

  function FromBE(b: Bytes): (n: u32)
    requires |b| == 4
  {
    var b0: int, b1: int, b2: int, b3: int := b[0], b[1], b[2], b[3];
    0x100 * (0x100 * (0x100 * b0 + b1) + b2) + b3
  }

  lemma LengthRoundTrip(n: u32)
    ensures FromBE(ToBE(n)) == n
  {
  }

  predicate IsFrame(f: Bytes) {
    TAG_LEN <= |f| <= CHUNK_SIZE + TAG_LEN
  }

  function Wire(f: Bytes): Bytes
    requires IsFrame(f)
  {
    ToBE(|f|) + f
  }

  /** All chunks but the last are full; an empty input is one empty chunk. */
  function Chunks(p: Bytes): (cs: seq<Bytes>)
    ensures cs != []
  {
    if |p| <= CHUNK_SIZE then [p] else [p[..CHUNK_SIZE]] + Chunks(p[CHUNK_SIZE..])
  }

  function Joined(cs: seq<Bytes>): Bytes {
    if cs == [] then [] else cs[0] + Joined(cs[1..])
  }

  /** What was written or released, and whether that ended well. */
  datatype Output = Output(bytes: Bytes, ok: bool)

  function After(first: Bytes, o: Output): Output {
    Output(first + o.bytes, o.ok)
  }

  lemma AfterBoth(a: Bytes, b: Bytes, o: Output)
    ensures After(a, After(b, o)) == After(a + b, o)
  {
    Assoc(a, b, o.bytes);
  }

  predicate AreChunks(cs: seq<Bytes>) {
    cs != [] && forall i :: 0 <= i < |cs| ==> |cs[i]| <= CHUNK_SIZE
  }

  /** The frames from number `i` on.  The counter may not pass its maximum. */
  function EncryptFrom(a: Aead, prefix: Prefix, i: u32, cs: seq<Bytes>): Output
    requires IsIdeal(a) && AreChunks(cs)
    decreases |cs|
  {
    if |cs| == 1 then Output(Wire(a.seal(Nonce(prefix, i, true), cs[0])), true)
    else if i == COUNTER_MAX then Output([], false)
    else
      After(Wire(a.seal(Nonce(prefix, i, false), cs[0])), EncryptFrom(a, prefix, i + 1, cs[1..]))
  }

  lemma {:induction false} ChunksFit(p: Bytes)
    ensures AreChunks(Chunks(p))
    decreases |p|
  {
    if |p| > CHUNK_SIZE {
      ChunksFit(p[CHUNK_SIZE..]);
    }
  }

  function Encrypted(a: Aead, prefix: Prefix, p: Bytes): Output
    requires IsIdeal(a)
  {
    ChunksFit(p);
    After(MAGIC + prefix, EncryptFrom(a, prefix, 0, Chunks(p)))
  }

  datatype FrameRead = Frame(frame: Bytes, rest: Bytes) | End | Malformed

  /** Fewer than four bytes count as the end of the input. */
  function ReadFrameOf(input: Bytes): FrameRead {
    if |input| < 4 then End
    else
      var len := FromBE(input[..4]);
      if !(TAG_LEN <= len <= CHUNK_SIZE + TAG_LEN) || |input| - 4 < len then Malformed
      else Frame(input[4..4 + len], input[4 + len..])
  }

  /** The frames of an input, and whether it ends where a frame could begin. */
  datatype Frames = Nil(clean: bool) | Cons(head: Bytes, tail: Frames)

  function Parsed(input: Bytes): Frames
    decreases |input|
  {
    match ReadFrameOf(input)
    case Malformed => Nil(false)
    case End => Nil(true)
    case Frame(f, rest) => Cons(f, Parsed(rest))
  }

  /** The frame in hand is opened only when it is known whether another follows. */
  function Opened(a: Aead, prefix: Prefix, i: u32, current: Bytes, fs: Frames): Output
    decreases fs
  {
    match fs
    case Nil(clean) =>
      var plain := a.open(Nonce(prefix, i, true), current);
      if clean && plain.Some? then Output(plain.value, true) else Output([], false)
    case Cons(next, rest) =>
      if i == COUNTER_MAX then Output([], false)
      else
        var plain := a.open(Nonce(prefix, i, false), current);
        if plain.None? then Output([], false)
        else After(plain.value, Opened(a, prefix, i + 1, next, rest))
  }

  function OpenedAll(a: Aead, prefix: Prefix, fs: Frames): Output {
    match fs
    case Nil(_) => Output([], false)
    case Cons(first, rest) => Opened(a, prefix, 0, first, rest)
  }

  function Decrypted(a: Aead, input: Bytes): Output {
    var head := |MAGIC| + NONCE_PREFIX_LEN;
    if |input| < head || input[..|MAGIC|] != MAGIC then Output([], false)
    else OpenedAll(a, input[|MAGIC|..head], Parsed(input[head..]))
  }

  // ----- streams -----

  /** A reader that gives any non-empty part of what is left, nothing only at the end. */
  class Source {
    var data: Bytes

    constructor (data: Bytes)
      ensures this.data == data
    {
      this.data := data;
    }

    method Read(buf: array<byte>, from: nat) returns (n: nat)
      requires from < buf.Length
      modifies this, buf
      ensures n <= |old(data)| && n <= buf.Length - from && (n == 0 <==> old(data) == [])
      ensures buf[..from + n] == old(buf[..from]) + old(data)[..n]
      ensures data == old(data)[n..]
    {
      if data == [] {
        return 0;
      }
      n :| 0 < n <= |data| && n <= buf.Length - from;
      forall k | 0 <= k < n {
        buf[from + k] := data[k];
      }
      data := data[n..];
    }
  }

  class Sink {
    var written: Bytes
    var closed: bool

    constructor ()
      ensures written == [] && !closed
    {
      written := [];
      closed := false;
    }

    method WriteAll(b: Bytes)
      modifies this
      ensures written == old(written) + b && closed == old(closed)
    {
      written := written + b;
    }

    method Shutdown()
      modifies this
      ensures written == old(written) && closed
    {
      closed := true;
    }
  }

  function Least(a: nat, b: nat): nat { if a <= b then a else b }

  /** Fills up to `size` bytes, however the reader splits them. */
  method Fill(source: Source, size: nat) returns (chunk: Bytes)
    modifies source
    ensures chunk == old(source.data)[..Least(size, |old(source.data)|)]
    ensures source.data == old(source.data)[|chunk|..]
  {
    ghost var all := source.data;
    var buf := new byte[size];
    var filled := 0;
    while filled < size
      invariant filled <= size && filled <= |all|
      invariant buf[..filled] == all[..filled] && source.data == all[filled..]
    {
      var n := source.Read(buf, filled);
      if n == 0 {
        break;
      }
      assert all[..filled] + all[filled..][..n] == all[..filled + n];
      filled := filled + n;
    }
    chunk := buf[..filled];
  }

  /** A chunk is short only at the end. */
  predicate IsChunkOf(all: Bytes, chunk: Bytes, rest: Bytes) {
    all == chunk + rest && |chunk| <= CHUNK_SIZE && (|chunk| < CHUNK_SIZE ==> rest == [])
  }

  method ReadExactChunk(source: Source) returns (chunk: Bytes)
    modifies source
    ensures IsChunkOf(old(source.data), chunk, source.data)
  {
    chunk := Fill(source, CHUNK_SIZE);
  }

  method ReadExact(source: Source, size: nat) returns (r: Option<Bytes>)
    modifies source
    ensures r.Some? <==> size <= |old(source.data)|
    ensures r.Some? ==> r.value == old(source.data)[..size] && source.data == old(source.data)[size..]
    ensures r.None? ==> source.data == []
  {
    var b := Fill(source, size);
    if |b| < size {
      return None;
    }
    r := Some(b);
  }

  /** One chunk and the rest. */
  lemma ChunksStep(c: Bytes, rest: Bytes)
    requires |c| <= CHUNK_SIZE && (|c| < CHUNK_SIZE ==> rest == [])
    ensures Chunks(c + rest) == if rest == [] then [c] else [c] + Chunks(rest)
  {
    if rest == [] {
      assert c + rest == c;
    } else {
      assert (c + rest)[..CHUNK_SIZE] == c && (c + rest)[CHUNK_SIZE..] == rest;
    }
  }

  /** The frames of the chunk in hand, the chunk after it and what is still unread. */
  function Remaining(a: Aead, prefix: Prefix, i: u32, current: Bytes, next: Bytes, unread: Bytes): Output
    requires IsIdeal(a) && |current| <= CHUNK_SIZE
  {
    if next == [] then EncryptFrom(a, prefix, i, [current])
    else
      ChunksFit(next + unread);
      EncryptFrom(a, prefix, i, [current] + Chunks(next + unread))
  }

  lemma RestIsRemaining(a: Aead, prefix: Prefix, i: u32, all: Bytes, c: Bytes, rest: Bytes, next: Bytes, unread: Bytes)
    requires IsIdeal(a) && IsChunkOf(all, c, rest) && IsChunkOf(rest, next, unread)
    requires AreChunks(Chunks(all))
    ensures EncryptFrom(a, prefix, i, Chunks(all)) == Remaining(a, prefix, i, c, next, unread)
  {
    ChunksStep(c, rest);
  }

  lemma RemainingStep(
      a: Aead, prefix: Prefix, i: u32, current: Bytes, next: Bytes, rest: Bytes, next': Bytes, unread: Bytes)
    requires IsIdeal(a) && |current| <= CHUNK_SIZE && next != [] && i < COUNTER_MAX
    requires IsChunkOf(next + rest, next, rest) && IsChunkOf(rest, next', unread)
    ensures Remaining(a, prefix, i, current, next, rest)
            == After(Wire(a.seal(Nonce(prefix, i, false), current)), Remaining(a, prefix, i + 1, next, next', unread))
  {
    ChunksFit(next + rest);
    assert ([current] + Chunks(next + rest))[1..] == Chunks(next + rest);
    RestIsRemaining(a, prefix, i + 1, next + rest, next, rest, next', unread);
  }

  method WriteFrame(sink: Sink, frame: Bytes)
    requires IsFrame(frame)
    modifies sink
    ensures sink.written == old(sink.written) + Wire(frame) && sink.closed == old(sink.closed)
  {
    sink.WriteAll(ToBE(|frame|));
    sink.WriteAll(frame);
    Assoc(old(sink.written), ToBE(|frame|), frame);
  }

  method WriteSealed(a: Aead, n: Nonce, chunk: Bytes, sink: Sink, ghost before: Bytes, ghost done: Bytes)
    returns (frame: Bytes)
    requires IsIdeal(a) && |chunk| <= CHUNK_SIZE && sink.written == before + done
    modifies sink
    ensures frame == a.seal(n, chunk) && IsFrame(frame)
    ensures sink.written == before + (done + Wire(frame)) && sink.closed == old(sink.closed)
  {
    frame := a.seal(n, chunk);
    WriteFrame(sink, frame);
    Assoc(before, done, Wire(frame));
  }

  /** The chunks are read one ahead, to know the last. */
  method PumpFrames(a: Aead, prefix: Prefix, input: Source, sink: Sink) returns (ok: bool)
    requires IsIdeal(a) && AreChunks(Chunks(input.data))
    modifies input, sink
    ensures var o := EncryptFrom(a, prefix, 0, Chunks(old(input.data)));
            sink.written == old(sink.written) + o.bytes && ok == o.ok
    ensures sink.closed == old(sink.closed)
  {
    ghost var plain, whole := input.data, EncryptFrom(a, prefix, 0, Chunks(input.data));
    var current := ReadExactChunk(input);
    ghost var rest := input.data;
    var next := ReadExactChunk(input);
    var position := 0;
    ghost var done: Bytes := [];
    RestIsRemaining(a, prefix, 0, plain, current, rest, next, input.data);
    while next != []
      invariant 0 <= position <= COUNTER_MAX && |current| <= CHUNK_SIZE
      invariant IsChunkOf(next + input.data, next, input.data)
      invariant sink.written == old(sink.written) + done && sink.closed == old(sink.closed)
      invariant whole == After(done, Remaining(a, prefix, position, current, next, input.data))
      decreases |input.data| + |next|
    {
      if position == COUNTER_MAX {
        NoMoreFrames(a, prefix, current, next, input.data, done);
        return false;
      }
      var frame := WriteSealed(a, Nonce(prefix, position, false), current, sink, old(sink.written), done);
      rest := input.data;
      var after := ReadExactChunk(input);
      assert |rest| == |after| + |input.data|;
      RemainingStep(a, prefix, position, current, next, rest, after, input.data);
      AfterBoth(done, Wire(frame), Remaining(a, prefix, position + 1, next, after, input.data));
      done := done + Wire(frame);
      current, next := next, after;
      position := position + 1;
    }
    var frame := WriteSealed(a, Nonce(prefix, position, true), current, sink, old(sink.written), done);
    ok := true;
  }

  lemma NoMoreFrames(a: Aead, prefix: Prefix, current: Bytes, next: Bytes, unread: Bytes, done: Bytes)
    requires IsIdeal(a) && |current| <= CHUNK_SIZE && next != []
    ensures After(done, Remaining(a, prefix, COUNTER_MAX, current, next, unread)) == Output(done, false)
  {
    ChunksFit(next + unread);
    assert done + [] == done;
  }

  method PumpEncrypt(a: Aead, prefix: Prefix, input: Source, sink: Sink) returns (ok: bool)
    requires IsIdeal(a)
    modifies input, sink
    ensures sink.written == old(sink.written) + Encrypted(a, prefix, old(input.data)).bytes
    ensures ok == Encrypted(a, prefix, old(input.data)).ok
    ensures sink.closed == (ok || old(sink.closed))
  {
    ChunksFit(input.data);
    ghost var o := EncryptFrom(a, prefix, 0, Chunks(input.data));
    sink.WriteAll(MAGIC);
    sink.WriteAll(prefix);
    ok := PumpFrames(a, prefix, input, sink);
    Assoc(old(sink.written), MAGIC, prefix);
    Assoc(old(sink.written), MAGIC + prefix, o.bytes);
    if ok {
      sink.Shutdown();
    }
  }

  // ----- decryption -----

  datatype ReadFrameResult = GotFrame(frame: Bytes) | GotEnd | GotError

  method ReadFrame(input: Source) returns (r: ReadFrameResult)
    modifies input
    ensures match ReadFrameOf(old(input.data))
            case Frame(frame, rest) => r == GotFrame(frame) && input.data == rest
            case End => r == GotEnd
            case Malformed => r == GotError
  {
    var lenBuf := ReadExact(input, 4);
    if lenBuf.None? {
      return GotEnd;
    }
    var len := FromBE(lenBuf.value);
    if !(TAG_LEN <= len <= CHUNK_SIZE + TAG_LEN) {
      return GotError;
    }
    var frame := ReadExact(input, len);
    if frame.None? {
      return GotError;
    }
    assert old(input.data)[4..][..len] == old(input.data)[4..4 + len];
    assert old(input.data)[4..][len..] == old(input.data)[4 + len..];
    r := GotFrame(frame.value);
  }

  method OpenFrames(a: Aead, prefix: Prefix, first: Bytes, input: Source, sink: Sink) returns (ok: bool)
    modifies input, sink
    ensures var o := Opened(a, prefix, 0, first, Parsed(old(input.data)));
            sink.written == old(sink.written) + o.bytes && ok == o.ok
    ensures sink.closed == old(sink.closed)
  {
    ghost var whole := Opened(a, prefix, 0, first, Parsed(input.data));
    ghost var done: Bytes := [];
    var current, position := first, 0;
    while true
      invariant 0 <= position <= COUNTER_MAX
      invariant sink.written == old(sink.written) + done && sink.closed == old(sink.closed)
      invariant whole == After(done, Opened(a, prefix, position, current, Parsed(input.data)))
      decreases |input.data|
    {
      ghost var unread := input.data;
      var next := ReadFrame(input);
      match next
      case GotError =>
        assert done + [] == done;
        return false;
      case GotEnd =>
        var plain := a.open(Nonce(prefix, position, true), current);
        if plain.None? {
          assert done + [] == done;
          return false;
        }
        sink.WriteAll(plain.value);
        Assoc(old(sink.written), done, plain.value);
        return true;
      case GotFrame(frame) =>
        if position == COUNTER_MAX {
          assert done + [] == done;
          return false;
        }
        var plain := a.open(Nonce(prefix, position, false), current);
        if plain.None? {
          assert done + [] == done;
          return false;
        }
        sink.WriteAll(plain.value);
        Assoc(old(sink.written), done, plain.value);
        AfterBoth(done, plain.value, Opened(a, prefix, position + 1, frame, Parsed(input.data)));
        done := done + plain.value;
        current := frame;
        position := position + 1;
    }
  }

  method PumpDecrypt(a: Aead, input: Source, sink: Sink) returns (ok: bool)
    modifies input, sink
    ensures var o := Decrypted(a, old(input.data));
            sink.written == old(sink.written) + o.bytes && ok == o.ok
    ensures sink.closed == (ok || old(sink.closed))
  {
    ghost var all := input.data;
    var magic := ReadExact(input, |MAGIC|);
    if magic.None? || magic.value != MAGIC {
      return false;
    }
    var prefix := ReadExact(input, NONCE_PREFIX_LEN);
    if prefix.None? {
      return false;
    }
    HeaderParts(all);
    var current := ReadFrame(input);
    if !current.GotFrame? {
      return false;
    }
    ok := OpenFrames(a, prefix.value, current.frame, input, sink);
    if ok {
      sink.Shutdown();
    }
  }

  lemma HeaderParts(all: Bytes)
    requires |all| >= |MAGIC| + NONCE_PREFIX_LEN
    ensures all[|MAGIC|..][..NONCE_PREFIX_LEN] == all[|MAGIC|..|MAGIC| + NONCE_PREFIX_LEN]
    ensures all[|MAGIC|..][NONCE_PREFIX_LEN..] == all[|MAGIC| + NONCE_PREFIX_LEN..]
  {
  }

  // ----- the shape of a stream -----

  lemma {:induction false} ChunksJoin(p: Bytes)
    ensures Joined(Chunks(p)) == p
    decreases |p|
  {
    if |p| <= CHUNK_SIZE {
      assert p + Joined([]) == p && [p][1..] == [];
    } else {
      ChunksJoin(p[CHUNK_SIZE..]);
      assert Chunks(p)[1..] == Chunks(p[CHUNK_SIZE..]);
    }
  }

  lemma {:induction false} ChunkCount(p: Bytes)
    ensures |Chunks(p)| == if p == [] then 1 else (|p| + CHUNK_SIZE - 1) / CHUNK_SIZE
    decreases |p|
  {
    if |p| > CHUNK_SIZE {
      ChunkCount(p[CHUNK_SIZE..]);
    }
  }

  /** The chunks join to the input; all but the last are full, and only an empty
      input has an empty chunk. */
  lemma {:induction false} ChunkShape(p: Bytes)
    ensures var cs := Chunks(p);
            && Joined(cs) == p
            && (forall i :: 0 <= i < |cs| - 1 ==> |cs[i]| == CHUNK_SIZE)
            && |cs[|cs| - 1]| <= CHUNK_SIZE && (cs[|cs| - 1] == [] ==> p == [])
            && |cs| == (if p == [] then 1 else (|p| + CHUNK_SIZE - 1) / CHUNK_SIZE)
    decreases |p|
  {
    ChunksJoin(p);
    ChunkCount(p);
    if |p| > CHUNK_SIZE {
      ChunkShape(p[CHUNK_SIZE..]);
    }
  }

  /** Encryption fails exactly when the chunks outnumber the counter's values. */
  lemma {:induction false} EncryptSucceeds(a: Aead, prefix: Prefix, i: u32, cs: seq<Bytes>)
    requires IsIdeal(a) && AreChunks(cs)
    ensures EncryptFrom(a, prefix, i, cs).ok <==> i + |cs| - 1 <= COUNTER_MAX
    decreases |cs|
  {
    if |cs| > 1 && i < COUNTER_MAX {
      EncryptSucceeds(a, prefix, i + 1, cs[1..]);
    }
  }

  // ----- reading frames back -----

  lemma FrameRoundTrip(f: Bytes, rest: Bytes)
    requires IsFrame(f)
    ensures ReadFrameOf(Wire(f) + rest) == Frame(f, rest)
  {
    var input := Wire(f) + rest;
    LengthRoundTrip(|f|);
    assert input[..4] == ToBE(|f|);
    assert input[4..4 + |f|] == f && input[4 + |f|..] == rest;
  }

  lemma CutFrame(f: Bytes, rest: Bytes, k: nat)
    requires IsFrame(f) && k < |Wire(f)|
    ensures ReadFrameOf((Wire(f) + rest)[..k]) == if k < 4 then End else Malformed
  {
    var input := (Wire(f) + rest)[..k];
    if k >= 4 {
      LengthRoundTrip(|f|);
      assert input[..4] == ToBE(|f|);
    }
  }

  lemma CutLater(f: Bytes, rest: Bytes, k: nat)
    requires IsFrame(f) && |Wire(f)| <= k <= |Wire(f)| + |rest|
    ensures (Wire(f) + rest)[..k] == Wire(f) + rest[..k - |Wire(f)|]
  {
  }

  function SealedFrames(a: Aead, prefix: Prefix, i: u32, cs: seq<Bytes>): Frames
    requires i + |cs| - 1 <= COUNTER_MAX
    decreases |cs|
  {
    if cs == [] then Nil(true)
    else if |cs| == 1 then Cons(a.seal(Nonce(prefix, i, true), cs[0]), Nil(true))
    else Cons(a.seal(Nonce(prefix, i, false), cs[0]), SealedFrames(a, prefix, i + 1, cs[1..]))
  }

  function Append(fs: Frames, more: Frames): Frames {
    match fs
    case Nil(_) => more
    case Cons(f, rest) => Cons(f, Append(rest, more))
  }

  predicate AreFrames(fs: Frames) {
    match fs
    case Nil(_) => true
    case Cons(f, rest) => IsFrame(f) && AreFrames(rest)
  }

  function WireAll(fs: Frames): Bytes
    requires AreFrames(fs)
  {
    match fs
    case Nil(_) => []
    case Cons(f, rest) => Wire(f) + WireAll(rest)
  }

  lemma {:induction false} EncryptedFrames(a: Aead, prefix: Prefix, i: u32, cs: seq<Bytes>)
    requires IsIdeal(a) && AreChunks(cs) && i + |cs| - 1 <= COUNTER_MAX
    ensures var fs := SealedFrames(a, prefix, i, cs);
            AreFrames(fs) && EncryptFrom(a, prefix, i, cs) == Output(WireAll(fs), true)
    decreases |cs|
  {
    if |cs| == 1 {
      var f := a.seal(Nonce(prefix, i, true), cs[0]);
      assert Wire(f) + [] == Wire(f);
    } else {
      EncryptedFrames(a, prefix, i + 1, cs[1..]);
    }
  }

  /** Frames are read back, and then what follows them. */
  lemma {:induction false} ParseWhole(fs: Frames, tail: Bytes)
    requires AreFrames(fs)
    ensures Parsed(WireAll(fs) + tail) == Append(fs, Parsed(tail))
  {
    match fs
    case Nil(_) =>
      assert [] + tail == tail;
    case Cons(f, rest) =>
      Assoc(Wire(f), WireAll(rest), tail);
      FrameRoundTrip(f, WireAll(rest) + tail);
      ParseWhole(rest, tail);
  }

  predicate IsCutOf(fs: Frames, whole: Frames) {
    match fs
    case Nil(_) => whole.Cons?
    case Cons(f, rest) => whole.Cons? && f == whole.head && IsCutOf(rest, whole.tail)
  }

  /** Of a cut stream fewer frames are read back. */
  lemma {:induction false} ParseCut(fs: Frames, k: nat)
    requires AreFrames(fs) && k < |WireAll(fs)|
    ensures IsCutOf(Parsed(WireAll(fs)[..k]), fs)
  {
    var f, rest := fs.head, fs.tail;
    if k < |Wire(f)| {
      CutFrame(f, WireAll(rest), k);
    } else {
      var k' := k - |Wire(f)|;
      CutLater(f, WireAll(rest), k);
      FrameRoundTrip(f, WireAll(rest)[..k']);
      ParseCut(rest, k');
    }
  }

  // ----- opening frames -----

  /** All frames with something after them: the plaintext comes out, and the end
      is accepted exactly when nothing but an end follows. */
  lemma {:induction false} OpenWhole(a: Aead, prefix: Prefix, i: u32, cs: seq<Bytes>, after: Frames)
    requires IsIdeal(a) && cs != [] && i + |cs| - 1 <= COUNTER_MAX
    ensures var fs := SealedFrames(a, prefix, i, cs);
            && fs.Cons?
            && var o := Opened(a, prefix, i, fs.head, Append(fs.tail, after));
               && (o.ok <==> after == Nil(true)) && (o.ok ==> o.bytes == Joined(cs))
    decreases |cs|
  {
    if |cs| == 1 {
      assert cs[0] + Joined([]) == cs[0] && cs[1..] == [];
    } else {
      OpenWhole(a, prefix, i + 1, cs[1..], after);
    }
  }

  /** Fewer frames are refused, and what was released before that is a beginning
      of the plaintext. */
  lemma {:induction false} OpenCut(a: Aead, prefix: Prefix, i: u32, cs: seq<Bytes>, fs: Frames)
    requires IsIdeal(a) && i + |cs| - 1 <= COUNTER_MAX
    requires fs.Cons? && IsCutOf(fs, SealedFrames(a, prefix, i, cs))
    ensures var o := Opened(a, prefix, i, fs.head, fs.tail); !o.ok && o.bytes <= Joined(cs)
    decreases |cs|
  {
    if fs.tail.Cons? {
      OpenCut(a, prefix, i + 1, cs[1..], fs.tail);
    }
  }

  // ----- what the format guarantees -----

  lemma HeaderOf(a: Aead, prefix: Prefix, frames: Bytes)
    ensures Decrypted(a, MAGIC + prefix + frames) == OpenedAll(a, prefix, Parsed(frames))
  {
    var input, head := MAGIC + prefix + frames, |MAGIC| + NONCE_PREFIX_LEN;
    assert input[..|MAGIC|] == MAGIC && input[|MAGIC|..head] == prefix && input[head..] == frames;
  }

  /** Decrypting an encrypted stream with anything after it: up to three more
      bytes change nothing, and four or more are refused. */
  lemma RoundTripWithTail(a: Aead, prefix: Prefix, p: Bytes, tail: Bytes)
    requires IsIdeal(a) && Encrypted(a, prefix, p).ok
    ensures var o := Decrypted(a, Encrypted(a, prefix, p).bytes + tail);
            && (o.ok <==> |tail| < 4)
            && (|tail| < 4 ==> o.bytes == p)
  {
    var cs := Chunks(p);
    ChunksFit(p);
    ChunksJoin(p);
    EncryptSucceeds(a, prefix, 0, cs);
    EncryptedFrames(a, prefix, 0, cs);
    var fs := SealedFrames(a, prefix, 0, cs);
    Assoc(MAGIC + prefix, WireAll(fs), tail);
    HeaderOf(a, prefix, WireAll(fs) + tail);
    ParseWhole(fs, tail);
    OpenWhole(a, prefix, 0, cs, Parsed(tail));
  }

  /** Decryption undoes encryption. */
  lemma RoundTrip(a: Aead, prefix: Prefix, p: Bytes)
    requires IsIdeal(a) && Encrypted(a, prefix, p).ok
    ensures Decrypted(a, Encrypted(a, prefix, p).bytes) == Output(p, true)
  {
    var e := Encrypted(a, prefix, p).bytes;
    RoundTripWithTail(a, prefix, p, []);
    assert e + [] == e;
  }

  /** Every strict prefix of an encrypted stream is refused, and what was released
      before that is a beginning of the plaintext. */
  lemma TruncationIsDetected(a: Aead, prefix: Prefix, p: Bytes, k: nat)
    requires IsIdeal(a) && Encrypted(a, prefix, p).ok && k < |Encrypted(a, prefix, p).bytes|
    ensures var o := Decrypted(a, Encrypted(a, prefix, p).bytes[..k]);
            !o.ok && o.bytes <= p
  {
    var cs, head := Chunks(p), |MAGIC| + NONCE_PREFIX_LEN;
    ChunksFit(p);
    ChunksJoin(p);
    EncryptSucceeds(a, prefix, 0, cs);
    EncryptedFrames(a, prefix, 0, cs);
    if k >= head {
      var frames := WireAll(SealedFrames(a, prefix, 0, cs));
      assert (MAGIC + prefix + frames)[..k] == MAGIC + prefix + frames[..k - head];
      HeaderOf(a, prefix, frames[..k - head]);
      ParseCut(SealedFrames(a, prefix, 0, cs), k - head);
      if Parsed(frames[..k - head]).Cons? {
        OpenCut(a, prefix, 0, cs, Parsed(frames[..k - head]));
      }
    }
  }

  // ----- an ideal AEAD exists -----

  function ToySeal(n: Nonce, p: Bytes): Bytes {
    n.prefix + ToBE(n.counter) + [if n.last then 1 else 0] + [0, 0, 0, 0] + p
  }

  function ToyOpen(n: Nonce, c: Bytes): Option<Bytes> {
    if |c| >= TAG_LEN && c == ToySeal(n, c[TAG_LEN..]) then Some(c[TAG_LEN..]) else None
  }

  /** The hypothesis can be met. */
  lemma IdealExists()
    ensures IsIdeal(Aead(ToySeal, ToyOpen))
  {
    forall n, p ensures |ToySeal(n, p)| == |p| + TAG_LEN && ToyOpen(n, ToySeal(n, p)) == Some(p) {
      assert ToySeal(n, p)[TAG_LEN..] == p;
    }
    forall m, n, p | m != n ensures ToyOpen(m, ToySeal(n, p)) == None {
      var c := ToySeal(n, p);
      if c == ToySeal(m, c[TAG_LEN..]) {
        SameSealSameNonce(m, n, c[TAG_LEN..], p);
      }
    }
  }

  lemma SameSealSameNonce(m: Nonce, n: Nonce, p: Bytes, q: Bytes)
    requires ToySeal(m, p) == ToySeal(n, q)
    ensures m == n
  {
    assert ToySeal(m, p)[..7] == m.prefix && ToySeal(n, q)[..7] == n.prefix;
    assert ToySeal(m, p)[7..11] == ToBE(m.counter) && ToySeal(n, q)[7..11] == ToBE(n.counter);
    LengthRoundTrip(m.counter);
    LengthRoundTrip(n.counter);
    assert ToySeal(m, p)[11] == (if m.last then 1 else 0) && ToySeal(n, q)[11] == (if n.last then 1 else 0);
  }
}
