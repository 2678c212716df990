/** Which inputs decrypt at all: exactly the streams of the documented format whose
    frames open one after the other, and what is then released. */
module AesFormat {
  import opened Schema
  import opened StableSort
  import opened AesStream

  /** Each frame behind its length. */
  function WireOf(frames: seq<Bytes>): Bytes
    requires forall f :: f in frames ==> TAG_LEN <= |f| <= CHUNK_SIZE + TAG_LEN
  {
    if frames == [] then [] else ToBE(|frames[0]|) + frames[0] + WireOf(frames[1..])
  }

  /** Magic, nonce prefix, at least one frame, and at most three bytes that no
      length could be read from. */
  ghost predicate IsStream(input: Bytes, prefix: Prefix, frames: seq<Bytes>, tail: Bytes) {
    && frames != [] && (forall f :: f in frames ==> TAG_LEN <= |f| <= CHUNK_SIZE + TAG_LEN) && |tail| < 4
    && input == MAGIC + prefix + (WireOf(frames) + tail)
  }

  /** The frames open at the nonces from `i` on, the last one at a last nonce. */
  predicate OpensTo(a: Aead, prefix: Prefix, i: nat, frames: seq<Bytes>, plains: seq<Bytes>)
    decreases |frames|
  {
    && frames != [] && |plains| == |frames| && i <= COUNTER_MAX
    && a.open(Nonce(prefix, i, |frames| == 1), frames[0]) == Some(plains[0])
    && (|frames| > 1 ==> OpensTo(a, prefix, i + 1, frames[1..], plains[1..]))
  }

  // ----- frames in a sequence -----

  function ListOf(fs: Frames): seq<Bytes> {
    match fs
    case Nil(_) => []
    case Cons(f, rest) => [f] + ListOf(rest)
  }

  predicate IsClean(fs: Frames) {
    match fs
    case Nil(clean) => clean
    case Cons(_, rest) => IsClean(rest)
  }

  function ToFrames(frames: seq<Bytes>): Frames {
    if frames == [] then Nil(true) else Cons(frames[0], ToFrames(frames[1..]))
  }

  lemma {:induction false} ListBack(fs: Frames)
    requires IsClean(fs)
    ensures ToFrames(ListOf(fs)) == fs
  {
    match fs
    case Nil(_) =>
    case Cons(f, rest) =>
      assert ([f] + ListOf(rest))[1..] == ListOf(rest);
      ListBack(rest);
  }

  lemma OneFrame(input: Bytes)
    requires ReadFrameOf(input).Frame?
    ensures var r := ReadFrameOf(input);
            TAG_LEN <= |r.frame| <= CHUNK_SIZE + TAG_LEN && input == ToBE(|r.frame|) + r.frame + r.rest
  {
    var r := ReadFrameOf(input);
    LengthBack(input[..4]);
    assert input == input[..4] + input[4..4 + |r.frame|] + input[4 + |r.frame|..];
  }

  lemma LengthBack(b: Bytes)
    requires |b| == 4
    ensures FromBE(b) < 0x1_0000_0000 && ToBE(FromBE(b)) == b
  {
    var b0: int, b1: int, b2: int, b3: int := b[0], b[1], b[2], b[3];
    var high := 0x100 * (0x100 * b0 + b1) + b2;
    assert FromBE(b) == 0x100 * high + b3;
    assert high / 0x100 == 0x100 * b0 + b1 && high % 0x100 == b2;
  }

  lemma {:induction false} ParsedShows(input: Bytes) returns (tail: Bytes)
    requires IsClean(Parsed(input))
    ensures forall f :: f in ListOf(Parsed(input)) ==> TAG_LEN <= |f| <= CHUNK_SIZE + TAG_LEN
    ensures |tail| < 4 && input == WireOf(ListOf(Parsed(input))) + tail
    decreases |input|
  {
    match ReadFrameOf(input)
    case Malformed => assert false;
    case End => tail := input;
    case Frame(f, rest) =>
      OneFrame(input);
      tail := ParsedShows(rest);
      var list := ListOf(Parsed(rest));
      assert ListOf(Parsed(input)) == [f] + list && ([f] + list)[1..] == list;
      Assoc(ToBE(|f|) + f, WireOf(list), tail);
  }

  lemma {:induction false} StreamParses(frames: seq<Bytes>, tail: Bytes)
    requires (forall f :: f in frames ==> TAG_LEN <= |f| <= CHUNK_SIZE + TAG_LEN) && |tail| < 4
    ensures Parsed(WireOf(frames) + tail) == ToFrames(frames)
    decreases |frames|
  {
    if frames == [] {
      assert WireOf(frames) + tail == tail;
    } else {
      StreamParses(frames[1..], tail);
      FrameRoundTrip(frames[0], WireOf(frames[1..]) + tail);
      Assoc(Wire(frames[0]), WireOf(frames[1..]), tail);
    }
  }

  // ----- opening -----

  lemma {:induction false} OpenedShows(a: Aead, prefix: Prefix, i: u32, current: Bytes, fs: Frames) returns (plains: seq<Bytes>)
    requires Opened(a, prefix, i, current, fs).ok
    ensures IsClean(fs) && OpensTo(a, prefix, i, [current] + ListOf(fs), plains)
    ensures Opened(a, prefix, i, current, fs).bytes == Joined(plains)
    decreases fs
  {
    match fs
    case Nil(_) =>
      var plain := a.open(Nonce(prefix, i, true), current).value;
      plains := [plain];
      assert plains[1..] == [] && plain + [] == plain;
    case Cons(next, rest) =>
      var more := OpenedShows(a, prefix, i + 1, next, rest);
      plains := [a.open(Nonce(prefix, i, false), current).value] + more;
      assert plains[1..] == more && ([current] + ListOf(fs))[1..] == [next] + ListOf(rest);
  }

  lemma {:induction false} OpensAll(a: Aead, prefix: Prefix, i: u32, frames: seq<Bytes>, plains: seq<Bytes>)
    requires OpensTo(a, prefix, i, frames, plains)
    ensures Opened(a, prefix, i, frames[0], ToFrames(frames[1..])) == Output(Joined(plains), true)
    decreases |frames|
  {
    if |frames| == 1 {
      assert plains[1..] == [] && plains[0] + [] == plains[0];
    } else {
      assert frames[1..][0] == frames[1] && frames[1..][1..] == frames[2..];
      OpensAll(a, prefix, i + 1, frames[1..], plains[1..]);
    }
  }

  // ----- what decrypts -----

  ghost predicate IsOpenStream(
      a: Aead, input: Bytes, prefix: Prefix, frames: seq<Bytes>, tail: Bytes, plains: seq<Bytes>)
  {
    IsStream(input, prefix, frames, tail) && OpensTo(a, prefix, 0, frames, plains)
  }

  lemma HeaderShows(a: Aead, input: Bytes) returns (prefix: Prefix, body: Bytes)
    requires Decrypted(a, input).ok
    ensures input == MAGIC + prefix + body && Decrypted(a, input) == OpenedAll(a, prefix, Parsed(body))
  {
    var head := |MAGIC| + NONCE_PREFIX_LEN;
    prefix, body := input[|MAGIC|..head], input[head..];
    assert input == input[..|MAGIC|] + prefix + body;
  }

  lemma HeaderRead(a: Aead, prefix: Prefix, body: Bytes)
    ensures Decrypted(a, MAGIC + prefix + body) == OpenedAll(a, prefix, Parsed(body))
  {
    var input, head := MAGIC + prefix + body, |MAGIC| + NONCE_PREFIX_LEN;
    assert input[..|MAGIC|] == MAGIC && input[|MAGIC|..head] == prefix && input[head..] == body;
  }

  lemma BodyShows(a: Aead, prefix: Prefix, body: Bytes) returns (frames: seq<Bytes>, tail: Bytes, plains: seq<Bytes>)
    requires OpenedAll(a, prefix, Parsed(body)).ok
    ensures frames != [] && (forall f :: f in frames ==> TAG_LEN <= |f| <= CHUNK_SIZE + TAG_LEN)
    ensures |tail| < 4 && body == WireOf(frames) + tail
    ensures OpensTo(a, prefix, 0, frames, plains) && OpenedAll(a, prefix, Parsed(body)).bytes == Joined(plains)
  {
    var fs := Parsed(body);
    plains := OpenedShows(a, prefix, 0, fs.head, fs.tail);
    frames := ListOf(fs);
    tail := ParsedShows(body);
  }

  /** Whatever decrypts is a stream of the format, and what is released are its frames, opened. */
  lemma DecryptionShows(a: Aead, input: Bytes)
    returns (prefix: Prefix, frames: seq<Bytes>, tail: Bytes, plains: seq<Bytes>)
    requires Decrypted(a, input).ok
    ensures IsOpenStream(a, input, prefix, frames, tail, plains) && Decrypted(a, input).bytes == Joined(plains)
  {
    var body: Bytes;
    prefix, body := HeaderShows(a, input);
    frames, tail, plains := BodyShows(a, prefix, body);
  }

  /** Every such stream decrypts to its frames, opened. */
  lemma StreamDecrypts(a: Aead, input: Bytes, prefix: Prefix, frames: seq<Bytes>, tail: Bytes, plains: seq<Bytes>)
    requires IsOpenStream(a, input, prefix, frames, tail, plains)
    ensures Decrypted(a, input) == Output(Joined(plains), true)
  {
    HeaderRead(a, prefix, WireOf(frames) + tail);
    StreamParses(frames, tail);
    OpensAll(a, prefix, 0, frames, plains);
  }

  /** So an input decrypts exactly when it is a stream whose frames open. */
  lemma DecryptsMeansStream(a: Aead, input: Bytes)
    ensures Decrypted(a, input).ok <==>
            exists prefix: Prefix, frames, tail, plains :: IsOpenStream(a, input, prefix, frames, tail, plains)
  {
    if Decrypted(a, input).ok {
      var prefix, frames, tail, plains := DecryptionShows(a, input);
    } else if prefix: Prefix, frames, tail, plains :| IsOpenStream(a, input, prefix, frames, tail, plains) {
      StreamDecrypts(a, input, prefix, frames, tail, plains);
      assert false;
    }
  }
}
