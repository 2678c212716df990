/** The printer of v2 profiles, and exactly which profiles survive being printed
    and parsed again. */
module ConfigRoundTrip {
  import opened Schema
  import opened StableSort
  import opened TomlText
  import opened ConfigV2

  // ----- what is printed under each key -----

  const LOCAL := "local"
  const S3_KIND := "s3"
  const ZSTD := "zstd"
  const NO_COMPRESSION := "none"
  const AGE := "age"

  function OptText(o: Option<string>): Option<Value> {
    if o.Some? then Some(Str(o.value)) else None
  }

  function OptNumber(o: Option<int>): Option<Value> {
    if o.Some? then Some(Int(o.value)) else None
  }

  function TextUnless(s: string, default_: string): Option<Value> {
    if s == default_ then None else Some(Str(s))
  }

  function FlagIf(on: bool, b: bool): Option<Value> {
    if on then Some(Bool(b)) else None
  }

  /** The compact text of an S3 destination with a bucket; an empty prefix is left out. */
  function S3Text(bucket: string, prefix: Option<string>): string {
    if prefix.Some? && prefix.value != "" then "s3:" + bucket + "/" + prefix.value else "s3:" + bucket
  }

  /** The compact text of a destination that has one. */
  function DestCompact(d: Destination): Option<string> {
    if d.kind == Some(LOCAL) then (if d.path.Some? then Some("local:" + d.path.value) else None)
    else if d.kind == Some(S3_KIND) then
      if d.s3.Some? && d.s3.value.bucket.Some? then Some(S3Text(d.s3.value.bucket.value, d.s3.value.prefix)) else None
    else None
  }

  /** The text of the only destination: an S3 one without a bucket is printed too. */
  function SingleText(d: Destination): Option<string> {
    if d.kind == Some(S3_KIND) && d.s3.Some? && d.s3.value.bucket.None? then Some("s3:") else DestCompact(d)
  }

  function HasS3Keys(d: Destination): bool {
    d.kind == Some(S3_KIND) && d.s3.Some?
  }

  /** What an element of a destination array prints under a key. */
  function ElementPrinted(d: Destination, k: DestKey): Option<string> {
    var compact := DestCompact(d);
    match k
    case Compact => compact
    case Explicit(DName) => d.name
    case Explicit(DType) => if compact.None? then d.kind else None
    case Explicit(DPath) => if compact.None? then d.path else None
    case Explicit(SBucket) => if compact.None? && d.s3.Some? then d.s3.value.bucket else None
    case Explicit(SPrefix) => if compact.None? && d.s3.Some? then d.s3.value.prefix else None
    case Explicit(SRegion) => if d.s3.Some? && (compact.None? || HasS3Keys(d)) then d.s3.value.region else None
    case Explicit(SEndpoint) => if d.s3.Some? && (compact.None? || HasS3Keys(d)) then d.s3.value.endpoint else None
    case Explicit(SCreds) => if d.s3.Some? && (compact.None? || HasS3Keys(d)) then d.s3.value.creds else None
    case _ => None
  }

  const ELEMENT_KEYS: seq<DestKey> := [
    Explicit(DName), Compact, Explicit(DType), Explicit(DPath), Explicit(SBucket), Explicit(SPrefix),
    Explicit(SRegion), Explicit(SEndpoint), Explicit(SCreds)]

  function ElementLines(d: Destination, keys: seq<DestKey>): seq<DestEntry> {
    if keys == [] then []
    else
      var k := keys[|keys| - 1];
      var v := ElementPrinted(d, k);
      ElementLines(d, keys[..|keys| - 1]) + (if v.Some? then [DestEntry(k, Str(v.value))] else [])
  }

  function PrintElement(d: Destination): seq<DestEntry> {
    ElementLines(d, ELEMENT_KEYS)
  }

  function PrintElements(ds: seq<Destination>): (r: seq<seq<DestEntry>>)
    ensures |r| == |ds| && forall i :: 0 <= i < |ds| ==> r[i] == PrintElement(ds[i])
  {
    seq(|ds|, i requires 0 <= i < |ds| => PrintElement(ds[i]))
  }

  predicate IsSingle(p: Profile) {
    p.destinations == [] && p.destination.kind.Some?
  }

  /** The compact form of a compression that is not the default. */
  function CompressText(c: Compression): Option<string> {
    if c.algorithm == NO_COMPRESSION && c.level == 10 then Some(NO_COMPRESSION)
    else if c.algorithm != ZSTD || c.level != 10 then Some(c.algorithm + ":" + DecimalOf(c.level))
    else None
  }

  function EncryptValue(e: Encryption): Option<Value> {
    if !e.enabled then Some(Bool(false))
    else if e.algorithm == AGE && e.recipient.Some? then Some(Str("age:" + e.recipient.value))
    else None
  }

  function Printed(p: Profile, k: Key): Option<Value> {
    match k
    case Uri => OptText(p.source.uri)
    case UriEnv => OptText(p.source.uriEnv)
    case PreferSecondary => FlagIf(p.source.preferSecondary, true)
    case ConnectTimeout => OptNumber(p.source.connectTimeout)
    case BackupType => TextUnless(p.mode.backupType, "full")
    case OutputMode => TextUnless(p.mode.output, "progress")
    case Precheck => FlagIf(!p.mode.precheck, false)
    case Engine => TextUnless(p.mode.engine, "native")
    case DestName => if IsSingle(p) then OptText(p.destination.name) else None
    case Dest =>
      if p.destinations != [] then Some(Tables(PrintElements(p.destinations)))
      else if IsSingle(p) then OptText(SingleText(p.destination)) else None
    case S3Region => if IsSingle(p) && HasS3Keys(p.destination) then OptText(p.destination.s3.value.region) else None
    case S3Endpoint => if IsSingle(p) && HasS3Keys(p.destination) then OptText(p.destination.s3.value.endpoint) else None
    case S3Creds => if IsSingle(p) && HasS3Keys(p.destination) then OptText(p.destination.s3.value.creds) else None
    case Compress => OptText(CompressText(p.compression))
    case Encrypt => EncryptValue(p.encryption)
    case EncryptAlgorithm => if p.encryption.enabled then TextUnless(p.encryption.algorithm, AGE) else None
    case RecipientFile =>
      if p.encryption.enabled && p.encryption.algorithm != AGE then OptText(p.encryption.recipient) else None
    case IncrInterval => TextUnless(p.incremental.interval, "15m")
    case IncrOnGap => TextUnless(p.incremental.onGap, "promote_full")
    case PgLogical => FlagIf(p.incremental.pgLogical, true)
    case MysqlBinlog => FlagIf(p.incremental.mysqlBinlog, true)
    case KeepFull => OptNumber(p.retention.keepFull)
    case KeepDays => OptNumber(p.retention.keepDays)
    case KeepLast => OptNumber(p.retention.keepLast)
    case _ => None
  }

  const SOURCE_KEYS: seq<Key> := [Uri, UriEnv, PreferSecondary, ConnectTimeout]
  const MODE_KEYS: seq<Key> := [BackupType, OutputMode, Precheck, Engine]
  const DEST_KEYS: seq<Key> := [DestName, Dest]
  const S3_KEYS: seq<Key> := [S3Region, S3Endpoint, S3Creds]
  const CRYPT_KEYS: seq<Key> := [Encrypt, EncryptAlgorithm, RecipientFile]
  const INCR_KEYS: seq<Key> := [IncrInterval, IncrOnGap]
  const CAPTURE_KEYS: seq<Key> := [PgLogical, MysqlBinlog]
  const RETENTION_KEYS: seq<Key> := [KeepFull, KeepDays, KeepLast]

  function Lines(p: Profile, keys: seq<Key>): seq<Entry> {
    if keys == [] then []
    else
      var k := keys[|keys| - 1];
      var v := Printed(p, k);
      Lines(p, keys[..|keys| - 1]) + (if v.Some? then [Entry(k, v.value)] else [])
  }

  /** The keys in the order in which they are printed; an array of destinations
      comes after the rest. */
  function KeyOrder(p: Profile): seq<Key> {
    var start := SOURCE_KEYS + MODE_KEYS;
    var head := if p.destinations == [] then start + DEST_KEYS + S3_KEYS else start;
    var body := head + [Compress] + CRYPT_KEYS + INCR_KEYS + CAPTURE_KEYS + RETENTION_KEYS;
    if p.destinations == [] then body else body + [Dest]
  }

  function Print(p: Profile): seq<Entry> {
    Lines(p, KeyOrder(p))
  }

  // ----- the printer -----

  class Buffer {
    var lines: seq<Entry>

    constructor ()
      ensures lines == []
    {
      lines := [];
    }

    method LineStr(key: Key, text: string)
      modifies this
      ensures lines == old(lines) + [Entry(key, Str(text))]
    {
      lines := lines + [Entry(key, Str(text))];
    }

    method LineOpt(key: Key, text: Option<string>)
      modifies this
      ensures lines == old(lines) + (if text.Some? then [Entry(key, Str(text.value))] else [])
    {
      if text.Some? {
        LineStr(key, text.value);
      }
    }

    method LineRaw(key: Key, value: Value)
      modifies this
      ensures lines == old(lines) + [Entry(key, value)]
    {
      lines := lines + [Entry(key, value)];
    }
  }

  /** The next key of the order has been printed. */
  ghost predicate HasPrinted(p: Profile, keys: seq<Key>, lines: seq<Entry>) {
    lines == Lines(p, keys)
  }

  lemma PrintedNext(p: Profile, keys: seq<Key>, k: Key, before: seq<Entry>, after: seq<Entry>)
    requires HasPrinted(p, keys, before)
    requires after == before + (if Printed(p, k).Some? then [Entry(k, Printed(p, k).value)] else [])
    ensures HasPrinted(p, keys + [k], after)
  {
    assert (keys + [k])[..|keys|] == keys;
  }

  method EmitSource(buf: Buffer, p: Profile, ghost done: seq<Key>)
    requires HasPrinted(p, done, buf.lines)
    modifies buf
    ensures HasPrinted(p, done + SOURCE_KEYS, buf.lines)
  {
    ghost var l0 := buf.lines;
    buf.LineOpt(Uri, p.source.uri);
    ghost var l1 := buf.lines;
    PrintedNext(p, done, Uri, l0, l1);
    buf.LineOpt(UriEnv, p.source.uriEnv);
    ghost var l2 := buf.lines;
    PrintedNext(p, done + [Uri], UriEnv, l1, l2);
    if p.source.preferSecondary {
      buf.LineRaw(PreferSecondary, Bool(true));
    }
    ghost var l3 := buf.lines;
    PrintedNext(p, done + [Uri] + [UriEnv], PreferSecondary, l2, l3);
    if p.source.connectTimeout.Some? {
      buf.LineRaw(ConnectTimeout, Int(p.source.connectTimeout.value));
    }
    PrintedNext(p, done + [Uri] + [UriEnv] + [PreferSecondary], ConnectTimeout, l3, buf.lines);
    assert done + [Uri] + [UriEnv] + [PreferSecondary] + [ConnectTimeout] == done + SOURCE_KEYS;
  }

  method EmitMode(buf: Buffer, p: Profile, ghost done: seq<Key>)
    requires HasPrinted(p, done, buf.lines)
    modifies buf
    ensures HasPrinted(p, done + MODE_KEYS, buf.lines)
  {
    ghost var l0 := buf.lines;
    if p.mode.backupType != "full" {
      buf.LineStr(BackupType, p.mode.backupType);
    }
    ghost var l1 := buf.lines;
    PrintedNext(p, done, BackupType, l0, l1);
    if p.mode.output != "progress" {
      buf.LineStr(OutputMode, p.mode.output);
    }
    ghost var l2 := buf.lines;
    PrintedNext(p, done + [BackupType], OutputMode, l1, l2);
    if !p.mode.precheck {
      buf.LineRaw(Precheck, Bool(false));
    }
    ghost var l3 := buf.lines;
    PrintedNext(p, done + [BackupType] + [OutputMode], Precheck, l2, l3);
    if p.mode.engine != "native" {
      buf.LineStr(Engine, p.mode.engine);
    }
    PrintedNext(p, done + [BackupType] + [OutputMode] + [Precheck], Engine, l3, buf.lines);
    assert done + [BackupType] + [OutputMode] + [Precheck] + [Engine] == done + MODE_KEYS;
  }

  /** Nothing for an endpoint-only profile. */
  method EmitSingleDest(buf: Buffer, p: Profile, ghost done: seq<Key>)
    requires p.destinations == [] && HasPrinted(p, done, buf.lines)
    modifies buf
    ensures HasPrinted(p, done + DEST_KEYS, buf.lines)
  {
    var d := p.destination;
    ghost var l0 := buf.lines;
    if d.kind.Some? {
      buf.LineOpt(DestName, d.name);
    }
    ghost var l1 := buf.lines;
    PrintedNext(p, done, DestName, l0, l1);
    if d.kind == Some(LOCAL) && d.path.Some? {
      buf.LineStr(Dest, "local:" + d.path.value);
    } else if d.kind == Some(S3_KIND) && d.s3.Some? {
      if d.s3.value.bucket.Some? {
        buf.LineStr(Dest, S3Text(d.s3.value.bucket.value, d.s3.value.prefix));
      } else {
        buf.LineStr(Dest, "s3:");
      }
    }
    PrintedNext(p, done + [DestName], Dest, l1, buf.lines);
    assert done + [DestName] + [Dest] == done + DEST_KEYS;
  }

  method EmitS3Keys(buf: Buffer, p: Profile, ghost done: seq<Key>)
    requires p.destinations == [] && HasPrinted(p, done, buf.lines)
    modifies buf
    ensures HasPrinted(p, done + S3_KEYS, buf.lines)
  {
    var d := p.destination;
    var s3 := if d.kind == Some(S3_KIND) && d.s3.Some? then d.s3.value else NO_S3;
    ghost var l0 := buf.lines;
    buf.LineOpt(S3Region, s3.region);
    ghost var l1 := buf.lines;
    PrintedNext(p, done, S3Region, l0, l1);
    buf.LineOpt(S3Endpoint, s3.endpoint);
    ghost var l2 := buf.lines;
    PrintedNext(p, done + [S3Region], S3Endpoint, l1, l2);
    buf.LineOpt(S3Creds, s3.creds);
    PrintedNext(p, done + [S3Region] + [S3Endpoint], S3Creds, l2, buf.lines);
    assert done + [S3Region] + [S3Endpoint] + [S3Creds] == done + S3_KEYS;
  }

  method EmitCompression(buf: Buffer, p: Profile, ghost done: seq<Key>)
    requires HasPrinted(p, done, buf.lines)
    modifies buf
    ensures HasPrinted(p, done + [Compress], buf.lines)
  {
    var c := p.compression;
    ghost var before := buf.lines;
    if c.algorithm == NO_COMPRESSION && c.level == 10 {
      buf.LineStr(Compress, NO_COMPRESSION);
    } else if c.algorithm != ZSTD || c.level != 10 {
      buf.LineStr(Compress, c.algorithm + ":" + DecimalOf(c.level));
    }
    PrintedNext(p, done, Compress, before, buf.lines);
  }

  method EmitEncryption(buf: Buffer, p: Profile, ghost done: seq<Key>)
    requires HasPrinted(p, done, buf.lines)
    modifies buf
    ensures HasPrinted(p, done + CRYPT_KEYS, buf.lines)
  {
    var e := p.encryption;
    var isAge := e.algorithm == AGE;
    ghost var l0 := buf.lines;
    if !e.enabled {
      buf.LineRaw(Encrypt, Bool(false));
    } else if isAge && e.recipient.Some? {
      buf.LineStr(Encrypt, "age:" + e.recipient.value);
    }
    ghost var l1 := buf.lines;
    PrintedNext(p, done, Encrypt, l0, l1);
    if e.enabled && !isAge {
      buf.LineStr(EncryptAlgorithm, e.algorithm);
    }
    ghost var l2 := buf.lines;
    PrintedNext(p, done + [Encrypt], EncryptAlgorithm, l1, l2);
    if e.enabled && !isAge {
      buf.LineOpt(RecipientFile, e.recipient);
    }
    PrintedNext(p, done + [Encrypt] + [EncryptAlgorithm], RecipientFile, l2, buf.lines);
    assert done + [Encrypt] + [EncryptAlgorithm] + [RecipientFile] == done + CRYPT_KEYS;
  }

  method EmitIncremental(buf: Buffer, p: Profile, ghost done: seq<Key>)
    requires HasPrinted(p, done, buf.lines)
    modifies buf
    ensures HasPrinted(p, done + INCR_KEYS, buf.lines)
  {
    var i := p.incremental;
    ghost var l0 := buf.lines;
    if i.interval != "15m" {
      buf.LineStr(IncrInterval, i.interval);
    }
    ghost var l1 := buf.lines;
    PrintedNext(p, done, IncrInterval, l0, l1);
    if i.onGap != "promote_full" {
      buf.LineStr(IncrOnGap, i.onGap);
    }
    PrintedNext(p, done + [IncrInterval], IncrOnGap, l1, buf.lines);
    assert done + [IncrInterval] + [IncrOnGap] == done + INCR_KEYS;
  }

  method EmitCaptures(buf: Buffer, p: Profile, ghost done: seq<Key>)
    requires HasPrinted(p, done, buf.lines)
    modifies buf
    ensures HasPrinted(p, done + CAPTURE_KEYS, buf.lines)
  {
    ghost var l0 := buf.lines;
    if p.incremental.pgLogical {
      buf.LineRaw(PgLogical, Bool(true));
    }
    ghost var l1 := buf.lines;
    PrintedNext(p, done, PgLogical, l0, l1);
    if p.incremental.mysqlBinlog {
      buf.LineRaw(MysqlBinlog, Bool(true));
    }
    PrintedNext(p, done + [PgLogical], MysqlBinlog, l1, buf.lines);
    assert done + [PgLogical] + [MysqlBinlog] == done + CAPTURE_KEYS;
  }

  method EmitRetention(buf: Buffer, p: Profile, ghost done: seq<Key>)
    requires HasPrinted(p, done, buf.lines)
    modifies buf
    ensures HasPrinted(p, done + RETENTION_KEYS, buf.lines)
  {
    var r := p.retention;
    ghost var l0 := buf.lines;
    if r.keepFull.Some? {
      buf.LineRaw(KeepFull, Int(r.keepFull.value));
    }
    ghost var l1 := buf.lines;
    PrintedNext(p, done, KeepFull, l0, l1);
    if r.keepDays.Some? {
      buf.LineRaw(KeepDays, Int(r.keepDays.value));
    }
    ghost var l2 := buf.lines;
    PrintedNext(p, done + [KeepFull], KeepDays, l1, l2);
    if r.keepLast.Some? {
      buf.LineRaw(KeepLast, Int(r.keepLast.value));
    }
    PrintedNext(p, done + [KeepFull] + [KeepDays], KeepLast, l2, buf.lines);
    assert done + [KeepFull] + [KeepDays] + [KeepLast] == done + RETENTION_KEYS;
  }

  /** One profile as it is printed. */
  method EmitProfile(p: Profile) returns (buf: Buffer)
    ensures fresh(buf) && buf.lines == Print(p)
  {
    buf := new Buffer();
    EmitSource(buf, p, []);
    assert [] + SOURCE_KEYS == SOURCE_KEYS;
    EmitMode(buf, p, SOURCE_KEYS);
    ghost var done := SOURCE_KEYS + MODE_KEYS;
    if p.destinations == [] {
      EmitSingleDest(buf, p, done);
      EmitS3Keys(buf, p, done + DEST_KEYS);
      done := done + DEST_KEYS + S3_KEYS;
    }
    EmitCompression(buf, p, done);
    EmitEncryption(buf, p, done + [Compress]);
    EmitIncremental(buf, p, done + [Compress] + CRYPT_KEYS);
    EmitCaptures(buf, p, done + [Compress] + CRYPT_KEYS + INCR_KEYS);
    EmitRetention(buf, p, done + [Compress] + CRYPT_KEYS + INCR_KEYS + CAPTURE_KEYS);
    done := done + [Compress] + CRYPT_KEYS + INCR_KEYS + CAPTURE_KEYS + RETENTION_KEYS;
    if p.destinations != [] {
      ghost var before := buf.lines;
      buf.LineRaw(Dest, Tables(PrintElements(p.destinations)));
      PrintedNext(p, done, Dest, before, buf.lines);
      done := done + [Dest];
    }
  }

  // ----- no key is printed twice -----

  ghost predicate NoKeyTwice(es: seq<Entry>) {
    forall i, j :: 0 <= i < j < |es| ==> es[i].key != es[j].key
  }

  ghost predicate NoDestKeyTwice(es: seq<DestEntry>) {
    forall i, j :: 0 <= i < j < |es| ==> es[i].key != es[j].key
  }

  /** The groups of keys in the order of printing. */
  function GroupOf(k: Key, destAtEnd: bool): nat {
    match k
    case Uri | UriEnv | PreferSecondary | ConnectTimeout => 0
    case BackupType | OutputMode | Precheck | Engine => 1
    case Dest => if destAtEnd then 9 else 2
    case DestName => 2
    case S3Region | S3Endpoint | S3Creds => 3
    case Compress => 4
    case Encrypt | EncryptAlgorithm | RecipientFile => 5
    case IncrInterval | IncrOnGap => 6
    case PgLogical | MysqlBinlog => 7
    case KeepFull | KeepDays | KeepLast => 8
    case _ => 10
  }

  /** Distinct keys of groups before `g`. */
  ghost predicate AreBefore(keys: seq<Key>, atEnd: bool, g: nat) {
    keys != [] ==>
      && AreBefore(keys[..|keys| - 1], atEnd, g)
      && keys[|keys| - 1] !in keys[..|keys| - 1] && GroupOf(keys[|keys| - 1], atEnd) < g
  }

  lemma {:induction false} BeforeMore(keys: seq<Key>, atEnd: bool, g: nat, h: nat)
    requires AreBefore(keys, atEnd, g) && g <= h
    ensures AreBefore(keys, atEnd, h) && forall k :: k in keys ==> GroupOf(k, atEnd) < g
  {
    if keys != [] {
      BeforeMore(keys[..|keys| - 1], atEnd, g, h);
      FrontLast(keys);
    }
  }

  ghost predicate IsGroup(keys: seq<Key>, atEnd: bool, g: nat) {
    && (forall k :: k in keys ==> GroupOf(k, atEnd) == g)
    && (forall i, j :: 0 <= i < j < |keys| ==> keys[i] != keys[j])
  }

  lemma {:induction false} AddGroup(before: seq<Key>, keys: seq<Key>, atEnd: bool, g: nat)
    requires AreBefore(before, atEnd, g) && IsGroup(keys, atEnd, g)
    ensures AreBefore(before + keys, atEnd, g + 1)
    decreases |keys|
  {
    BeforeMore(before, atEnd, g, g + 1);
    if keys == [] {
      assert before + keys == before;
    } else {
      var front, last := keys[..|keys| - 1], keys[|keys| - 1];
      FrontLast(keys);
      assert last in keys;
      AddGroup(before, front, atEnd, g);
      assert (before + keys)[..|before + keys| - 1] == before + front;
    }
  }

  lemma {:induction false} BeforeIsDistinct(keys: seq<Key>, atEnd: bool, g: nat)
    requires AreBefore(keys, atEnd, g)
    ensures forall i, j :: 0 <= i < j < |keys| ==> keys[i] != keys[j]
  {
    if keys != [] {
      BeforeIsDistinct(keys[..|keys| - 1], atEnd, g);
    }
  }

  lemma SourceIsGroup(atEnd: bool)
    ensures IsGroup(SOURCE_KEYS, atEnd, 0)
  {
  }

  lemma ModeIsGroup(atEnd: bool)
    ensures IsGroup(MODE_KEYS, atEnd, 1)
  {
  }

  lemma DestIsGroup()
    ensures IsGroup(DEST_KEYS, false, 2) && IsGroup([Dest], true, 9)
  {
  }

  lemma S3IsGroup(atEnd: bool)
    ensures IsGroup(S3_KEYS, atEnd, 3)
  {
  }

  lemma CryptIsGroup(atEnd: bool)
    ensures IsGroup([Compress], atEnd, 4) && IsGroup(CRYPT_KEYS, atEnd, 5)
  {
  }

  lemma IncrIsGroup(atEnd: bool)
    ensures IsGroup(INCR_KEYS, atEnd, 6) && IsGroup(CAPTURE_KEYS, atEnd, 7)
  {
  }

  lemma RetentionIsGroup(atEnd: bool)
    ensures IsGroup(RETENTION_KEYS, atEnd, 8)
  {
  }

  lemma AddGroups(before: seq<Key>, a: seq<Key>, b: seq<Key>, atEnd: bool, g: nat)
    requires AreBefore(before, atEnd, g) && IsGroup(a, atEnd, g) && IsGroup(b, atEnd, g + 1)
    ensures AreBefore(before + a + b, atEnd, g + 2)
  {
    AddGroup(before, a, atEnd, g);
    AddGroup(before + a, b, atEnd, g + 1);
  }

  lemma HeadGroups(p: Profile) returns (head: seq<Key>)
    ensures head == if p.destinations == [] then SOURCE_KEYS + MODE_KEYS + DEST_KEYS + S3_KEYS else SOURCE_KEYS + MODE_KEYS
    ensures AreBefore(head, p.destinations != [], 4)
  {
    var atEnd := p.destinations != [];
    SourceIsGroup(atEnd);
    ModeIsGroup(atEnd);
    AddGroups([], SOURCE_KEYS, MODE_KEYS, atEnd, 0);
    assert [] + SOURCE_KEYS == SOURCE_KEYS;
    head := SOURCE_KEYS + MODE_KEYS;
    if atEnd {
      BeforeMore(head, atEnd, 2, 4);
    } else {
      DestIsGroup();
      S3IsGroup(atEnd);
      AddGroups(head, DEST_KEYS, S3_KEYS, atEnd, 2);
      head := head + DEST_KEYS + S3_KEYS;
    }
  }

  lemma BodyGroups(head: seq<Key>, atEnd: bool)
    requires AreBefore(head, atEnd, 4)
    ensures AreBefore(head + [Compress] + CRYPT_KEYS + INCR_KEYS + CAPTURE_KEYS + RETENTION_KEYS, atEnd, 9)
  {
    CryptIsGroup(atEnd);
    AddGroups(head, [Compress], CRYPT_KEYS, atEnd, 4);
    IncrIsGroup(atEnd);
    AddGroups(head + [Compress] + CRYPT_KEYS, INCR_KEYS, CAPTURE_KEYS, atEnd, 6);
    RetentionIsGroup(atEnd);
    AddGroup(head + [Compress] + CRYPT_KEYS + INCR_KEYS + CAPTURE_KEYS, RETENTION_KEYS, atEnd, 8);
  }

  lemma OrderIsDistinct(p: Profile)
    ensures forall i, j :: 0 <= i < j < |KeyOrder(p)| ==> KeyOrder(p)[i] != KeyOrder(p)[j]
  {
    var atEnd := p.destinations != [];
    var head := HeadGroups(p);
    BodyGroups(head, atEnd);
    var body := head + [Compress] + CRYPT_KEYS + INCR_KEYS + CAPTURE_KEYS + RETENTION_KEYS;
    if atEnd {
      AddGroup(body, [Dest], atEnd, 9);
      BeforeIsDistinct(body + [Dest], atEnd, 10);
    } else {
      BeforeIsDistinct(body, atEnd, 9);
    }
  }

  lemma {:induction false} LinesOnce(p: Profile, keys: seq<Key>)
    requires forall i, j :: 0 <= i < j < |keys| ==> keys[i] != keys[j]
    ensures NoKeyTwice(Lines(p, keys)) && forall e :: e in Lines(p, keys) ==> e.key in keys
  {
    if keys != [] {
      LinesOnce(p, keys[..|keys| - 1]);
      FrontLast(keys);
    }
  }

  lemma {:induction false} ElementLinesOnce(d: Destination, keys: seq<DestKey>)
    requires forall i, j :: 0 <= i < j < |keys| ==> keys[i] != keys[j]
    ensures NoDestKeyTwice(ElementLines(d, keys)) && forall e :: e in ElementLines(d, keys) ==> e.key in keys
  {
    if keys != [] {
      ElementLinesOnce(d, keys[..|keys| - 1]);
      FrontLast(keys);
    }
  }

  /** No key is printed twice, neither for a profile nor for an element of its array. */
  lemma PrintsNoKeyTwice(p: Profile, d: Destination)
    ensures NoKeyTwice(Print(p)) && NoDestKeyTwice(PrintElement(d))
  {
    OrderIsDistinct(p);
    LinesOnce(p, KeyOrder(p));
    ElementLinesOnce(d, ELEMENT_KEYS);
  }
}
