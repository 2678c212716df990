/** The v2 configuration surface: a printer that leaves out documented defaults and
    uses compact forms, and a parser that expands flat keys into nested settings.
    Parsing what was printed gives the configuration back exactly when it is one
    that the printer can express. */
module ConfigV2 {
  import opened Schema
  import opened StableSort
  import opened TomlText

  // ----- settings -----

  type u64 = x: int | 0 <= x < 0x1_0000_0000_0000_0000

  type i32 = x: int | -0x8000_0000 <= x < 0x8000_0000

  datatype Source = Source(
    uri: Option<string>, uriEnv: Option<string>, preferSecondary: bool,
    readUri: Option<string>, readUriEnv: Option<string>, connectTimeout: Option<u64>)

  datatype Mode = Mode(backupType: string, output: string, precheck: bool, engine: string)

  datatype S3 = S3(
    endpoint: Option<string>, bucket: Option<string>, prefix: Option<string>, region: Option<string>,
    creds: Option<string>)

  datatype Destination = Destination(
    name: Option<string>, kind: Option<string>, path: Option<string>, s3: Option<S3>)

  datatype Compression = Compression(algorithm: string, level: i32)

  datatype Encryption = Encryption(enabled: bool, algorithm: string, recipient: Option<string>)

  datatype IncrementalSettings = IncrementalSettings(interval: string, onGap: string, pgLogical: bool, mysqlBinlog: bool)

  datatype Retention = Retention(
    keepFull: Option<u32>, keepDays: Option<u32>, keepLast: Option<u32>,
    recoveryWindowDays: Option<u32>, minRedundancy: Option<u32>)

  datatype Daemon = Daemon(schedule: Option<string>, webhookEnv: Option<string>)

  datatype Hooks = Hooks(
    preBackup: Option<string>, postBackup: Option<string>, preRestore: Option<string>, postRestore: Option<string>,
    prePrune: Option<string>, postPrune: Option<string>, onError: Option<string>, timeout: Option<u64>)

  datatype Profile = Profile(
    source: Source, mode: Mode, destination: Destination, destinations: seq<Destination>,
    compression: Compression, encryption: Encryption, incremental: IncrementalSettings, retention: Retention,
    hooks: Hooks, daemon: Daemon)

  const NO_S3: S3 := S3(None, None, None, None, None)
  const NO_DESTINATION: Destination := Destination(None, None, None, None)
  const NO_HOOKS: Hooks := Hooks(None, None, None, None, None, None, None, None)

  // ----- keys and values -----

  /** The flat keys of a profile. */
  datatype Key =
    | Uri | UriEnv | ReadUri | ReadUriEnv | PreferSecondary | ConnectTimeout
    | BackupType | OutputMode | Precheck | Engine
    | Dest | DestName | S3Bucket | S3Prefix | S3Region | S3Endpoint | S3Creds
    | Compress | CompressAlgorithm | CompressLevel
    | Encrypt | EncryptAlgorithm | RecipientFile
    | IncrInterval | IncrOnGap | PgLogical | MysqlBinlog
    | KeepFull | KeepDays | KeepLast | RecoveryWindowDays | MinRedundancy
    | HookPreBackup | HookPostBackup | HookPreRestore | HookPostRestore
    | HookPrePrune | HookPostPrune | HookOnError | HookTimeout
    | Schedule | NotifyWebhookEnv | ExtendsKey | UnknownKey(name: string)

  /** The nested settings that flat keys set: mostly one each. */
  datatype Field =
    | Plain(key: Key) | EncryptEnabled | Destinations
    | DName | DType | DPath | SBucket | SPrefix | SRegion | SEndpoint | SCreds

  /** The keys of one element of a destination array. */
  datatype DestKey = Compact | Explicit(field: Field) | UnknownDestKey(name: string)

  datatype DestEntry = DestEntry(key: DestKey, value: Value)

  datatype Value =
    | Str(s: string) | Bool(b: bool) | Int(n: int)
    | Tables(elems: seq<seq<DestEntry>>)
    | Expanded(dests: seq<map<Field, Value>>)

  type Nested = map<Field, Value>

  datatype Entry = Entry(key: Key, value: Value)

  datatype ConfigError = BadToml | NoScheme | EmptyPath | EmptyBucket | UnknownScheme | BadDest | BadCompress
                       | BadEncrypt | Unknown | BadType

  // ----- parsing: compact forms -----

  function ParseDestCompact(s: string): Result<Nested, ConfigError> {
    var parts := SplitOnce(s, ':');
    if parts.None? then Err(NoScheme)
    else
      var (scheme, rest) := parts.value;
      if scheme == "local" then
        if rest == "" then Err(EmptyPath) else Ok(map[DType := Str("local"), DPath := Str(rest)])
      else if scheme == "s3" then
        var split := SplitOnce(rest, '/');
        var bucket := if split.Some? then split.value.0 else rest;
        var prefix := if split.Some? then split.value.1 else "";
        if bucket == "" then Err(EmptyBucket)
        else if prefix == "" then Ok(map[DType := Str("s3"), SBucket := Str(bucket)])
        else Ok(map[DType := Str("s3"), SBucket := Str(bucket), SPrefix := Str(prefix)])
      else Err(UnknownScheme)
  }

  function ParseCompress(v: Value): Result<Nested, ConfigError> {
    if !v.Str? then Err(BadCompress)
    else
      var parts := SplitOnce(v.s, ':');
      var algorithm := if parts.Some? then parts.value.0 else v.s;
      if algorithm == "" then Err(BadCompress)
      else if parts.None? then Ok(map[Plain(CompressAlgorithm) := Str(algorithm)])
      else
        var level := ParseI64(parts.value.1);
        if level.None? then Err(BadCompress)
        else Ok(map[Plain(CompressAlgorithm) := Str(algorithm), Plain(CompressLevel) := Int(level.value)])
  }

  function ParseEncrypt(v: Value): Result<Nested, ConfigError> {
    if v.Bool? then Ok(map[EncryptEnabled := v])
    else if !v.Str? then Err(BadEncrypt)
    else if v.s == "off" || v.s == "false" then Ok(map[EncryptEnabled := Bool(false)])
    else
      var parts := SplitOnce(v.s, ':');
      var algorithm := if parts.Some? then parts.value.0 else v.s;
      var recipient := if parts.Some? then parts.value.1 else "";
      if algorithm == "" then Err(BadEncrypt)
      else
        var m: Nested := map[EncryptEnabled := Bool(true), Plain(EncryptAlgorithm) := Str(algorithm)];
        Ok(if recipient == "" then m else m[Plain(RecipientFile) := Str(recipient)])
  }

  predicate IsDestField(f: Field) {
    f in {DName, DType, DPath, SBucket, SPrefix, SRegion, SEndpoint, SCreds}
  }

  // ----- parsing: one element of a destination array -----

  function DestContribution(e: DestEntry): Result<Nested, ConfigError> {
    match e.key
    case Compact => if e.value.Str? then ParseDestCompact(e.value.s) else Err(BadDest)
    case Explicit(f) => if IsDestField(f) then Ok(map[f := e.value]) else Err(Unknown)
    case UnknownDestKey(_) => Err(Unknown)
  }

  /** Settings merged in order: a later one replaces an earlier one. */
  function MergeAll(cs: seq<Result<Nested, ConfigError>>): Result<Nested, ConfigError> {
    if cs == [] then Ok(map[])
    else
      var before := MergeAll(cs[..|cs| - 1]);
      var c := cs[|cs| - 1];
      if before.Err? then before else if c.Err? then c else Ok(before.value + c.value)
  }

  lemma {:induction false} MergeStops(cs: seq<Result<Nested, ConfigError>>, k: nat)
    requires k <= |cs|
    ensures MergeAll(cs[..k]).Err? ==> MergeAll(cs) == MergeAll(cs[..k])
  {
    if k == |cs| {
      assert cs[..k] == cs;
    } else {
      MergeStops(cs[..|cs| - 1], k);
      assert cs[..|cs| - 1][..k] == cs[..k];
    }
  }

  lemma MergeStep(cs: seq<Result<Nested, ConfigError>>, i: nat)
    requires i < |cs| && MergeAll(cs[..i]).Ok?
    ensures if cs[i].Err? then MergeAll(cs) == cs[i]
            else MergeAll(cs[..i + 1]) == Ok(MergeAll(cs[..i]).value + cs[i].value)
  {
    assert cs[..i + 1][..i] == cs[..i];
    MergeStops(cs, i + 1);
  }

  function DestContributions(es: seq<DestEntry>): (cs: seq<Result<Nested, ConfigError>>)
    ensures |cs| == |es| && forall i :: 0 <= i < |es| ==> cs[i] == DestContribution(es[i])
  {
    seq(|es|, i requires 0 <= i < |es| => DestContribution(es[i]))
  }

  function ExpandElement(es: seq<DestEntry>): Result<Nested, ConfigError> {
    MergeAll(DestContributions(es))
  }

  function ExpandElements(elems: seq<seq<DestEntry>>): Result<seq<Nested>, ConfigError> {
    if elems == [] then Ok([])
    else
      var before := ExpandElements(elems[..|elems| - 1]);
      var last := ExpandElement(elems[|elems| - 1]);
      if before.Err? then before else if last.Err? then Err(last.error) else Ok(before.value + [last.value])
  }

  method ExpandDestArray(elems: seq<seq<DestEntry>>) returns (r: Result<seq<Nested>, ConfigError>)
    ensures r == ExpandElements(elems)
  {
    var out: seq<Nested> := [];
    for i := 0 to |elems|
      invariant ExpandElements(elems[..i]) == Ok(out)
    {
      assert elems[..i + 1][..i] == elems[..i];
      ElementsStop(elems, i + 1);
      var es := elems[i];
      var d: Nested := map[];
      ghost var cs := DestContributions(es);
      for j := 0 to |es|
        invariant MergeAll(cs[..j]) == Ok(d)
      {
        MergeStep(cs, j);
        var c := DestContribution(es[j]);
        if c.Err? {
          return Err(c.error);
        }
        d := d + c.value;
      }
      assert cs[..|es|] == cs;
      out := out + [d];
    }
    assert elems[..|elems|] == elems;
    r := Ok(out);
  }

  lemma {:induction false} ElementsStop(elems: seq<seq<DestEntry>>, k: nat)
    requires k <= |elems|
    ensures ExpandElements(elems[..k]).Err? ==> ExpandElements(elems) == ExpandElements(elems[..k])
  {
    if k == |elems| {
      assert elems[..k] == elems;
    } else {
      ElementsStop(elems[..|elems| - 1], k);
      assert elems[..|elems| - 1][..k] == elems[..k];
    }
  }

  // ----- parsing: a profile -----

  /** What one flat key sets. */
  function Contribution(e: Entry): Result<Nested, ConfigError> {
    match e.key
    case Dest =>
      if e.value.Str? then ParseDestCompact(e.value.s)
      else if e.value.Tables? then
        var ds := ExpandElements(e.value.elems);
        if ds.Err? then Err(ds.error) else Ok(map[Destinations := Expanded(ds.value)])
      else Err(BadDest)
    case DestName => Ok(map[DName := e.value])
    case S3Bucket => Ok(map[SBucket := e.value])
    case S3Prefix => Ok(map[SPrefix := e.value])
    case S3Region => Ok(map[SRegion := e.value])
    case S3Endpoint => Ok(map[SEndpoint := e.value])
    case S3Creds => Ok(map[SCreds := e.value])
    case Compress => ParseCompress(e.value)
    case Encrypt => ParseEncrypt(e.value)
    case ExtendsKey => Ok(map[])
    case UnknownKey(_) => Err(Unknown)
    case k => Ok(map[Plain(k) := e.value])
  }

  function Contributions(es: seq<Entry>): (cs: seq<Result<Nested, ConfigError>>)
    ensures |cs| == |es| && forall i :: 0 <= i < |es| ==> cs[i] == Contribution(es[i])
  {
    seq(|es|, i requires 0 <= i < |es| => Contribution(es[i]))
  }

  /** The entries, in the order in which the table yields them. */
  function Expand(es: seq<Entry>): Result<Nested, ConfigError> {
    MergeAll(Contributions(es))
  }

  method ExpandProfile(es: seq<Entry>) returns (r: Result<Nested, ConfigError>)
    ensures r == Expand(es)
  {
    var profile: Nested := map[];
    ghost var cs := Contributions(es);
    for i := 0 to |es|
      invariant MergeAll(cs[..i]) == Ok(profile)
    {
      MergeStep(cs, i);
      var e := es[i];
      if e.key == Dest && e.value.Tables? {
        var ds := ExpandDestArray(e.value.elems);
        if ds.Err? {
          return Err(ds.error);
        }
        profile := profile + map[Destinations := Expanded(ds.value)];
      } else {
        var c := Contribution(e);
        if c.Err? {
          return Err(c.error);
        }
        profile := profile + c.value;
      }
    }
    assert cs[..|es|] == cs;
    r := Ok(profile);
  }

  // ----- decoding nested settings -----

  datatype Kind = KStr | KBool | KU32 | KU64 | KI32 | KDests

  function KindOf(f: Field): Kind {
    match f
    case Plain(PreferSecondary) => KBool
    case Plain(Precheck) => KBool
    case Plain(PgLogical) => KBool
    case Plain(MysqlBinlog) => KBool
    case EncryptEnabled => KBool
    case Plain(ConnectTimeout) => KU64
    case Plain(HookTimeout) => KU64
    case Plain(CompressLevel) => KI32
    case Plain(KeepFull) => KU32
    case Plain(KeepDays) => KU32
    case Plain(KeepLast) => KU32
    case Plain(RecoveryWindowDays) => KU32
    case Plain(MinRedundancy) => KU32
    case Destinations => KDests
    case _ => KStr
  }

  predicate IsText(d: Nested) {
    forall f :: f in d ==> d[f].Str?
  }

  predicate HasKind(v: Value, k: Kind) {
    match k
    case KStr => v.Str?
    case KBool => v.Bool?
    case KU32 => v.Int? && 0 <= v.n < 0x1_0000_0000
    case KU64 => v.Int? && 0 <= v.n < 0x1_0000_0000_0000_0000
    case KI32 => v.Int? && -0x8000_0000 <= v.n < 0x8000_0000
    case KDests => v.Expanded? && forall d :: d in v.dests ==> IsText(d)
  }

  const DEST_FIELDS: set<Field> := {DName, DType, DPath, SBucket, SPrefix, SRegion, SEndpoint, SCreds}

  /** An array of destinations drops the keys of a single one, whatever they hold. */
  predicate IsDropped(m: Nested, f: Field) {
    Destinations in m && f in DEST_FIELDS
  }

  predicate IsWellTyped(m: Nested) {
    forall f :: f in m && !IsDropped(m, f) ==> HasKind(m[f], KindOf(f))
  }

  function OptStr(m: Nested, f: Field): Option<string> {
    if f in m && m[f].Str? then Some(m[f].s) else None
  }

  function StrOr(m: Nested, f: Field, d: string): string {
    if f in m && m[f].Str? then m[f].s else d
  }

  function BoolOr(m: Nested, f: Field, d: bool): bool {
    if f in m && m[f].Bool? then m[f].b else d
  }

  function OptU32(m: Nested, f: Field): Option<u32> {
    if f in m && m[f].Int? && 0 <= m[f].n < 0x1_0000_0000 then Some(m[f].n) else None
  }

  function OptU64(m: Nested, f: Field): Option<u64> {
    if f in m && m[f].Int? && 0 <= m[f].n < 0x1_0000_0000_0000_0000 then Some(m[f].n) else None
  }

  function I32Or(m: Nested, f: Field, d: i32): i32 {
    if f in m && m[f].Int? && -0x8000_0000 <= m[f].n < 0x8000_0000 then m[f].n else d
  }

  /** The table under `s3` exists when one of its keys does. */
  function DestinationOf(m: Nested): Destination {
    Destination(
      OptStr(m, DName), OptStr(m, DType), OptStr(m, DPath),
      if SBucket in m || SPrefix in m || SRegion in m || SEndpoint in m || SCreds in m
      then Some(S3(OptStr(m, SEndpoint), OptStr(m, SBucket), OptStr(m, SPrefix), OptStr(m, SRegion), OptStr(m, SCreds)))
      else None)
  }

  function DestinationsOf(ds: seq<Nested>): (r: seq<Destination>)
    ensures |r| == |ds|
    ensures forall i :: 0 <= i < |ds| ==> r[i] == DestinationOf(ds[i])
  {
    seq(|ds|, i requires 0 <= i < |ds| => DestinationOf(ds[i]))
  }

  function SourceOf(m: Nested): Source {
    Source(OptStr(m, Plain(Uri)), OptStr(m, Plain(UriEnv)), BoolOr(m, Plain(PreferSecondary), false),
           OptStr(m, Plain(ReadUri)), OptStr(m, Plain(ReadUriEnv)), OptU64(m, Plain(ConnectTimeout)))
  }

  function ModeOf(m: Nested): Mode {
    Mode(StrOr(m, Plain(BackupType), "full"), StrOr(m, Plain(OutputMode), "progress"),
         BoolOr(m, Plain(Precheck), true), StrOr(m, Plain(Engine), "native"))
  }

  function CompressionOf(m: Nested): Compression {
    Compression(StrOr(m, Plain(CompressAlgorithm), "zstd"), I32Or(m, Plain(CompressLevel), 10))
  }

  function EncryptionOf(m: Nested): Encryption {
    Encryption(BoolOr(m, EncryptEnabled, true), StrOr(m, Plain(EncryptAlgorithm), "age"), OptStr(m, Plain(RecipientFile)))
  }

  function IncrementalOf(m: Nested): IncrementalSettings {
    IncrementalSettings(StrOr(m, Plain(IncrInterval), "15m"), StrOr(m, Plain(IncrOnGap), "promote_full"),
                        BoolOr(m, Plain(PgLogical), false), BoolOr(m, Plain(MysqlBinlog), false))
  }

  function RetentionOf(m: Nested): Retention {
    Retention(OptU32(m, Plain(KeepFull)), OptU32(m, Plain(KeepDays)), OptU32(m, Plain(KeepLast)),
              OptU32(m, Plain(RecoveryWindowDays)), OptU32(m, Plain(MinRedundancy)))
  }

  function HooksOf(m: Nested): Hooks {
    Hooks(OptStr(m, Plain(HookPreBackup)), OptStr(m, Plain(HookPostBackup)), OptStr(m, Plain(HookPreRestore)),
          OptStr(m, Plain(HookPostRestore)), OptStr(m, Plain(HookPrePrune)), OptStr(m, Plain(HookPostPrune)),
          OptStr(m, Plain(HookOnError)), OptU64(m, Plain(HookTimeout)))
  }

  function DaemonOf(m: Nested): Daemon {
    Daemon(OptStr(m, Plain(Schedule)), OptStr(m, Plain(NotifyWebhookEnv)))
  }

  /** An array of destinations takes the place of the single one. */
  function ProfileOf(m: Nested): Profile {
    var many := Destinations in m && m[Destinations].Expanded?;
    Profile(SourceOf(m), ModeOf(m), if many then NO_DESTINATION else DestinationOf(m),
            if many then DestinationsOf(m[Destinations].dests) else [],
            CompressionOf(m), EncryptionOf(m), IncrementalOf(m), RetentionOf(m), HooksOf(m), DaemonOf(m))
  }

  // ----- reading a table -----

  predicate IsReadableTable(es: seq<DestEntry>) {
    forall e :: e in es ==> e.value.Str? && ReadQuoted(Esc(e.value.s)) == Some(e.value.s)
  }

  /** A string that TOML can hold as it is printed, an integer within its range. */
  predicate IsReadable(v: Value) {
    match v
    case Str(s) => ReadQuoted(Esc(s)) == Some(s)
    case Bool(_) => true
    case Int(n) => IsI64(n)
    case Tables(elems) => forall es :: es in elems ==> IsReadableTable(es)
    case Expanded(_) => false
  }

  predicate AllReadable(es: seq<Entry>) {
    forall e :: e in es ==> IsReadable(e.value)
  }

  /** The profile that the entries of its table mean. */
  function Parse(es: seq<Entry>): Result<Profile, ConfigError> {
    if !AllReadable(es) then Err(BadToml)
    else
      var m := Expand(es);
      if m.Err? then Err(m.error)
      else if !IsWellTyped(m.value) then Err(BadType)
      else Ok(ProfileOf(m.value))
  }
}
