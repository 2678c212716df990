/** Which profiles are given back when what was printed is parsed: proved for every
    order in which the tables may yield their entries. */
module ConfigLaws {
  import opened Schema
  import opened StableSort
  import opened TomlText
  import opened ConfigV2
  import opened ConfigRoundTrip

  // ----- what is in a printed profile -----

  lemma {:induction false} LinesHold(p: Profile, keys: seq<Key>, e: Entry)
    ensures e in Lines(p, keys) <==> e.key in keys && Printed(p, e.key) == Some(e.value)
  {
    if keys != [] {
      LinesHold(p, keys[..|keys| - 1], e);
      FrontLast(keys);
    }
  }

  predicate IsBodyKey(k: Key) {
    k in SOURCE_KEYS || k in MODE_KEYS || k == Compress || k in CRYPT_KEYS || k in INCR_KEYS || k in CAPTURE_KEYS
    || k in RETENTION_KEYS
  }

  predicate IsDestKey(k: Key) {
    k in DEST_KEYS || k in S3_KEYS
  }

  lemma KeysAreGrouped(k: Key)
    ensures k in {Uri, UriEnv, PreferSecondary, ConnectTimeout, BackupType, OutputMode, Precheck, Engine} ==> IsBodyKey(k)
    ensures k in {Compress, Encrypt, EncryptAlgorithm, RecipientFile, IncrInterval, IncrOnGap} ==> IsBodyKey(k)
    ensures k in {PgLogical, MysqlBinlog, KeepFull, KeepDays, KeepLast} ==> IsBodyKey(k)
    ensures k in {DestName, Dest, S3Region, S3Endpoint, S3Creds} ==> IsDestKey(k)
  {
    assert SOURCE_KEYS[0] == Uri && SOURCE_KEYS[1] == UriEnv && SOURCE_KEYS[2] == PreferSecondary
           && SOURCE_KEYS[3] == ConnectTimeout;
    assert MODE_KEYS[0] == BackupType && MODE_KEYS[1] == OutputMode && MODE_KEYS[2] == Precheck && MODE_KEYS[3] == Engine;
    assert DEST_KEYS[0] == DestName && DEST_KEYS[1] == Dest;
    assert S3_KEYS[0] == S3Region && S3_KEYS[1] == S3Endpoint && S3_KEYS[2] == S3Creds;
    assert CRYPT_KEYS[0] == Encrypt && CRYPT_KEYS[1] == EncryptAlgorithm && CRYPT_KEYS[2] == RecipientFile;
    assert INCR_KEYS[0] == IncrInterval && INCR_KEYS[1] == IncrOnGap;
    assert CAPTURE_KEYS[0] == PgLogical && CAPTURE_KEYS[1] == MysqlBinlog;
    assert RETENTION_KEYS[0] == KeepFull && RETENTION_KEYS[1] == KeepDays && RETENTION_KEYS[2] == KeepLast;
  }

  lemma OrderHasKey(p: Profile, k: Key)
    requires IsBodyKey(k) || (p.destinations == [] && IsDestKey(k)) || (p.destinations != [] && k == Dest)
    ensures k in KeyOrder(p)
  {
  }

  lemma PrintedIsListed(p: Profile, k: Key)
    requires Printed(p, k).Some?
    ensures k in KeyOrder(p)
  {
    KeysAreGrouped(k);
    assert IsBodyKey(k) || (p.destinations == [] && IsDestKey(k)) || (p.destinations != [] && k == Dest);
    OrderHasKey(p, k);
  }

  lemma PrintHolds(p: Profile, e: Entry)
    ensures e in Print(p) <==> Printed(p, e.key) == Some(e.value)
  {
    LinesHold(p, KeyOrder(p), e);
    if Printed(p, e.key).Some? {
      PrintedIsListed(p, e.key);
    }
  }

  lemma {:induction false} ElementLinesHold(d: Destination, keys: seq<DestKey>, e: DestEntry)
    ensures e in ElementLines(d, keys)
            <==> e.key in keys && ElementPrinted(d, e.key).Some? && e.value == Str(ElementPrinted(d, e.key).value)
  {
    if keys != [] {
      ElementLinesHold(d, keys[..|keys| - 1], e);
      FrontLast(keys);
    }
  }

  lemma ElementHolds(d: Destination, e: DestEntry)
    ensures e in PrintElement(d) <==> ElementPrinted(d, e.key).Some? && e.value == Str(ElementPrinted(d, e.key).value)
  {
    ElementLinesHold(d, ELEMENT_KEYS, e);
    assert ELEMENT_KEYS[0] == Explicit(DName) && ELEMENT_KEYS[1] == Compact && ELEMENT_KEYS[2] == Explicit(DType)
           && ELEMENT_KEYS[3] == Explicit(DPath) && ELEMENT_KEYS[4] == Explicit(SBucket)
           && ELEMENT_KEYS[5] == Explicit(SPrefix) && ELEMENT_KEYS[6] == Explicit(SRegion)
           && ELEMENT_KEYS[7] == Explicit(SEndpoint) && ELEMENT_KEYS[8] == Explicit(SCreds);
  }

  // ----- tables in any order -----

  /** The same value, except for the order within the elements of an array of tables. */
  ghost predicate IsReordered(v: Value, w: Value) {
    v == w
    || (v.Tables? && w.Tables? && |v.elems| == |w.elems|
        && forall i :: 0 <= i < |v.elems| ==> multiset(v.elems[i]) == multiset(w.elems[i]))
  }

  ghost predicate Corresponds(e: Entry, l: Entry) {
    e.key == l.key && IsReordered(e.value, l.value)
  }

  ghost predicate HasLine(e: Entry, lines: seq<Entry>) {
    exists l :: l in lines && Corresponds(e, l)
  }

  ghost predicate HasEntry(l: Entry, es: seq<Entry>) {
    exists e :: e in es && Corresponds(e, l)
  }

  /** A table that was printed as `lines`, in whatever order it yields its entries. */
  ghost predicate IsTableOf(es: seq<Entry>, lines: seq<Entry>) {
    && |es| == |lines|
    && (forall e {:trigger HasLine(e, lines)} :: e in es ==> HasLine(e, lines))
    && (forall l {:trigger HasEntry(l, es)} :: l in lines ==> HasEntry(l, es))
  }

  /** What follows for the table of a printed profile. */
  ghost predicate IsPrintOf(p: Profile, es: seq<Entry>) {
    && (forall e :: e in es ==> Printed(p, e.key).Some? && IsReordered(e.value, Printed(p, e.key).value))
    && (forall k {:trigger Printed(p, k)} :: Printed(p, k).Some? ==> exists e :: e in es && e.key == k)
  }

  ghost predicate AreLinesOf(p: Profile, lines: seq<Entry>) {
    forall e :: e in lines <==> Printed(p, e.key) == Some(e.value)
  }

  lemma LinesArePrint(p: Profile, es: seq<Entry>, lines: seq<Entry>)
    requires IsTableOf(es, lines) && AreLinesOf(p, lines)
    ensures IsPrintOf(p, es)
  {
    forall e | e in es ensures Printed(p, e.key).Some? && IsReordered(e.value, Printed(p, e.key).value) {
      assert HasLine(e, lines);
      var l :| l in lines && Corresponds(e, l);
    }
    forall k | Printed(p, k).Some? ensures exists e :: e in es && e.key == k {
      var l := Entry(k, Printed(p, k).value);
      assert HasEntry(l, es);
      var e :| e in es && Corresponds(e, l);
    }
  }

  lemma PrintIsLines(p: Profile)
    ensures AreLinesOf(p, Print(p))
  {
    forall e ensures e in Print(p) <==> Printed(p, e.key) == Some(e.value) {
      PrintHolds(p, e);
    }
  }

  // ----- merged settings -----

  function GetV(m: Nested, f: Field): Option<Value> {
    if f in m then Some(m[f]) else None
  }

  lemma {:induction false} MergeOk(cs: seq<Result<Nested, ConfigError>>)
    ensures MergeAll(cs).Ok? <==> forall i :: 0 <= i < |cs| ==> cs[i].Ok?
  {
    if cs != [] {
      var front := cs[..|cs| - 1];
      MergeOk(front);
      if MergeAll(cs).Ok? {
        forall i | 0 <= i < |cs| ensures cs[i].Ok? {
          assert i < |front| ==> front[i] == cs[i];
        }
      } else if MergeAll(front).Err? {
        var i :| 0 <= i < |front| && front[i].Err?;
        assert cs[i].Err?;
      }
    }
  }

  /** A merged setting comes from one of the parts. */
  lemma {:induction false} MergeFrom(cs: seq<Result<Nested, ConfigError>>, f: Field) returns (i: nat)
    requires MergeAll(cs).Ok? && f in MergeAll(cs).value
    ensures i < |cs| && cs[i].Ok? && f in cs[i].value && MergeAll(cs).value[f] == cs[i].value[f]
  {
    i := |cs| - 1;
    if f !in cs[i].value {
      i := MergeFrom(cs[..|cs| - 1], f);
    }
  }

  /** And each part's settings are in the merge. */
  lemma {:induction false} MergeHas(cs: seq<Result<Nested, ConfigError>>, i: nat, f: Field)
    requires MergeAll(cs).Ok? && i < |cs| && cs[i].Ok? && f in cs[i].value
    ensures f in MergeAll(cs).value
  {
    if i < |cs| - 1 {
      MergeHas(cs[..|cs| - 1], i, f);
    }
  }

  // ----- compact texts -----

  lemma LocalText(path: string)
    ensures ParseDestCompact("local:" + path)
            == if path == "" then Err(EmptyPath) else Ok(map[DType := Str("local"), DPath := Str(path)])
  {
    SplitAtFirst("local", ':', path);
    assert "local" + [':'] + path == "local:" + path;
  }

  function BucketOf(rest: string): string {
    if SplitOnce(rest, '/').Some? then SplitOnce(rest, '/').value.0 else rest
  }

  function PrefixOf(rest: string): string {
    if SplitOnce(rest, '/').Some? then SplitOnce(rest, '/').value.1 else ""
  }

  lemma S3Parse(rest: string)
    ensures ParseDestCompact("s3:" + rest)
            == if BucketOf(rest) == "" then Err(EmptyBucket)
               else if PrefixOf(rest) == "" then Ok(map[DType := Str("s3"), SBucket := Str(BucketOf(rest))])
               else Ok(map[DType := Str("s3"), SBucket := Str(BucketOf(rest)), SPrefix := Str(PrefixOf(rest))])
  {
    SplitAtFirst("s3", ':', rest);
    assert "s3" + [':'] + rest == "s3:" + rest;
  }

  lemma S3Rest(bucket: string, prefix: Option<string>) returns (rest: string)
    ensures S3Text(bucket, prefix) == "s3:" + rest
    ensures if '/' in bucket then BucketOf(rest) != bucket
            else BucketOf(rest) == bucket && PrefixOf(rest) == (if prefix.Some? then prefix.value else "")
  {
    rest := if prefix.Some? && prefix.value != "" then bucket + "/" + prefix.value else bucket;
    assert S3Text(bucket, prefix) == "s3:" + rest;
    if '/' in bucket {
      SplitParts(rest, '/');
    } else if rest == bucket {
      NothingToSplit(bucket, '/');
    } else {
      SplitAtFirst(bucket, '/', prefix.value);
      assert bucket + ['/'] + prefix.value == rest;
    }
  }

  /** The text of an S3 destination gives bucket and prefix back exactly when the
      bucket is a name without a slash and no empty prefix was left out. */
  lemma S3TextBack(bucket: string, prefix: Option<string>)
    ensures var r := ParseDestCompact(S3Text(bucket, prefix));
            && (r.Ok? ==> GetV(r.value, DType) == Some(Str("s3")) && DPath !in r.value && SBucket in r.value)
            && (r.Ok? && GetV(r.value, SBucket) == Some(Str(bucket)) && GetV(r.value, SPrefix) == OptText(prefix)
                <==> bucket != "" && '/' !in bucket && prefix != Some(""))
  {
    var rest := S3Rest(bucket, prefix);
    S3Parse(rest);
  }

  lemma {:induction false} OnlyDigits(s: string, c: char)
    requires ValueOf(s).Some? && c in s
    ensures '0' <= c <= '9'
  {
    FrontLast(s);
    if c != s[|s| - 1] {
      OnlyDigits(s[..|s| - 1], c);
    }
  }

  lemma NoNumberWithColon(s: string)
    requires ':' in s
    ensures ParseI64(s) == None
  {
    var signed := s[0] == '-' || s[0] == '+';
    var digits := if signed then s[1..] else s;
    HeadTail(s);
    assert ':' in digits;
    if ValueOf(digits).Some? {
      OnlyDigits(digits, ':');
    }
  }

  function CompressNested(c: Compression): Result<Nested, ConfigError> {
    var text := CompressText(c);
    if text.Some? then ParseCompress(Str(text.value)) else Ok(map[])
  }

  predicate IsCanonicalCompression(c: Compression) {
    c.algorithm != "" && ':' !in c.algorithm
  }

  /** The compact text of a compression gives it back exactly when its algorithm is
      not empty and has no colon. */
  lemma CompressionBack(c: Compression)
    ensures var r := CompressNested(c); r.Ok? && CompressionOf(r.value) == c <==> IsCanonicalCompression(c)
  {
    CompressIs(c);
  }

  lemma CompressIs(c: Compression)
    ensures CompressNested(c)
            == if c == Compression(NO_COMPRESSION, 10) then Ok(map[Plain(CompressAlgorithm) := Str(NO_COMPRESSION)])
               else if c == Compression(ZSTD, 10) then Ok(map[])
               else ParseCompress(Str(c.algorithm + ":" + DecimalOf(c.level)))
    ensures IsCanonicalCompression(Compression(NO_COMPRESSION, 10)) && IsCanonicalCompression(Compression(ZSTD, 10))
    ensures var r := ParseCompress(Str(c.algorithm + ":" + DecimalOf(c.level)));
            if IsCanonicalCompression(c)
            then r == Ok(map[Plain(CompressAlgorithm) := Str(c.algorithm), Plain(CompressLevel) := Int(c.level)])
            else r.Err?
  {
    NothingToSplit(NO_COMPRESSION, ':');
    LevelText(c.algorithm, c.level);
  }

  lemma CompressionTyped(c: Compression)
    requires CompressNested(c).Ok?
    ensures IsWellTyped(CompressNested(c).value)
    ensures CompressNested(c).value.Keys <= {Plain(CompressAlgorithm), Plain(CompressLevel)}
  {
    CompressIs(c);
  }

  lemma LevelText(algorithm: string, level: i32)
    ensures var r := ParseCompress(Str(algorithm + ":" + DecimalOf(level)));
            if algorithm == "" || ':' in algorithm then r.Err?
            else r == Ok(map[Plain(CompressAlgorithm) := Str(algorithm), Plain(CompressLevel) := Int(level)])
  {
    var text := DecimalOf(level);
    DecimalRoundTrip(level);
    if ':' in algorithm {
      ColonInAlgorithm(algorithm, text);
    } else {
      SplitAtFirst(algorithm, ':', text);
      assert algorithm + [':'] + text == algorithm + ":" + text;
    }
  }

  lemma ColonInAlgorithm(algorithm: string, level: string)
    requires ':' in algorithm
    ensures ParseCompress(Str(algorithm + ":" + level)).Err?
  {
    SplitParts(algorithm, ':');
    var (a, b) := SplitOnce(algorithm, ':').value;
    SplitAtFirst(a, ':', b + ":" + level);
    assert a + [':'] + (b + ":" + level) == algorithm + ":" + level;
    assert (b + ":" + level)[|b|] == ':';
    NoNumberWithColon(b + ":" + level);
  }

  // ----- elements of a destination array -----

  const COMPACT_FIELDS: set<Field> := {DType, DPath, SBucket, SPrefix}

  /** The settings that a printed element expands to. */
  function ElementSetting(d: Destination, f: Field): Option<Value> {
    var compact := DestCompact(d);
    if compact.Some? && f in COMPACT_FIELDS then
      var r := ParseDestCompact(compact.value);
      if r.Ok? then GetV(r.value, f) else None
    else if f in DEST_FIELDS then OptText(ElementPrinted(d, Explicit(f)))
    else None
  }

  function ElementNested(d: Destination): Nested {
    map f | f in DEST_FIELDS && ElementSetting(d, f).Some? :: ElementSetting(d, f).value
  }

  predicate CompactParses(d: Destination) {
    DestCompact(d).Some? ==> ParseDestCompact(DestCompact(d).value).Ok?
  }

  lemma CompactSets(s: string)
    requires ParseDestCompact(s).Ok?
    ensures ParseDestCompact(s).value.Keys <= COMPACT_FIELDS
    ensures IsText(ParseDestCompact(s).value)
  {
  }

  lemma ElementContribution(d: Destination, e: DestEntry, f: Field)
    requires ElementPrinted(d, e.key).Some? && e.value == Str(ElementPrinted(d, e.key).value)
    ensures DestContribution(e).Err? ==> !CompactParses(d)
    ensures DestContribution(e).Ok? && f in DestContribution(e).value ==>
              ElementSetting(d, f) == Some(DestContribution(e).value[f])
    ensures e.key == Compact && !CompactParses(d) ==> DestContribution(e).Err?
  {
    if e.key == Compact && DestContribution(e).Ok? {
      CompactSets(e.value.s);
    }
  }

  lemma ElementExpands(d: Destination, es: seq<DestEntry>)
    requires multiset(es) == multiset(PrintElement(d))
    ensures ExpandElement(es).Ok? <==> CompactParses(d)
    ensures ExpandElement(es).Ok? ==> ExpandElement(es).value == ElementNested(d)
  {
    SameMembers(es, PrintElement(d));
    var cs := DestContributions(es);
    MergeOk(cs);
    forall i | 0 <= i < |cs| ensures cs[i].Err? ==> !CompactParses(d) {
      assert es[i] in es;
      ElementHolds(d, es[i]);
      ElementContribution(d, es[i], DName);
    }
    if !CompactParses(d) {
      var e := DestEntry(Compact, Str(DestCompact(d).value));
      ElementHolds(d, e);
      var i :| 0 <= i < |es| && es[i] == e;
      ElementContribution(d, e, DName);
      assert cs[i].Err?;
    } else {
      var m := MergeAll(cs).value;
      forall f ensures GetV(m, f) == ElementSetting(d, f) {
        ElementSettingMerged(d, es, f);
      }
      assert forall f :: f in m <==> f in ElementNested(d) by {
        forall f ensures f in m <==> f in ElementNested(d) {
          assert GetV(m, f) == ElementSetting(d, f);
        }
      }
      forall f | f in m ensures m[f] == ElementNested(d)[f] {
        assert GetV(m, f) == ElementSetting(d, f);
      }
    }
  }

  lemma ElementSettingMerged(d: Destination, es: seq<DestEntry>, f: Field)
    requires multiset(es) == multiset(PrintElement(d))
    requires MergeAll(DestContributions(es)).Ok? && CompactParses(d)
    ensures GetV(MergeAll(DestContributions(es)).value, f) == ElementSetting(d, f)
  {
    SameMembers(es, PrintElement(d));
    var cs := DestContributions(es);
    var m := MergeAll(cs).value;
    if f in m {
      var i := MergeFrom(cs, f);
      assert es[i] in es;
      ElementHolds(d, es[i]);
      ElementContribution(d, es[i], f);
    } else if ElementSetting(d, f).Some? {
      var k := if DestCompact(d).Some? && f in COMPACT_FIELDS then Compact else Explicit(f);
      var e := DestEntry(k, Str(ElementPrinted(d, k).value));
      ElementHolds(d, e);
      var i :| 0 <= i < |es| && es[i] == e;
      MergeOk(cs);
      MergeHas(cs, i, f);
    }
  }

  /** What of an element survives: its compact text must give back type, path and
      bucket, and nothing that the text leaves out may be set. */
  predicate IsCanonicalElement(d: Destination) {
    if d.kind == Some(LOCAL) && d.path.Some? then d.path != Some("") && d.s3 == None
    else if d.kind == Some(S3_KIND) && d.s3.Some? && d.s3.value.bucket.Some? then
      d.path == None && IsCompactBucket(d.s3.value)
    else d.s3 != Some(NO_S3)
  }

  predicate IsCompactBucket(s3: S3) {
    s3.bucket.Some? && s3.bucket != Some("") && '/' !in s3.bucket.value && s3.prefix != Some("")
  }

  lemma ElementSettings(d: Destination, f: Field)
    ensures GetV(ElementNested(d), f) == ElementSetting(d, f)
  {
  }

  lemma ElementIsText(d: Destination)
    ensures IsText(ElementNested(d))
  {
    var compact := DestCompact(d);
    if compact.Some? && ParseDestCompact(compact.value).Ok? {
      CompactSets(compact.value);
    }
    forall f | f in ElementNested(d) ensures ElementNested(d)[f].Str? {
      ElementSettings(d, f);
    }
  }

  /** A destination is read from its eight settings. */
  function DestinationBy(
      name: Option<Value>, kind: Option<Value>, path: Option<Value>, bucket: Option<Value>, prefix: Option<Value>,
      region: Option<Value>, endpoint: Option<Value>, creds: Option<Value>): Destination
  {
    Destination(
      TextOf(name), TextOf(kind), TextOf(path),
      if bucket.Some? || prefix.Some? || region.Some? || endpoint.Some? || creds.Some?
      then Some(S3(TextOf(endpoint), TextOf(bucket), TextOf(prefix), TextOf(region), TextOf(creds)))
      else None)
  }

  function TextOf(v: Option<Value>): Option<string> {
    if v.Some? && v.value.Str? then Some(v.value.s) else None
  }

  lemma DestinationIsBy(m: Nested)
    ensures DestinationOf(m)
            == DestinationBy(GetV(m, DName), GetV(m, DType), GetV(m, DPath), GetV(m, SBucket), GetV(m, SPrefix),
                             GetV(m, SRegion), GetV(m, SEndpoint), GetV(m, SCreds))
  {
  }

  lemma ElementIsBy(d: Destination)
    ensures DestinationOf(ElementNested(d))
            == DestinationBy(ElementSetting(d, DName), ElementSetting(d, DType), ElementSetting(d, DPath),
                             ElementSetting(d, SBucket), ElementSetting(d, SPrefix), ElementSetting(d, SRegion),
                             ElementSetting(d, SEndpoint), ElementSetting(d, SCreds))
  {
    DestinationIsBy(ElementNested(d));
    ElementSettings(d, DName);
    ElementSettings(d, DType);
    ElementSettings(d, DPath);
    ElementSettings(d, SBucket);
    ElementSettings(d, SPrefix);
    ElementSettings(d, SRegion);
    ElementSettings(d, SEndpoint);
    ElementSettings(d, SCreds);
  }

  lemma LocalElementBack(d: Destination)
    requires d.kind == Some(LOCAL) && d.path.Some?
    ensures CompactParses(d) && DestinationOf(ElementNested(d)) == d <==> IsCanonicalElement(d)
  {
    ElementIsBy(d);
    LocalText(d.path.value);
  }

  lemma S3ElementBack(d: Destination)
    requires d.kind == Some(S3_KIND) && d.s3.Some? && d.s3.value.bucket.Some?
    ensures CompactParses(d) && DestinationOf(ElementNested(d)) == d <==> IsCanonicalElement(d)
  {
    ElementIsBy(d);
    var s3 := d.s3.value;
    S3TextBack(s3.bucket.value, s3.prefix);
    S3KeySettings(d);
  }

  lemma S3KeySettings(d: Destination)
    requires d.kind == Some(S3_KIND) && d.s3.Some? && d.s3.value.bucket.Some?
    ensures ElementSetting(d, DName) == OptText(d.name) && ElementSetting(d, SRegion) == OptText(d.s3.value.region)
    ensures ElementSetting(d, SEndpoint) == OptText(d.s3.value.endpoint)
    ensures ElementSetting(d, SCreds) == OptText(d.s3.value.creds)
  {
  }

  lemma ExplicitElementBack(d: Destination)
    requires DestCompact(d).None?
    ensures CompactParses(d) && DestinationOf(ElementNested(d)) == d <==> IsCanonicalElement(d)
  {
    ElementIsBy(d);
  }

  /** An element comes back exactly when it is canonical. */
  lemma ElementBack(d: Destination)
    ensures CompactParses(d) && DestinationOf(ElementNested(d)) == d <==> IsCanonicalElement(d)
  {
    if d.kind == Some(LOCAL) && d.path.Some? {
      LocalElementBack(d);
    } else if d.kind == Some(S3_KIND) && d.s3.Some? && d.s3.value.bucket.Some? {
      S3ElementBack(d);
    } else {
      ExplicitElementBack(d);
    }
  }

  // ----- the destinations of a profile -----

  function NestedElements(ds: seq<Destination>): (r: seq<Nested>)
    ensures |r| == |ds| && forall i :: 0 <= i < |ds| ==> r[i] == ElementNested(ds[i])
  {
    seq(|ds|, i requires 0 <= i < |ds| => ElementNested(ds[i]))
  }

  predicate AllCompactParse(ds: seq<Destination>) {
    forall d :: d in ds ==> CompactParses(d)
  }

  ghost predicate AreReordered(elems: seq<seq<DestEntry>>, ds: seq<Destination>) {
    |elems| == |ds| && forall i :: 0 <= i < |ds| ==> multiset(elems[i]) == multiset(PrintElement(ds[i]))
  }

  lemma {:induction false} ElementsExpand(ds: seq<Destination>, elems: seq<seq<DestEntry>>)
    requires AreReordered(elems, ds)
    ensures ExpandElements(elems).Ok? <==> AllCompactParse(ds)
    ensures ExpandElements(elems).Ok? ==> ExpandElements(elems).value == NestedElements(ds)
  {
    if ds != [] {
      var n := |ds| - 1;
      ElementsExpand(ds[..n], elems[..n]);
      ElementExpands(ds[n], elems[n]);
      LastElement(ds);
    }
  }

  lemma LastElement(ds: seq<Destination>)
    requires ds != []
    ensures var n := |ds| - 1;
            && (AllCompactParse(ds) <==> AllCompactParse(ds[..n]) && CompactParses(ds[n]))
            && NestedElements(ds) == NestedElements(ds[..n]) + [ElementNested(ds[n])]
  {
    FrontLast(ds);
  }

  predicate AllCanonicalElements(ds: seq<Destination>) {
    forall d :: d in ds ==> IsCanonicalElement(d)
  }

  lemma {:induction false} ElementsBack(ds: seq<Destination>)
    ensures AllCompactParse(ds) && DestinationsOf(NestedElements(ds)) == ds <==> AllCanonicalElements(ds)
  {
    if ds != [] {
      var n := |ds| - 1;
      ElementsBack(ds[..n]);
      ElementBack(ds[n]);
      FrontLast(ds);
      LastElement(ds);
      assert AllCanonicalElements(ds) <==> AllCanonicalElements(ds[..n]) && IsCanonicalElement(ds[n]);
      assert DestinationsOf(NestedElements(ds))
             == DestinationsOf(NestedElements(ds[..n])) + [DestinationOf(ElementNested(ds[n]))];
      SplitLast(DestinationsOf(NestedElements(ds[..n])), DestinationOf(ElementNested(ds[n])), ds);
    }
  }

  lemma SplitLast(front: seq<Destination>, last: Destination, all: seq<Destination>)
    requires all != [] && |front| == |all| - 1
    ensures front + [last] == all <==> front == all[..|all| - 1] && last == all[|all| - 1]
  {
    FrontLast(all);
    assert (front + [last])[..|front|] == front;
  }

  predicate SingleParses(d: Destination) {
    d.kind.Some? && SingleText(d).Some? ==> ParseDestCompact(SingleText(d).value).Ok?
  }

  /** The settings that the keys of a single destination set. */
  function SingleSetting(d: Destination, f: Field): Option<Value> {
    if d.kind.None? then None
    else if f in COMPACT_FIELDS then
      if SingleText(d).Some? && ParseDestCompact(SingleText(d).value).Ok?
      then GetV(ParseDestCompact(SingleText(d).value).value, f)
      else None
    else if f == DName then OptText(d.name)
    else if !HasS3Keys(d) then None
    else if f == SRegion then OptText(d.s3.value.region)
    else if f == SEndpoint then OptText(d.s3.value.endpoint)
    else if f == SCreds then OptText(d.s3.value.creds)
    else None
  }

  function SingleDestination(d: Destination): Destination {
    DestinationBy(SingleSetting(d, DName), SingleSetting(d, DType), SingleSetting(d, DPath), SingleSetting(d, SBucket),
                  SingleSetting(d, SPrefix), SingleSetting(d, SRegion), SingleSetting(d, SEndpoint),
                  SingleSetting(d, SCreds))
  }

  predicate IsCanonicalSingle(d: Destination) {
    || d == NO_DESTINATION
    || (d.kind == Some(LOCAL) && d.path.Some? && d.path != Some("") && d.s3 == None)
    || (d.kind == Some(S3_KIND) && d.path == None && d.s3.Some? && IsCompactBucket(d.s3.value))
  }

  lemma NoBucketText()
    ensures ParseDestCompact("s3:").Err?
  {
    SplitAtFirst("s3", ':', "");
    assert "s3" + [':'] + "" == "s3:";
    NothingToSplit("", '/');
  }

  lemma S3SingleIs(d: Destination, r: Nested)
    requires d.kind == Some(S3_KIND) && d.s3.Some? && d.s3.value.bucket.Some?
    requires ParseDestCompact(SingleText(d).value) == Ok(r) && SBucket in r
    ensures var s3 := d.s3.value;
            SingleDestination(d)
            == Destination(d.name, TextOf(GetV(r, DType)), TextOf(GetV(r, DPath)),
                           Some(S3(s3.endpoint, TextOf(GetV(r, SBucket)), TextOf(GetV(r, SPrefix)), s3.region, s3.creds)))
  {
  }

  lemma S3SingleBack(d: Destination)
    requires d.kind == Some(S3_KIND) && d.s3.Some? && d.s3.value.bucket.Some?
    ensures SingleParses(d) && SingleDestination(d) == d <==> IsCanonicalSingle(d)
  {
    S3TextBack(d.s3.value.bucket.value, d.s3.value.prefix);
    var r := ParseDestCompact(SingleText(d).value);
    if r.Ok? {
      S3SingleIs(d, r.value);
    }
  }

  lemma LocalSingleBack(d: Destination)
    requires d.kind == Some(LOCAL) && d.path.Some?
    ensures SingleParses(d) && SingleDestination(d) == d <==> IsCanonicalSingle(d)
  {
    LocalText(d.path.value);
  }

  /** The only destination comes back exactly when it is canonical. */
  lemma SingleBack(d: Destination)
    ensures SingleParses(d) && SingleDestination(d) == d <==> IsCanonicalSingle(d)
  {
    if d.kind == Some(LOCAL) && d.path.Some? {
      LocalSingleBack(d);
    } else if d.kind == Some(S3_KIND) && d.s3.Some? {
      if d.s3.value.bucket.Some? {
        S3SingleBack(d);
      } else {
        NoBucketText();
      }
    }
  }

  // ----- encryption -----

  predicate IsCanonicalEncryption(e: Encryption) {
    if e.enabled then e.algorithm == AGE ==> e.recipient != Some("")
    else e.algorithm == AGE && e.recipient == None
  }

  function EncryptSetting(e: Encryption, f: Field): Option<Value> {
    if !e.enabled then (if f == EncryptEnabled then Some(Bool(false)) else None)
    else if e.algorithm == AGE then
      if e.recipient.None? then None
      else if f == EncryptEnabled then Some(Bool(true))
      else if f == Plain(EncryptAlgorithm) then Some(Str(AGE))
      else if f == Plain(RecipientFile) && e.recipient != Some("") then Some(Str(e.recipient.value))
      else None
    else if f == Plain(EncryptAlgorithm) then Some(Str(e.algorithm))
    else if f == Plain(RecipientFile) then OptText(e.recipient)
    else None
  }

  function EncryptionBy(enabled: Option<Value>, algorithm: Option<Value>, recipient: Option<Value>): Encryption {
    Encryption(if enabled.Some? && enabled.value.Bool? then enabled.value.b else true,
               if algorithm.Some? && algorithm.value.Str? then algorithm.value.s else AGE, TextOf(recipient))
  }

  lemma EncryptionBack(e: Encryption)
    ensures EncryptionBy(EncryptSetting(e, EncryptEnabled), EncryptSetting(e, Plain(EncryptAlgorithm)),
                         EncryptSetting(e, Plain(RecipientFile))) == e
            <==> IsCanonicalEncryption(e)
  {
  }

  lemma AgeText(recipient: string)
    ensures ParseEncrypt(Str("age:" + recipient))
            == Ok(if recipient == "" then map[EncryptEnabled := Bool(true), Plain(EncryptAlgorithm) := Str(AGE)]
                  else map[EncryptEnabled := Bool(true), Plain(EncryptAlgorithm) := Str(AGE),
                           Plain(RecipientFile) := Str(recipient)])
  {
    var text := "age:" + recipient;
    SplitAtFirst(AGE, ':', recipient);
    assert AGE + [':'] + recipient == text;
    assert text[0] == 'a';
  }

  // ----- all settings of a profile -----

  predicate IsSpecial(k: Key) {
    k in {Dest, DestName, S3Bucket, S3Prefix, S3Region, S3Endpoint, S3Creds, Compress, CompressAlgorithm, CompressLevel,
          Encrypt, EncryptAlgorithm, RecipientFile, ExtendsKey} || k.UnknownKey?
  }

  /** The value that each nested setting has after printing and expanding. */
  function Setting(p: Profile, f: Field): Option<Value> {
    match f
    case Destinations =>
      if p.destinations != [] && AllCompactParse(p.destinations) then Some(Expanded(NestedElements(p.destinations)))
      else None
    case EncryptEnabled => EncryptSetting(p.encryption, f)
    case Plain(k) =>
      if k == EncryptAlgorithm || k == RecipientFile then EncryptSetting(p.encryption, f)
      else if k == CompressAlgorithm || k == CompressLevel then
        if CompressNested(p.compression).Ok? then GetV(CompressNested(p.compression).value, f) else None
      else if IsSpecial(k) then None
      else Printed(p, k)
    case _ => if IsSingle(p) then SingleSetting(p.destination, f) else None
  }

  predicate AllParse(p: Profile) {
    && CompressNested(p.compression).Ok?
    && (IsSingle(p) ==> SingleParses(p.destination))
    && AllCompactParse(p.destinations)
  }

  predicate IsPrinted(p: Profile, e: Entry) {
    Printed(p, e.key) == Some(e.value)
  }

  /** What a printed entry contributes are the profile's settings. */
  ghost predicate Contributes(p: Profile, e: Entry) {
    && (Contribution(e).Err? ==> !AllParse(p))
    && (Contribution(e).Ok? ==> forall f :: f in Contribution(e).value ==> Setting(p, f) == Some(Contribution(e).value[f]))
  }

  lemma PlainContributes(p: Profile, e: Entry)
    requires IsPrinted(p, e) && !IsSpecial(e.key)
    ensures Contributes(p, e) && Contribution(e) == Ok(map[Plain(e.key) := e.value])
  {
  }

  lemma CompressContributes(p: Profile, e: Entry)
    requires IsPrinted(p, e) && e.key == Compress
    ensures Contributes(p, e) && Contribution(e) == CompressNested(p.compression)
  {
    CompressIsParsed(p, e);
    if Contribution(e).Ok? {
      CompressionTyped(p.compression);
      forall f | f in Contribution(e).value ensures Setting(p, f) == Some(Contribution(e).value[f]) {
        CompressSettings(p, f);
      }
    }
  }

  lemma CompressIsParsed(p: Profile, e: Entry)
    requires IsPrinted(p, e) && e.key == Compress
    ensures Contribution(e) == CompressNested(p.compression)
  {
  }

  lemma CompressSettings(p: Profile, f: Field)
    requires f in {Plain(CompressAlgorithm), Plain(CompressLevel)} && CompressNested(p.compression).Ok?
    ensures Setting(p, f) == GetV(CompressNested(p.compression).value, f)
  {
  }

  lemma EncryptContributes(p: Profile, e: Entry)
    requires IsPrinted(p, e) && e.key == Encrypt
    ensures Contribution(e).Ok?
    ensures forall f :: f in Contribution(e).value ==> EncryptSetting(p.encryption, f) == Some(Contribution(e).value[f])
    ensures forall f :: EncryptSetting(p.encryption, f).Some? ==> f in Contribution(e).value
    ensures Contribution(e).value.Keys <= {EncryptEnabled, Plain(EncryptAlgorithm), Plain(RecipientFile)}
  {
    if p.encryption.enabled {
      AgeText(p.encryption.recipient.value);
    }
  }

  lemma StagesContribute(p: Profile, e: Entry)
    requires IsPrinted(p, e) && e.key in {Compress, Encrypt, EncryptAlgorithm, RecipientFile}
    ensures Contributes(p, e)
  {
    if e.key == Compress {
      CompressContributes(p, e);
    } else if e.key == Encrypt {
      EncryptContributes(p, e);
    }
  }

  /** The keys of a single destination that set one field, and that field. */
  predicate SetsOneField(k: Key, f: Field) {
    || (k == DestName && f == DName)
    || (k == S3Region && f == SRegion)
    || (k == S3Endpoint && f == SEndpoint)
    || (k == S3Creds && f == SCreds)
  }

  lemma OneFieldContributes(p: Profile, e: Entry, f: Field)
    requires IsPrinted(p, e) && IsSingle(p) && SetsOneField(e.key, f)
    ensures Contribution(e) == Ok(map[f := e.value]) && Setting(p, f) == Some(e.value)
  {
    SingleSettings(p, f);
  }

  lemma DestContributes(p: Profile, e: Entry)
    requires IsPrinted(p, e) && IsSingle(p) && e.key in {Dest, DestName, S3Region, S3Endpoint, S3Creds}
    ensures Contributes(p, e)
  {
    if e.key == Dest {
      SingleTextContributes(p, e);
    } else {
      var f :| SetsOneField(e.key, f);
      OneFieldContributes(p, e, f);
    }
  }

  lemma SingleSettings(p: Profile, f: Field)
    requires IsSingle(p) && f in DEST_FIELDS
    ensures Setting(p, f) == SingleSetting(p.destination, f)
  {
  }

  lemma SingleTextContributes(p: Profile, e: Entry)
    requires IsPrinted(p, e) && IsSingle(p) && e.key == Dest
    ensures Contributes(p, e)
  {
    var text := SingleText(p.destination).value;
    assert Contribution(e) == ParseDestCompact(text);
    if Contribution(e).Ok? {
      CompactSets(text);
      forall f | f in Contribution(e).value ensures Setting(p, f) == Some(Contribution(e).value[f]) {
        SingleSettings(p, f);
      }
    }
  }

  lemma ArrayContributes(p: Profile, e: Entry)
    requires e.key == Dest && p.destinations != [] && e.value.Tables? && AreReordered(e.value.elems, p.destinations)
    ensures Contributes(p, e)
    ensures Contribution(e).Ok? <==> AllCompactParse(p.destinations)
    ensures Contribution(e).Ok? ==> Contribution(e).value == map[Destinations := Expanded(NestedElements(p.destinations))]
  {
    ElementsExpand(p.destinations, e.value.elems);
  }

  // ----- the expanded profile -----

  ghost predicate WasPrinted(p: Profile, e: Entry) {
    Printed(p, e.key).Some? && IsReordered(e.value, Printed(p, e.key).value)
  }

  lemma PrintedOrArray(p: Profile, e: Entry)
    requires WasPrinted(p, e)
    ensures if e.key == Dest && p.destinations != []
            then e.value.Tables? && AreReordered(e.value.elems, p.destinations)
            else IsPrinted(p, e)
  {
  }

  lemma PrintedKeys(p: Profile, k: Key)
    requires Printed(p, k).Some? && IsSpecial(k)
    ensures k in {Compress, Encrypt, EncryptAlgorithm, RecipientFile}
            || (k in {Dest, DestName, S3Region, S3Endpoint, S3Creds} && IsSingle(p))
            || (k == Dest && p.destinations != [])
  {
  }

  lemma EntryContributes(p: Profile, e: Entry)
    requires WasPrinted(p, e)
    ensures Contributes(p, e)
  {
    PrintedOrArray(p, e);
    if !IsSpecial(e.key) {
      PlainContributes(p, e);
    } else {
      PrintedKeys(p, e.key);
      if e.key in {Compress, Encrypt, EncryptAlgorithm, RecipientFile} {
        StagesContribute(p, e);
      } else if e.key == Dest && p.destinations != [] {
        ArrayContributes(p, e);
      } else {
        DestContributes(p, e);
      }
    }
  }

  /** The key whose entry sets `f`. */
  function Setter(p: Profile, f: Field): Key {
    match f
    case Destinations => Dest
    case EncryptEnabled => Encrypt
    case Plain(k) =>
      if k == EncryptAlgorithm || k == RecipientFile then
        if p.encryption.algorithm == AGE then Encrypt else k
      else if k == CompressAlgorithm || k == CompressLevel then Compress
      else k
    case DName => DestName
    case SRegion => S3Region
    case SEndpoint => S3Endpoint
    case SCreds => S3Creds
    case _ => Dest
  }

  lemma SingleSetterIsPrinted(p: Profile, f: Field)
    requires IsSingle(p) && f in DEST_FIELDS && SingleSetting(p.destination, f).Some?
    ensures Printed(p, Setter(p, f)).Some?
  {
  }

  lemma EncryptSetterIsPrinted(p: Profile, f: Field)
    requires f in {EncryptEnabled, Plain(EncryptAlgorithm), Plain(RecipientFile)} && EncryptSetting(p.encryption, f).Some?
    ensures Printed(p, Setter(p, f)).Some?
  {
  }

  lemma SetterIsPrinted(p: Profile, f: Field)
    requires Setting(p, f).Some?
    ensures Printed(p, Setter(p, f)).Some?
  {
    if f in DEST_FIELDS {
      SingleSettings(p, f);
      SingleSetterIsPrinted(p, f);
    } else if f in {EncryptEnabled, Plain(EncryptAlgorithm), Plain(RecipientFile)} {
      EncryptSetterIsPrinted(p, f);
    } else if f in {Plain(CompressAlgorithm), Plain(CompressLevel)} {
      CompressSettings(p, f);
    }
  }

  lemma CompactSetterSets(p: Profile, f: Field, e: Entry)
    requires IsSingle(p) && f in COMPACT_FIELDS && SingleSetting(p.destination, f).Some?
    requires IsPrinted(p, e) && e.key == Dest
    ensures Contribution(e).Ok? && f in Contribution(e).value
  {
    assert Contribution(e) == ParseDestCompact(SingleText(p.destination).value);
  }

  lemma SingleSetterSets(p: Profile, f: Field, e: Entry)
    requires IsSingle(p) && f in DEST_FIELDS && SingleSetting(p.destination, f).Some?
    requires IsPrinted(p, e) && e.key == Setter(p, f)
    ensures Contribution(e).Ok? && f in Contribution(e).value
  {
    if f in COMPACT_FIELDS {
      CompactSetterSets(p, f, e);
    } else {
      OneFieldContributes(p, e, f);
    }
  }

  lemma StageSetterSets(p: Profile, f: Field, e: Entry)
    requires AllParse(p) && Setting(p, f).Some? && f != Destinations && f !in DEST_FIELDS
    requires IsPrinted(p, e) && e.key == Setter(p, f)
    ensures Contribution(e).Ok? && f in Contribution(e).value
  {
    if e.key == Encrypt {
      EncryptContributes(p, e);
    } else if e.key == Compress {
      CompressIsParsed(p, e);
      CompressSettings(p, f);
    } else if !IsSpecial(e.key) {
      PlainContributes(p, e);
    }
  }

  lemma ArraySetterSets(p: Profile, e: Entry)
    requires Setting(p, Destinations).Some? && WasPrinted(p, e) && e.key == Dest
    ensures Contribution(e).Ok? && Destinations in Contribution(e).value
  {
    PrintedOrArray(p, e);
    ArrayContributes(p, e);
  }

  lemma SetterIsOwn(p: Profile, f: Field, e: Entry)
    requires Setting(p, f).Some? && f != Destinations && WasPrinted(p, e) && e.key == Setter(p, f)
    ensures IsPrinted(p, e)
  {
    PrintedOrArray(p, e);
  }

  lemma DestSetterSets(p: Profile, f: Field, e: Entry)
    requires Setting(p, f).Some? && f in DEST_FIELDS && WasPrinted(p, e) && e.key == Setter(p, f)
    ensures Contribution(e).Ok? && f in Contribution(e).value
  {
    SetterIsOwn(p, f, e);
    SingleSettings(p, f);
    SingleSetterSets(p, f, e);
  }

  lemma OtherSetterSets(p: Profile, f: Field, e: Entry)
    requires AllParse(p) && Setting(p, f).Some? && f != Destinations && f !in DEST_FIELDS
    requires WasPrinted(p, e) && e.key == Setter(p, f)
    ensures Contribution(e).Ok? && f in Contribution(e).value
  {
    SetterIsOwn(p, f, e);
    StageSetterSets(p, f, e);
  }

  lemma SetterSets(p: Profile, f: Field, e: Entry)
    requires AllParse(p) && Setting(p, f).Some? && WasPrinted(p, e) && e.key == Setter(p, f)
    ensures Contribution(e).Ok? && f in Contribution(e).value
  {
    if f == Destinations {
      ArraySetterSets(p, e);
    } else if f in DEST_FIELDS {
      DestSetterSets(p, f, e);
    } else {
      OtherSetterSets(p, f, e);
    }
  }

  lemma UnparsedShows(p: Profile, es: seq<Entry>) returns (e: Entry)
    requires IsPrintOf(p, es) && !AllParse(p)
    ensures e in es && Contribution(e).Err?
  {
    var k := if CompressNested(p.compression).Err? then Compress else Dest;
    assert Printed(p, k).Some?;
    e :| e in es && e.key == k;
    PrintedOrArray(p, e);
    if k == Compress {
      CompressIsParsed(p, e);
    } else if p.destinations != [] {
      ArrayContributes(p, e);
    }
  }

  ghost predicate Holds(p: Profile, m: Nested) {
    forall f :: GetV(m, f) == Setting(p, f)
  }

  lemma SettingMerged(p: Profile, es: seq<Entry>, f: Field)
    requires IsPrintOf(p, es) && AllParse(p) && MergeAll(Contributions(es)).Ok?
    ensures GetV(MergeAll(Contributions(es)).value, f) == Setting(p, f)
  {
    var cs := Contributions(es);
    var m := MergeAll(cs).value;
    if f in m {
      var i := MergeFrom(cs, f);
      assert es[i] in es;
      EntryContributes(p, es[i]);
    } else if Setting(p, f).Some? {
      SetterIsPrinted(p, f);
      var e :| e in es && e.key == Setter(p, f);
      SetterSets(p, f, e);
      var i :| 0 <= i < |es| && es[i] == e;
      MergeHas(cs, i, f);
    }
  }

  /** In whatever order the entries come, a printed profile expands to its settings. */
  lemma ProfileExpands(p: Profile, es: seq<Entry>)
    requires IsPrintOf(p, es)
    ensures Expand(es).Ok? <==> AllParse(p)
    ensures Expand(es).Ok? ==> Holds(p, Expand(es).value)
  {
    var cs := Contributions(es);
    MergeOk(cs);
    if AllParse(p) {
      forall i | 0 <= i < |cs| ensures cs[i].Ok? {
        assert es[i] in es;
        EntryContributes(p, es[i]);
      }
      forall f ensures GetV(Expand(es).value, f) == Setting(p, f) {
        SettingMerged(p, es, f);
      }
    } else {
      var e := UnparsedShows(p, es);
      var i :| 0 <= i < |es| && es[i] == e;
      assert cs[i].Err?;
    }
  }

  // ----- decoding the settings -----

  lemma PlainTyped(p: Profile, k: Key)
    requires !IsSpecial(k) && Printed(p, k).Some?
    ensures HasKind(Printed(p, k).value, KindOf(Plain(k)))
  {
  }

  lemma SingleTyped(d: Destination, f: Field)
    requires SingleParses(d) && f in DEST_FIELDS && SingleSetting(d, f).Some?
    ensures HasKind(SingleSetting(d, f).value, KindOf(f))
  {
    if f in COMPACT_FIELDS {
      CompactSets(SingleText(d).value);
    }
  }

  lemma DestinationsTyped(p: Profile)
    requires AllParse(p) && p.destinations != []
    ensures HasKind(Setting(p, Destinations).value, KindOf(Destinations))
  {
    forall d | d in NestedElements(p.destinations) ensures IsText(d) {
      var i :| 0 <= i < |p.destinations| && NestedElements(p.destinations)[i] == d;
      ElementIsText(p.destinations[i]);
    }
  }

  lemma CompressTyped(p: Profile, f: Field)
    requires f in {Plain(CompressAlgorithm), Plain(CompressLevel)} && Setting(p, f).Some?
    ensures HasKind(Setting(p, f).value, KindOf(f))
  {
    CompressionTyped(p.compression);
  }

  lemma EncryptTyped(e: Encryption, f: Field)
    requires f in {EncryptEnabled, Plain(EncryptAlgorithm), Plain(RecipientFile)} && EncryptSetting(e, f).Some?
    ensures HasKind(EncryptSetting(e, f).value, KindOf(f))
  {
  }

  lemma SettingTyped(p: Profile, f: Field)
    requires AllParse(p) && Setting(p, f).Some?
    ensures HasKind(Setting(p, f).value, KindOf(f))
  {
    if f == Destinations {
      DestinationsTyped(p);
    } else if f in DEST_FIELDS {
      SingleSettings(p, f);
      SingleTyped(p.destination, f);
    } else if f in {Plain(CompressAlgorithm), Plain(CompressLevel)} {
      CompressTyped(p, f);
    } else if f in {EncryptEnabled, Plain(EncryptAlgorithm), Plain(RecipientFile)} {
      EncryptTyped(p.encryption, f);
    } else {
      PlainTyped(p, f.key);
    }
  }

  lemma AllTyped(p: Profile, m: Nested)
    requires AllParse(p) && Holds(p, m)
    ensures IsWellTyped(m)
  {
    forall f | f in m ensures HasKind(m[f], KindOf(f)) {
      assert GetV(m, f) == Setting(p, f);
      SettingTyped(p, f);
    }
  }

  lemma PlainSetting(p: Profile, m: Nested, k: Key)
    requires Holds(p, m) && !IsSpecial(k)
    ensures GetV(m, Plain(k)) == Printed(p, k)
  {
    assert GetV(m, Plain(k)) == Setting(p, Plain(k));
  }

  lemma SourceBack(p: Profile, m: Nested)
    requires Holds(p, m)
    ensures SourceOf(m) == p.source <==> p.source.readUri == None && p.source.readUriEnv == None
  {
    PlainSetting(p, m, Uri);
    PlainSetting(p, m, UriEnv);
    PlainSetting(p, m, PreferSecondary);
    PlainSetting(p, m, ReadUri);
    PlainSetting(p, m, ReadUriEnv);
    PlainSetting(p, m, ConnectTimeout);
  }

  lemma ModeBack(p: Profile, m: Nested)
    requires Holds(p, m)
    ensures ModeOf(m) == p.mode
  {
    PlainSetting(p, m, BackupType);
    PlainSetting(p, m, OutputMode);
    PlainSetting(p, m, Precheck);
    PlainSetting(p, m, Engine);
  }

  lemma IncrementalBack(p: Profile, m: Nested)
    requires Holds(p, m)
    ensures IncrementalOf(m) == p.incremental
  {
    PlainSetting(p, m, IncrInterval);
    PlainSetting(p, m, IncrOnGap);
    PlainSetting(p, m, PgLogical);
    PlainSetting(p, m, MysqlBinlog);
  }

  lemma RetentionBack(p: Profile, m: Nested)
    requires Holds(p, m)
    ensures RetentionOf(m) == p.retention
            <==> p.retention.recoveryWindowDays == None && p.retention.minRedundancy == None
  {
    PlainSetting(p, m, KeepFull);
    PlainSetting(p, m, KeepDays);
    PlainSetting(p, m, KeepLast);
    PlainSetting(p, m, RecoveryWindowDays);
    PlainSetting(p, m, MinRedundancy);
  }

  lemma HooksAreLost(p: Profile, m: Nested)
    requires Holds(p, m)
    ensures HooksOf(m) == NO_HOOKS
  {
    PlainSetting(p, m, HookPreBackup);
    PlainSetting(p, m, HookPostBackup);
    PlainSetting(p, m, HookPreRestore);
    PlainSetting(p, m, HookPostRestore);
    PlainSetting(p, m, HookPrePrune);
    PlainSetting(p, m, HookPostPrune);
    PlainSetting(p, m, HookOnError);
    PlainSetting(p, m, HookTimeout);
  }

  lemma DaemonIsLost(p: Profile, m: Nested)
    requires Holds(p, m)
    ensures DaemonOf(m) == Daemon(None, None)
  {
    PlainSetting(p, m, Schedule);
    PlainSetting(p, m, NotifyWebhookEnv);
  }

  lemma CompressionIs(p: Profile, m: Nested)
    requires Holds(p, m) && CompressNested(p.compression).Ok?
    ensures CompressionOf(m) == CompressionOf(CompressNested(p.compression).value)
  {
    CompressSettings(p, Plain(CompressAlgorithm));
    CompressSettings(p, Plain(CompressLevel));
    assert GetV(m, Plain(CompressAlgorithm)) == Setting(p, Plain(CompressAlgorithm));
    assert GetV(m, Plain(CompressLevel)) == Setting(p, Plain(CompressLevel));
  }

  lemma EncryptionIs(p: Profile, m: Nested)
    requires Holds(p, m)
    ensures EncryptionOf(m) == p.encryption <==> IsCanonicalEncryption(p.encryption)
  {
    EncryptionBack(p.encryption);
    assert GetV(m, EncryptEnabled) == Setting(p, EncryptEnabled);
    assert GetV(m, Plain(EncryptAlgorithm)) == Setting(p, Plain(EncryptAlgorithm));
    assert GetV(m, Plain(RecipientFile)) == Setting(p, Plain(RecipientFile));
  }

  lemma DestSettings(p: Profile, m: Nested, f: Field)
    requires Holds(p, m) && f in DEST_FIELDS
    ensures GetV(m, f) == if IsSingle(p) then SingleSetting(p.destination, f) else None
  {
    assert GetV(m, f) == Setting(p, f);
  }

  lemma DestinationIs(p: Profile, m: Nested)
    requires Holds(p, m)
    ensures DestinationOf(m) == if IsSingle(p) then SingleDestination(p.destination) else NO_DESTINATION
  {
    DestinationIsBy(m);
    DestSettings(p, m, DName);
    DestSettings(p, m, DType);
    DestSettings(p, m, DPath);
    DestSettings(p, m, SBucket);
    DestSettings(p, m, SPrefix);
    DestSettings(p, m, SRegion);
    DestSettings(p, m, SEndpoint);
    DestSettings(p, m, SCreds);
  }

  lemma DestinationsAre(p: Profile, m: Nested)
    requires Holds(p, m) && AllParse(p)
    ensures GetV(m, Destinations)
            == if p.destinations != [] then Some(Expanded(NestedElements(p.destinations))) else None
  {
    assert GetV(m, Destinations) == Setting(p, Destinations);
  }

  predicate IsCanonicalPlace(p: Profile) {
    if p.destinations == [] then IsCanonicalSingle(p.destination)
    else p.destination == NO_DESTINATION && AllCanonicalElements(p.destinations)
  }

  lemma PlaceBack(p: Profile, m: Nested)
    requires Holds(p, m) && AllParse(p)
    ensures ProfileOf(m).destination == p.destination && ProfileOf(m).destinations == p.destinations
            <==> IsCanonicalPlace(p)
  {
    DestinationIs(p, m);
    DestinationsAre(p, m);
    SingleBack(p.destination);
    ElementsBack(p.destinations);
  }

  lemma PlaceParses(p: Profile)
    requires IsCanonicalPlace(p)
    ensures (IsSingle(p) ==> SingleParses(p.destination)) && AllCompactParse(p.destinations)
  {
    SingleBack(p.destination);
    ElementsBack(p.destinations);
  }

  // ----- the round trip -----

  predicate IsCleanTable(es: seq<DestEntry>) {
    forall e :: e in es ==> e.value.Str? && DEL !in e.value.s
  }

  /** What TOML can hold: text without U+007F, integers of 64 bits. */
  predicate IsClean(v: Value) {
    match v
    case Str(s) => DEL !in s
    case Bool(_) => true
    case Int(n) => IsI64(n)
    case Tables(elems) => forall es :: es in elems ==> IsCleanTable(es)
    case Expanded(_) => false
  }

  lemma ReadableIsClean(v: Value)
    ensures IsReadable(v) <==> IsClean(v)
  {
    if v.Str? {
      EscRoundTrip(v.s);
    } else if v.Tables? {
      forall es ensures IsReadableTable(es) <==> IsCleanTable(es) {
        TableIsClean(es);
      }
    }
  }

  lemma TableIsClean(es: seq<DestEntry>)
    ensures IsReadableTable(es) <==> IsCleanTable(es)
  {
    forall e | e in es && e.value.Str? ensures ReadQuoted(Esc(e.value.s)) == Some(e.value.s) <==> DEL !in e.value.s {
      EscRoundTrip(e.value.s);
    }
  }

  lemma ReorderedElems(v: Value, w: Value)
    requires v.Tables? && w.Tables? && IsReordered(v, w) && IsReadable(v)
    ensures IsReadable(w)
  {
    forall es | es in w.elems ensures IsReadableTable(es) {
      var i :| 0 <= i < |w.elems| && w.elems[i] == es;
      assert v.elems[i] in v.elems;
      if v != w {
        SameMembers(es, v.elems[i]);
      }
    }
  }

  lemma IsReorderedBack(v: Value, w: Value)
    requires IsReordered(v, w)
    ensures IsReordered(w, v) && (IsReadable(v) <==> IsReadable(w))
  {
    if v.Tables? && w.Tables? {
      if IsReadable(v) {
        ReorderedElems(v, w);
      }
      if IsReadable(w) {
        ReorderedElems(w, v);
      }
    }
  }

  predicate AreClean(lines: seq<Entry>) {
    forall e :: e in lines ==> IsClean(e.value)
  }

  lemma CleanAlike(e: Entry, l: Entry)
    requires Corresponds(e, l)
    ensures IsReadable(e.value) <==> IsClean(l.value)
  {
    IsReorderedBack(e.value, l.value);
    ReadableIsClean(l.value);
  }

  lemma LineIsClean(es: seq<Entry>, lines: seq<Entry>, l: Entry)
    requires IsTableOf(es, lines) && AllReadable(es) && l in lines
    ensures IsClean(l.value)
  {
    assert HasEntry(l, es);
    var e :| e in es && Corresponds(e, l);
    CleanAlike(e, l);
  }

  lemma EntryIsReadable(es: seq<Entry>, lines: seq<Entry>, e: Entry)
    requires IsTableOf(es, lines) && AreClean(lines) && e in es
    ensures IsReadable(e.value)
  {
    assert HasLine(e, lines);
    var l :| l in lines && Corresponds(e, l);
    CleanAlike(e, l);
  }

  lemma SameReadable(es: seq<Entry>, lines: seq<Entry>)
    requires IsTableOf(es, lines)
    ensures AllReadable(es) <==> AreClean(lines)
  {
    if AllReadable(es) {
      forall l | l in lines ensures IsClean(l.value) {
        LineIsClean(es, lines, l);
      }
    }
    if AreClean(lines) {
      forall e | e in es ensures IsReadable(e.value) {
        EntryIsReadable(es, lines, e);
      }
    }
  }

  /** None of the settings that the printer drops, and compact forms that can be
      split again. */
  predicate IsExpressible(p: Profile) {
    && p.source.readUri == None && p.source.readUriEnv == None
    && IsCanonicalPlace(p)
    && IsCanonicalCompression(p.compression)
    && IsCanonicalEncryption(p.encryption)
    && p.retention.recoveryWindowDays == None && p.retention.minRedundancy == None
    && p.hooks == NO_HOOKS && p.daemon == Daemon(None, None)
  }

  /** The profiles that the printer can express, in text that TOML can hold. */
  predicate IsCanonical(p: Profile) {
    AreClean(Print(p)) && IsExpressible(p)
  }

  lemma DecodedIs(p: Profile, m: Nested)
    requires Holds(p, m) && AllParse(p)
    ensures ProfileOf(m) == p
            <==> && p.source.readUri == None && p.source.readUriEnv == None
                 && IsCanonicalPlace(p)
                 && CompressionOf(CompressNested(p.compression).value) == p.compression
                 && IsCanonicalEncryption(p.encryption)
                 && p.retention.recoveryWindowDays == None && p.retention.minRedundancy == None
                 && p.hooks == NO_HOOKS && p.daemon == Daemon(None, None)
  {
    SourceBack(p, m);
    ModeBack(p, m);
    PlaceBack(p, m);
    CompressionIs(p, m);
    EncryptionIs(p, m);
    IncrementalBack(p, m);
    RetentionBack(p, m);
    HooksAreLost(p, m);
    DaemonIsLost(p, m);
  }

  lemma ExpandsBack(p: Profile, es: seq<Entry>)
    requires IsPrintOf(p, es)
    ensures Expand(es).Ok? && IsWellTyped(Expand(es).value) && ProfileOf(Expand(es).value) == p <==> IsExpressible(p)
  {
    ProfileExpands(p, es);
    CompressionBack(p.compression);
    if AllParse(p) {
      AllTyped(p, Expand(es).value);
      DecodedIs(p, Expand(es).value);
    } else if IsCanonicalPlace(p) {
      PlaceParses(p);
    }
  }

  lemma LinesRoundTrip(p: Profile, es: seq<Entry>, lines: seq<Entry>)
    requires IsTableOf(es, lines) && AreLinesOf(p, lines)
    ensures Parse(es) == Ok(p) <==> AreClean(lines) && IsExpressible(p)
  {
    SameReadable(es, lines);
    LinesArePrint(p, es, lines);
    ExpandsBack(p, es);
  }

  /** Parsing what was printed gives the same profile, in every order in which the
      tables may yield their entries, exactly when the profile is canonical. */
  lemma ProfileRoundTrip(p: Profile, es: seq<Entry>)
    requires IsTableOf(es, Print(p))
    ensures Parse(es) == Ok(p) <==> IsCanonical(p)
  {
    PrintIsLines(p);
    LinesRoundTrip(p, es, Print(p));
  }
}
