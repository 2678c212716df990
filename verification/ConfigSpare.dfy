/** The printer of v2 profiles prints nothing to spare: no documented default, no
    key beside a compact form that says the same. */
module ConfigSpare {
  import opened Schema
  import opened StableSort
  import opened TomlText
  import opened ConfigV2
  import opened ConfigRoundTrip
  import opened ConfigLaws
  import opened ConfigMeaning
  import opened ConfigForms
  import opened ConfigPlaces

  lemma SourceIsSpare(p: Profile, t: Table, k: Key)
    requires k !in t && k in SOURCE_KEYS
    requires p.source.uri == TextIn(t, Uri) && p.source.uriEnv == TextIn(t, UriEnv)
    requires p.source.preferSecondary == (ValueIn(t, PreferSecondary) == Some(Bool(true)))
    requires p.source.connectTimeout == NumberIn(t, ConnectTimeout)
    ensures Printed(p, k).None?
  {
  }

  lemma SourceIsNeeded(p: Profile, es: seq<Entry>, k: Key)
    requires Parse(es) == Ok(p) && NoKeyTwice(es) && k !in TableOf(es) && k in SOURCE_KEYS
    ensures Printed(p, k).None?
  {
    SourceMeans(es);
    SourceIsSpare(p, TableOf(es), k);
  }

  lemma ModeIsSpare(p: Profile, t: Table, k: Key)
    requires k !in t && k in MODE_KEYS
    requires p.mode.backupType == Or(TextIn(t, BackupType), "full")
    requires p.mode.output == Or(TextIn(t, OutputMode), "progress")
    requires p.mode.precheck == (ValueIn(t, Precheck) != Some(Bool(false)))
    requires p.mode.engine == Or(TextIn(t, Engine), "native")
    ensures Printed(p, k).None?
  {
  }

  lemma ModeIsNeeded(p: Profile, es: seq<Entry>, k: Key)
    requires Parse(es) == Ok(p) && NoKeyTwice(es) && k !in TableOf(es) && k in MODE_KEYS
    ensures Printed(p, k).None?
  {
    ModeMeans(es);
    ModeIsSpare(p, TableOf(es), k);
  }

  lemma IncrementalIsSpare(p: Profile, t: Table, k: Key)
    requires k !in t && k in INCR_KEYS + CAPTURE_KEYS
    requires p.incremental.interval == Or(TextIn(t, IncrInterval), "15m")
    requires p.incremental.onGap == Or(TextIn(t, IncrOnGap), "promote_full")
    requires p.incremental.pgLogical == (ValueIn(t, PgLogical) == Some(Bool(true)))
    requires p.incremental.mysqlBinlog == (ValueIn(t, MysqlBinlog) == Some(Bool(true)))
    ensures Printed(p, k).None?
  {
  }

  lemma IncrementalIsNeeded(p: Profile, es: seq<Entry>, k: Key)
    requires Parse(es) == Ok(p) && NoKeyTwice(es) && k !in TableOf(es) && k in INCR_KEYS + CAPTURE_KEYS
    ensures Printed(p, k).None?
  {
    IncrementalMeans(es);
    IncrementalIsSpare(p, TableOf(es), k);
  }

  lemma RetentionIsSpare(p: Profile, t: Table, k: Key)
    requires k !in t && k in RETENTION_KEYS
    requires p.retention.keepFull == NumberIn(t, KeepFull) && p.retention.keepDays == NumberIn(t, KeepDays)
    requires p.retention.keepLast == NumberIn(t, KeepLast)
    ensures Printed(p, k).None?
  {
  }

  lemma RetentionIsNeeded(p: Profile, es: seq<Entry>, k: Key)
    requires Parse(es) == Ok(p) && NoKeyTwice(es) && k !in TableOf(es) && k in RETENTION_KEYS
    ensures Printed(p, k).None?
  {
    RetentionMeans(es);
    RetentionIsSpare(p, TableOf(es), k);
  }

  /** The entries of the table are lines of the profile. */
  ghost predicate AreSomeLines(p: Profile, t: Table) {
    forall k :: k in t ==> Printed(p, k) == Some(t[k])
  }

  lemma CompressGiven(p: Profile, es: seq<Entry>)
    requires Parse(es) == Ok(p) && NoKeyTwice(es) && Compress !in TableOf(es)
    ensures var t := TableOf(es);
            && p.compression.algorithm == Or(TextIn(t, CompressAlgorithm), "zstd")
            && p.compression.level == Or(NumberIn(t, CompressLevel), 10)
  {
    CompressExplicit(es);
  }

  lemma CompressIsSpare(p: Profile, t: Table)
    requires AreSomeLines(p, t)
    requires p.compression.algorithm == Or(TextIn(t, CompressAlgorithm), "zstd")
    requires p.compression.level == Or(NumberIn(t, CompressLevel), 10)
    ensures Printed(p, Compress).None?
  {
    assert Printed(p, CompressAlgorithm) == None && Printed(p, CompressLevel) == None;
    assert CompressAlgorithm !in t && CompressLevel !in t;
  }

  lemma EncryptGiven(p: Profile, es: seq<Entry>)
    requires Parse(es) == Ok(p) && NoKeyTwice(es) && Encrypt !in TableOf(es)
    ensures var t := TableOf(es);
            p.encryption == Encryption(true, Or(TextIn(t, EncryptAlgorithm), "age"), TextIn(t, RecipientFile))
  {
    EncryptSwitches(es);
  }

  lemma EncryptIsSpare(p: Profile, t: Table, k: Key)
    requires AreSomeLines(p, t) && k !in t && (k == Encrypt || k == EncryptAlgorithm || k == RecipientFile)
    requires Encrypt !in t ==>
               p.encryption == Encryption(true, Or(TextIn(t, EncryptAlgorithm), "age"), TextIn(t, RecipientFile))
    ensures Printed(p, k).None?
  {
    assert Encrypt in t ==> Printed(p, Encrypt) == Some(t[Encrypt]);
    assert EncryptAlgorithm in t ==> Printed(p, EncryptAlgorithm) == Some(t[EncryptAlgorithm]);
    assert RecipientFile in t ==> Printed(p, RecipientFile) == Some(t[RecipientFile]);
  }

  // ----- destinations -----

  /** What a destination has under the keys that no compact text sets. */
  predicate HasOwnKeys(d: Destination, t: Table) {
    && d.name == TextIn(t, DestName)
    && (d.s3.Some? ==>
          && d.s3.value.region == TextIn(t, S3Region) && d.s3.value.endpoint == TextIn(t, S3Endpoint)
          && d.s3.value.creds == TextIn(t, S3Creds))
  }

  lemma NotInCompact(v: Option<Value>, f: Field)
    requires f !in COMPACT_FIELDS
    ensures DestSets(v, f) == None
  {
    if v.Some? && v.value.Str? && ParseDestCompact(v.value.s).Ok? {
      CompactSets(v.value.s);
    }
  }

  lemma OwnKeys(t: Table, compact: Option<Value>, m: Nested)
    requires AllPlaced(compact, PlaceKeys(t), m)
    ensures HasOwnKeys(DestinationOf(m), t)
  {
    EachPlaced(compact, PlaceKeys(t), m);
    NotInCompact(compact, DName);
    NotInCompact(compact, SRegion);
    NotInCompact(compact, SEndpoint);
    NotInCompact(compact, SCreds);
    assert KeyFor(DName) == Some(DestName) && KeyFor(SRegion) == Some(S3Region);
    assert KeyFor(SEndpoint) == Some(S3Endpoint) && KeyFor(SCreds) == Some(S3Creds);
  }

  lemma PlaceGiven(p: Profile, es: seq<Entry>)
    requires Parse(es) == Ok(p) && NoKeyTwice(es) && p.destinations == []
    ensures HasOwnKeys(p.destination, TableOf(es)) || IsArray(ValueIn(TableOf(es), Dest))
  {
    if !IsArray(ValueIn(TableOf(es), Dest)) {
      var m := SingleParsed(es);
      OwnKeys(TableOf(es), ValueIn(TableOf(es), Dest), m);
    }
  }

  lemma DestGiven(p: Profile, es: seq<Entry>)
    requires Parse(es) == Ok(p) && NoKeyTwice(es) && Dest !in TableOf(es)
    ensures p.destinations == [] && p.destination.kind == None
  {
    PlaceByKeys(es);
  }

  lemma PlaceIsSpare(p: Profile, t: Table, k: Key)
    requires AreSomeLines(p, t) && k !in t && k in {DestName, S3Region, S3Endpoint, S3Creds}
    requires p.destinations == [] ==> HasOwnKeys(p.destination, t) || IsArray(ValueIn(t, Dest))
    ensures Printed(p, k).None?
  {
    if p.destinations == [] && Dest in t {
      assert Printed(p, Dest) == Some(t[Dest]);
    }
  }

  // ----- every line is needed -----

  lemma KeyIsNeeded(p: Profile, es: seq<Entry>, k: Key)
    requires Parse(es) == Ok(p) && NoKeyTwice(es) && AreSomeLines(p, TableOf(es)) && k !in TableOf(es)
    ensures Printed(p, k).None?
  {
    if k in SOURCE_KEYS {
      SourceIsNeeded(p, es, k);
    } else if k in MODE_KEYS {
      ModeIsNeeded(p, es, k);
    } else if k in INCR_KEYS + CAPTURE_KEYS {
      IncrementalIsNeeded(p, es, k);
    } else if k in RETENTION_KEYS {
      RetentionIsNeeded(p, es, k);
    } else {
      OtherKeyIsNeeded(p, es, k);
    }
  }

  lemma CompressIsNeeded(p: Profile, es: seq<Entry>)
    requires Parse(es) == Ok(p) && NoKeyTwice(es) && AreSomeLines(p, TableOf(es)) && Compress !in TableOf(es)
    ensures Printed(p, Compress).None?
  {
    CompressGiven(p, es);
    CompressIsSpare(p, TableOf(es));
  }

  lemma EncryptIsNeeded(p: Profile, es: seq<Entry>, k: Key)
    requires Parse(es) == Ok(p) && NoKeyTwice(es) && AreSomeLines(p, TableOf(es)) && k !in TableOf(es)
    requires k == Encrypt || k == EncryptAlgorithm || k == RecipientFile
    ensures Printed(p, k).None?
  {
    if Encrypt !in TableOf(es) {
      EncryptGiven(p, es);
    }
    EncryptIsSpare(p, TableOf(es), k);
  }

  lemma PlaceIsNeeded(p: Profile, es: seq<Entry>, k: Key)
    requires Parse(es) == Ok(p) && NoKeyTwice(es) && AreSomeLines(p, TableOf(es)) && k !in TableOf(es)
    requires k in {DestName, S3Region, S3Endpoint, S3Creds}
    ensures Printed(p, k).None?
  {
    if p.destinations == [] {
      PlaceGiven(p, es);
    }
    PlaceIsSpare(p, TableOf(es), k);
  }

  lemma OtherKeyIsNeeded(p: Profile, es: seq<Entry>, k: Key)
    requires Parse(es) == Ok(p) && NoKeyTwice(es) && AreSomeLines(p, TableOf(es)) && k !in TableOf(es)
    requires k !in SOURCE_KEYS && k !in MODE_KEYS && k !in INCR_KEYS + CAPTURE_KEYS && k !in RETENTION_KEYS
    ensures Printed(p, k).None?
  {
    if k == Compress {
      CompressIsNeeded(p, es);
    } else if k == Encrypt || k == EncryptAlgorithm || k == RecipientFile {
      EncryptIsNeeded(p, es, k);
    } else if k == Dest {
      DestGiven(p, es);
    } else if k in {DestName, S3Region, S3Endpoint, S3Creds} {
      PlaceIsNeeded(p, es, k);
    } else {
      NeverPrinted(p, k);
    }
  }

  lemma NeverPrinted(p: Profile, k: Key)
    requires k !in SOURCE_KEYS && k !in MODE_KEYS && k !in INCR_KEYS + CAPTURE_KEYS && k !in RETENTION_KEYS
    requires k !in {Compress, Encrypt, EncryptAlgorithm, RecipientFile, Dest, DestName, S3Region, S3Endpoint, S3Creds}
    ensures Printed(p, k).None?
  {
    KeysAreGrouped(k);
  }

  /** Whatever is left out of a printed profile, the rest no longer means it. */
  lemma NoLineIsSpare(p: Profile, es: seq<Entry>, e: Entry)
    requires NoKeyTwice(es) && (forall x :: x in es ==> x in Print(p)) && e in Print(p) && e !in es
    ensures Parse(es) != Ok(p)
  {
    var t := TableOf(es);
    forall k | k in t ensures Printed(p, k) == Some(t[k]) {
      TableHolds(es, k);
      PrintHolds(p, Entry(k, t[k]));
    }
    PrintHolds(p, e);
    if e.key in t {
      TableHolds(es, e.key);
      assert false;
    }
    if Parse(es) == Ok(p) {
      KeyIsNeeded(p, es, e.key);
      assert false;
    }
  }

  // ----- the elements of an array -----

  lemma ElementIsSpare(d: Destination, compact: Option<Value>, x: Nested, m: Nested, k: DestKey)
    requires forall f :: f in x ==> ElementPrinted(d, Explicit(f)).Some?
    requires compact.Some? ==> ElementPrinted(d, Compact).Some? && compact.value == Str(ElementPrinted(d, Compact).value)
    requires if k == Compact then compact.None? else k.Explicit? && k.field !in x
    requires AllPlaced(compact, x, m) && DestinationOf(m) == d
    ensures ElementPrinted(d, k).None?
  {
    EachPlaced(compact, x, m);
    if compact.None? {
      PlacedByKeys(x, m);
    }
    forall f | f !in COMPACT_FIELDS ensures DestSets(compact, f) == None {
      NotInCompact(compact, f);
    }
  }

  /** Nor is a line of an element to spare. */
  lemma NoElementLineIsSpare(d: Destination, es: seq<DestEntry>, m: Nested, e: DestEntry)
    requires NoDestKeyTwice(es) && (forall x :: x in es ==> x in PrintElement(d)) && e in PrintElement(d) && e !in es
    requires ExpandElement(es) == Ok(m)
    ensures DestinationOf(m) != d
  {
    ElementPlaced(es, m);
    ElementHolds(d, e);
    forall f | f in ElementKeys(es) ensures ElementPrinted(d, Explicit(f)).Some? {
      ElementHas(es, f);
      ElementHolds(d, DestEntry(Explicit(f), ElementKeys(es)[f]));
    }
    ElementHas(es, DName);
    if CompactOf(es).Some? {
      ElementHolds(d, DestEntry(Compact, CompactOf(es).value));
    }
    if e.key.Explicit? && e.key.field in ElementKeys(es) {
      ElementHas(es, e.key.field);
      ElementHolds(d, DestEntry(e.key, ElementKeys(es)[e.key.field]));
      assert false;
    }
    if DestinationOf(m) == d {
      ElementIsSpare(d, CompactOf(es), ElementKeys(es), m, e.key);
      assert false;
    }
  }

  // ----- what cannot be printed -----

  /** An S3 destination without a bucket is printed all the same, as a text that is refused. */
  lemma BucketlessIsRefused(p: Profile)
    requires p.destinations == [] && p.destination.kind == Some("s3")
    requires p.destination.s3.Some? && p.destination.s3.value.bucket.None?
    ensures Entry(Dest, Str("s3:")) in Print(p) && Parse(Print(p)).Err?
  {
    PrintHolds(p, Entry(Dest, Str("s3:")));
    NoBucketText();
    Refused(Print(p), Entry(Dest, Str("s3:")));
  }
}
