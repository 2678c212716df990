/** Which entries a v2 profile may have: what each key accepts, and that anything
    else makes the whole profile an error. */
module ConfigAccepts {
  import opened Schema
  import opened StableSort
  import opened TomlText
  import opened ConfigV2
  import opened ConfigRoundTrip
  import opened ConfigLaws
  import opened ConfigMeaning
  import opened ConfigForms
  import opened ConfigPlaces

  predicate IsCompactText(v: Value) {
    && v.Str?
    && ((|v.s| > 6 && v.s[..6] == "local:") || (|v.s| > 3 && v.s[..3] == "s3:" && v.s[3] != '/'))
  }

  predicate IsElementEntry(e: DestEntry) {
    match e.key
    case Compact => IsCompactText(e.value)
    case Explicit(f) => f in {DName, DType, DPath, SBucket, SPrefix, SRegion, SEndpoint, SCreds} && e.value.Str?
    case UnknownDestKey(_) => false
  }

  predicate IsPlaceValue(v: Value) {
    IsCompactText(v) || (v.Tables? && forall es, e :: es in v.elems && e in es ==> IsElementEntry(e))
  }

  predicate IsCount(v: Value) {
    v.Int? && 0 <= v.n < 0x1_0000_0000
  }

  predicate IsSeconds(v: Value) {
    v.Int? && 0 <= v.n < 0x1_0000_0000_0000_0000
  }

  predicate IsLevel(v: Value) {
    v.Int? && -0x8000_0000 <= v.n < 0x8000_0000
  }

  function LeveledText(a: string, text: string): string {
    a + ":" + text
  }

  predicate IsLeveled(a: string, text: string) {
    a != "" && ':' !in a && ParseI64(text).Some? && IsLevel(Int(ParseI64(text).value))
  }

  /** An algorithm, and after a colon a level if there is one. */
  ghost predicate IsCompressValue(v: Value) {
    && v.Str? && v.s != ""
    && (':' !in v.s
        || exists a, text :: IsLeveled(a, text) && v.s == LeveledText(a, text))
  }

  predicate IsEncryptValue(v: Value) {
    v.Bool? || (v.Str? && v.s != "" && v.s[0] != ':')
  }

  /** What each key accepts. */
  ghost predicate IsAccepted(e: Entry) {
    match e.key
    case PreferSecondary | Precheck | PgLogical | MysqlBinlog => e.value.Bool?
    case ConnectTimeout | HookTimeout => IsSeconds(e.value)
    case KeepFull | KeepDays | KeepLast | RecoveryWindowDays | MinRedundancy => IsCount(e.value)
    case CompressLevel => IsLevel(e.value)
    case Dest => IsPlaceValue(e.value)
    case Compress => IsCompressValue(e.value)
    case Encrypt => IsEncryptValue(e.value)
    case ExtendsKey => true
    case UnknownKey(_) => false
    case _ => e.value.Str?
  }

  // ----- accepted entries -----

  lemma EncryptAccepts(v: Value)
    ensures ParseEncrypt(v).Ok? <==> IsEncryptValue(v)
  {
    if v.Str? && ':' in v.s {
      SplitParts(v.s, ':');
      HeadTail(v.s);
    } else if v.Str? {
      NothingToSplit(v.s, ':');
    }
  }

  lemma EncryptKinds(v: Value)
    requires ParseEncrypt(v).Ok?
    ensures HasKinds(ParseEncrypt(v).value)
  {
  }

  lemma NoColonRefuses(s: string)
    requires ':' !in s
    ensures ParseDestCompact(s).Err? && !IsCompactText(Str(s))
  {
    NothingToSplit(s, ':');
    assert |s| > 6 ==> s[5] != ':' && s[..6][5] == s[5] && "local:"[5] == ':';
    assert |s| > 3 ==> s[2] != ':' && s[..3][2] == s[2] && "s3:"[2] == ':';
  }

  lemma SchemeAccepts(s: string, scheme: string, rest: string)
    requires SplitOnce(s, ':') == Some((scheme, rest))
    ensures ParseDestCompact(s).Ok? <==>
            (scheme == "local" && rest != "") || (scheme == "s3" && rest != "" && rest[0] != '/')
  {
    if scheme == "s3" && '/' in rest {
      SplitParts(rest, '/');
      HeadTail(rest);
    } else if scheme == "s3" {
      NothingToSplit(rest, '/');
    }
  }

  lemma CompactAccepts(s: string)
    ensures ParseDestCompact(s).Ok? <==> IsCompactText(Str(s))
    ensures ParseDestCompact(s).Ok? ==> IsText(ParseDestCompact(s).value)
  {
    if ':' in s {
      SplitParts(s, ':');
      var parts := SplitOnce(s, ':').value;
      SchemeAccepts(s, parts.0, parts.1);
      CompactStarts(s, parts.0, parts.1);
      if ParseDestCompact(s).Ok? {
        CompactSets(s);
      }
    } else {
      NoColonRefuses(s);
    }
  }

  lemma CompactStarts(s: string, scheme: string, rest: string)
    requires s == scheme + [':'] + rest && ':' !in scheme
    ensures |s| > 6 && s[..6] == "local:" <==> scheme == "local" && rest != ""
    ensures |s| > 3 && s[..3] == "s3:" && s[3] != '/' <==> scheme == "s3" && rest != "" && rest[0] != '/'
  {
    StartsWith(s, scheme, rest, "local");
    StartsWith(s, scheme, rest, "s3");
    assert "local" + ":" == "local:" && "s3" + ":" == "s3:";
  }

  lemma StartsWith(s: string, scheme: string, rest: string, word: string)
    requires s == scheme + [':'] + rest && ':' !in scheme && ':' !in word
    ensures |s| > |word| && s[..|word| + 1] == word + ":" <==> scheme == word
  {
    SplitAtFirst(scheme, ':', rest);
    if |s| > |word| && s[..|word| + 1] == word + ":" {
      var tail := s[|word| + 1..];
      assert s == s[..|word| + 1] + tail == word + [':'] + tail;
      SplitAtFirst(word, ':', tail);
    }
    if scheme == word {
      assert s[..|word| + 1] == word + ":";
    }
  }

  /** A text under `compress` is read up to its first colon. */
  lemma CompressParts(s: string)
    requires s != ""
    ensures ':' !in s ==> ParseCompress(Str(s)) == Ok(map[Plain(CompressAlgorithm) := Str(s)])
    ensures ':' in s ==>
              var parts := SplitOnce(s, ':');
              parts.Some? && s == LeveledText(parts.value.0, parts.value.1) && ':' !in parts.value.0
  {
    if ':' in s {
      SplitParts(s, ':');
    } else {
      NothingToSplit(s, ':');
    }
  }

  lemma LevelKinds(a: string, n: int)
    requires IsLevel(Int(n))
    ensures HasKinds(map[Plain(CompressAlgorithm) := Str(a), Plain(CompressLevel) := Int(n)])
  {
  }

  lemma LeveledAccepts(a: string, text: string)
    requires IsLeveled(a, text)
    ensures ParseCompress(Str(LeveledText(a, text))).Ok? && HasKinds(ParseCompress(Str(LeveledText(a, text))).value)
  {
    CompressForms(a, text);
    LevelKinds(a, ParseI64(text).value);
  }

  lemma NamedAccepts(s: string)
    requires s != "" && ':' !in s
    ensures ParseCompress(Str(s)).Ok? && HasKinds(ParseCompress(Str(s)).value)
  {
    CompressParts(s);
  }

  lemma CompressAccepts(v: Value)
    requires IsCompressValue(v)
    ensures ParseCompress(v).Ok? && HasKinds(ParseCompress(v).value)
  {
    if ':' !in v.s {
      NamedAccepts(v.s);
    } else {
      var a, text :| IsLeveled(a, text) && v.s == LeveledText(a, text);
      LeveledAccepts(a, text);
    }
  }

  /** Without an accepted value the settings are refused, or hold a level out of range. */
  lemma CompressRefuses(v: Value)
    requires !IsCompressValue(v) && ParseCompress(v).Ok?
    ensures Plain(CompressLevel) in ParseCompress(v).value && !IsLevel(ParseCompress(v).value[Plain(CompressLevel)])
  {
    CompressForms("", "");
    CompressParts(v.s);
    var parts := SplitOnce(v.s, ':').value;
    CompressForms(parts.0, parts.1);
    assert v.s == LeveledText(parts.0, parts.1);
  }

  predicate HasKinds(m: Nested) {
    forall f :: f in m ==> HasKind(m[f], KindOf(f))
  }

  lemma ElementAccepts(es: seq<DestEntry>)
    requires forall e :: e in es ==> IsElementEntry(e)
    ensures ExpandElement(es).Ok? && IsText(ExpandElement(es).value)
  {
    var cs := DestContributions(es);
    forall i | 0 <= i < |cs| ensures cs[i].Ok? && IsText(cs[i].value) {
      assert es[i] in es;
      if es[i].key == Compact {
        CompactAccepts(es[i].value.s);
      }
    }
    MergeOk(cs);
    forall f | f in MergeAll(cs).value ensures MergeAll(cs).value[f].Str? {
      var i := MergeFrom(cs, f);
    }
  }

  lemma {:induction false} ElementsAccept(elems: seq<seq<DestEntry>>)
    requires forall es, e :: es in elems && e in es ==> IsElementEntry(e)
    ensures ExpandElements(elems).Ok? && forall d :: d in ExpandElements(elems).value ==> IsText(d)
  {
    if elems != [] {
      FrontLast(elems);
      ElementsAccept(elems[..|elems| - 1]);
      ElementAccepts(elems[|elems| - 1]);
    }
  }

  lemma PlaceAccepts(v: Value)
    requires IsPlaceValue(v)
    ensures Contribution(Entry(Dest, v)).Ok? && HasKinds(Contribution(Entry(Dest, v)).value)
  {
    if v.Str? {
      CompactAccepts(v.s);
      CompactKeys(v.s);
    } else {
      ElementsAccept(v.elems);
    }
  }

  lemma CompactKeys(s: string)
    requires ParseDestCompact(s).Ok?
    ensures HasKinds(ParseDestCompact(s).value)
  {
  }

  lemma EntryAccepts(e: Entry)
    requires IsAccepted(e)
    ensures Contribution(e).Ok? && HasKinds(Contribution(e).value)
  {
    match e.key
    case Dest => PlaceAccepts(e.value);
    case Compress => CompressAccepts(e.value);
    case Encrypt =>
      EncryptAccepts(e.value);
      EncryptKinds(e.value);
    case _ =>
  }

  /** What a TOML text can hold as it is printed. */
  predicate IsHeld(v: Value) {
    match v
    case Str(s) => DEL !in s
    case Bool(_) => true
    case Int(n) => -0x8000_0000_0000_0000 <= n < 0x8000_0000_0000_0000
    case Tables(elems) => forall es, e :: es in elems && e in es ==> e.value.Str? && DEL !in e.value.s
    case Expanded(_) => false
  }

  lemma HeldIsReadable(v: Value)
    ensures IsReadable(v) <==> IsHeld(v)
  {
    forall s ensures ReadQuoted(Esc(s)) == if DEL in s then None else Some(s) {
      EscRoundTrip(s);
    }
    if v.Tables? {
      assert forall es :: es in v.elems ==>
               (IsReadableTable(es) <==> forall e :: e in es ==> e.value.Str? && DEL !in e.value.s);
    }
  }

  lemma AllAccepted(es: seq<Entry>)
    requires forall e :: e in es ==> IsAccepted(e)
    ensures Expand(es).Ok? && HasKinds(Expand(es).value)
  {
    var cs := Contributions(es);
    forall i | 0 <= i < |cs| ensures cs[i].Ok? && HasKinds(cs[i].value) {
      assert es[i] in es;
      EntryAccepts(es[i]);
    }
    MergeOk(cs);
    forall f | f in MergeAll(cs).value ensures HasKind(MergeAll(cs).value[f], KindOf(f)) {
      var i := MergeFrom(cs, f);
    }
  }

  /** A table of accepted entries is a profile. */
  lemma AcceptedParses(es: seq<Entry>)
    requires forall e :: e in es ==> IsAccepted(e) && IsHeld(e.value)
    ensures Parse(es).Ok?
  {
    forall e | e in es ensures IsReadable(e.value) {
      HeldIsReadable(e.value);
    }
    AllAccepted(es);
  }

  predicate IsPlaceKey(k: Key) {
    k in {DestName, S3Bucket, S3Prefix, S3Region, S3Endpoint, S3Creds}
  }

  lemma PlaceKeyContributes(e: Entry)
    requires IsPlaceKey(e.key)
    ensures Contribution(e).Ok? && forall f :: f in Contribution(e).value ==> f in DEST_FIELDS
  {
  }

  lemma ArrayDropsKeys(es: seq<Entry>, k: nat)
    requires k < |es| && es[k].key == Dest && es[k].value.Tables?
    requires forall e :: e in es ==> IsAccepted(e) || IsPlaceKey(e.key)
    ensures Expand(es).Ok? && IsWellTyped(Expand(es).value)
  {
    var cs := Contributions(es);
    forall i | 0 <= i < |cs|
      ensures cs[i].Ok? && forall f :: f in cs[i].value ==> HasKind(cs[i].value[f], KindOf(f)) || f in DEST_FIELDS
    {
      assert es[i] in es;
      if IsPlaceKey(es[i].key) {
        PlaceKeyContributes(es[i]);
      } else {
        EntryAccepts(es[i]);
      }
    }
    MergeOk(cs);
    assert Destinations in cs[k].value;
    MergeHas(cs, k, Destinations);
    forall f | f in MergeAll(cs).value ensures HasKind(MergeAll(cs).value[f], KindOf(f)) || f in DEST_FIELDS {
      var i := MergeFrom(cs, f);
    }
  }

  /** Beside an array of destinations the keys of a single one may hold anything. */
  lemma ArrayParses(es: seq<Entry>, k: nat)
    requires k < |es| && es[k].key == Dest && es[k].value.Tables?
    requires forall e :: e in es ==> IsHeld(e.value) && (IsAccepted(e) || IsPlaceKey(e.key))
    ensures Parse(es).Ok?
  {
    forall e | e in es ensures IsReadable(e.value) {
      HeldIsReadable(e.value);
    }
    ArrayDropsKeys(es, k);
  }

  // ----- refused entries -----

  /** A value that no TOML text can hold as it is printed. */
  lemma UnheldIsRefused(es: seq<Entry>, e: Entry)
    requires e in es && !IsHeld(e.value)
    ensures Parse(es).Err?
  {
    HeldIsReadable(e.value);
  }

  /** No other key of the table sets what `k` sets. */
  predicate StandsAlone(t: Table, k: Key) {
    match k
    case Compress => CompressLevel !in t
    case CompressAlgorithm | CompressLevel => Compress !in t
    case EncryptAlgorithm | RecipientFile => Encrypt !in t
    case DestName | S3Bucket | S3Prefix | S3Region | S3Endpoint | S3Creds => Dest !in t
    case _ => true
  }

  predicate IsWrong(m: Nested, f: Field) {
    f in m && !HasKind(m[f], KindOf(f)) && !IsDropped(m, f)
  }

  ghost predicate HasWrong(m: Nested) {
    exists f :: IsWrong(m, f)
  }

  /** A setting of the wrong kind is an error. */
  lemma WrongIsRefused(es: seq<Entry>, m: Nested)
    requires Expand(es) == Ok(m) && HasWrong(m)
    ensures Parse(es).Err?
  {
  }

  lemma PlainIsWrong(es: seq<Entry>, m: Nested, e: Entry)
    requires NoKeyTwice(es) && Expand(es) == Ok(m) && e in es && IsPlainKey(e.key)
    requires !HasKind(e.value, KindOf(Plain(e.key)))
    ensures IsWrong(m, Plain(e.key))
  {
    PlainSaid(es, e.key);
    OnlyValue(es, e);
  }

  lemma PlainKinds(e: Entry)
    requires IsPlainKey(e.key) && HasKind(e.value, KindOf(Plain(e.key)))
    ensures IsAccepted(e)
  {
  }

  lemma EncryptKeyAlone(es: seq<Entry>, m: Nested, e: Entry, f: Field)
    requires NoKeyTwice(es) && Expand(es) == Ok(m) && e in es && ExplicitOf(f) == Some(e.key)
    requires IsEncryptField(f) && f != EncryptEnabled && Encrypt !in TableOf(es)
    ensures GetV(m, f) == Some(e.value)
  {
    OnlyValue(es, e);
    EncryptFieldOf(es, m, f, e.key);
  }

  lemma CompressKeyAlone(es: seq<Entry>, m: Nested, e: Entry, f: Field)
    requires NoKeyTwice(es) && Expand(es) == Ok(m) && e in es && ExplicitOf(f) == Some(e.key)
    requires IsCompressField(f) && Compress !in TableOf(es)
    ensures GetV(m, f) == Some(e.value)
  {
    OnlyValue(es, e);
    CompressFieldOf(es, m, f, e.key);
  }

  lemma StageIsWrong(es: seq<Entry>, m: Nested, e: Entry, f: Field)
    requires NoKeyTwice(es) && Expand(es) == Ok(m) && e in es && ExplicitOf(f) == Some(e.key)
    requires !HasKind(e.value, KindOf(f)) && StandsAlone(TableOf(es), e.key)
    ensures IsWrong(m, f)
  {
    if IsEncryptField(f) {
      EncryptKeyAlone(es, m, e, f);
    } else {
      CompressKeyAlone(es, m, e, f);
    }
  }

  lemma PlaceKeyIsWrong(es: seq<Entry>, m: Nested, e: Entry, f: Field)
    requires NoKeyTwice(es) && Expand(es) == Ok(m) && e in es && KeyFor(f) == Some(e.key)
    requires !e.value.Str? && Dest !in TableOf(es)
    ensures IsWrong(m, f)
  {
    OnlyValue(es, e);
    PlaceOf(es, m, f);
    ArrayOf(es, m);
  }

  lemma CompressLevelAlone(es: seq<Entry>, m: Nested, e: Entry)
    requires NoKeyTwice(es) && Expand(es) == Ok(m) && e in es && e.key == Compress && CompressLevel !in TableOf(es)
    ensures GetV(m, Plain(CompressLevel)) == CompressSets(Some(e.value), Plain(CompressLevel))
  {
    OnlyValue(es, e);
    CompressFieldOf(es, m, Plain(CompressLevel), CompressLevel);
  }

  lemma WrongLevel(v: Value)
    requires !IsCompressValue(v) && ParseCompress(v).Ok?
    ensures var level := CompressSets(Some(v), Plain(CompressLevel)); level.Some? && !HasKind(level.value, KI32)
  {
    CompressRefuses(v);
  }

  lemma LevelIsWrong(es: seq<Entry>, m: Nested, e: Entry)
    requires NoKeyTwice(es) && Expand(es) == Ok(m) && e in es && e.key == Compress && CompressLevel !in TableOf(es)
    requires !IsCompressValue(e.value) && ParseCompress(e.value).Ok?
    ensures IsWrong(m, Plain(CompressLevel))
  {
    WrongLevel(e.value);
    CompressLevelAlone(es, m, e);
  }

  function FieldOf(k: Key): Field {
    match k
    case DestName => DName
    case S3Bucket => SBucket
    case S3Prefix => SPrefix
    case S3Region => SRegion
    case S3Endpoint => SEndpoint
    case _ => SCreds
  }

  lemma FieldHasKey(k: Key)
    requires IsPlaceKey(k)
    ensures KeyFor(FieldOf(k)) == Some(k)
  {
  }

  lemma EntryContributes(es: seq<Entry>, m: Nested, e: Entry)
    requires Expand(es) == Ok(m) && e in es
    ensures Contribution(e).Ok?
  {
    MergeOk(Contributions(es));
    var i :| 0 <= i < |es| && es[i] == e;
    assert Contributions(es)[i].Ok?;
  }

  /** What contributes although it is not accepted sets something of the wrong kind. */
  lemma ContributesOrNot(e: Entry)
    requires Contribution(e).Ok? && !IsAccepted(e)
    ensures e.key != Encrypt && !e.key.UnknownKey? && !(e.key == Dest && !e.value.Tables?)
    ensures e.key == Compress ==> !IsCompressValue(e.value) && ParseCompress(e.value).Ok?
    ensures ExplicitOf(Plain(e.key)) == Some(e.key) ==> !HasKind(e.value, KindOf(Plain(e.key)))
    ensures IsPlaceKey(e.key) ==> !e.value.Str?
  {
    if e.key == Encrypt {
      EncryptAccepts(e.value);
    }
    if e.key == Dest && e.value.Str? {
      CompactAccepts(e.value.s);
    }
  }

  lemma UnacceptedIsWrong(es: seq<Entry>, m: Nested, e: Entry) returns (f: Field)
    requires NoKeyTwice(es) && Expand(es) == Ok(m) && e in es && !IsAccepted(e)
    requires StandsAlone(TableOf(es), e.key) && !(e.key == Dest && e.value.Tables?)
    ensures IsWrong(m, f)
  {
    EntryContributes(es, m, e);
    ContributesOrNot(e);
    if IsPlaceKey(e.key) {
      f := FieldOf(e.key);
      FieldHasKey(e.key);
      PlaceKeyIsWrong(es, m, e, f);
    } else if e.key == Compress {
      f := Plain(CompressLevel);
      LevelIsWrong(es, m, e);
    } else if ExplicitOf(Plain(e.key)).Some? {
      f := Plain(e.key);
      StageIsWrong(es, m, e, f);
    } else {
      f := Plain(e.key);
      if HasKind(e.value, KindOf(f)) {
        PlainKinds(e);
        assert false;
      }
      PlainIsWrong(es, m, e);
    }
  }

  /** An entry that its key does not accept makes the profile an error, unless it
      is an array or another key replaces what it sets. */
  lemma UnacceptedIsRefused(es: seq<Entry>, e: Entry)
    requires NoKeyTwice(es) && e in es && !IsAccepted(e)
    requires StandsAlone(TableOf(es), e.key) && !(e.key == Dest && e.value.Tables?)
    ensures Parse(es).Err?
  {
    var r := Expand(es);
    if r.Ok? {
      var f := UnacceptedIsWrong(es, r.value, e);
      WrongIsRefused(es, r.value);
    }
  }

  lemma {:induction false} ElementsRefuse(elems: seq<seq<DestEntry>>, i: nat)
    requires i < |elems| && ExpandElement(elems[i]).Err?
    ensures ExpandElements(elems).Err?
  {
    if i < |elems| - 1 {
      ElementsRefuse(elems[..|elems| - 1], i);
    }
  }

  /** So does an element with an unknown key, or with a compact value that names no destination. */
  lemma ElementIsRefused(es: seq<Entry>, e: Entry, i: nat, d: DestEntry)
    requires e in es && e.key == Dest && e.value.Tables? && i < |e.value.elems| && d in e.value.elems[i]
    requires !IsElementEntry(d)
    requires d.key.Explicit? ==> d.key.field !in {DName, DType, DPath, SBucket, SPrefix, SRegion, SEndpoint, SCreds}
    ensures Parse(es).Err?
  {
    var elem := e.value.elems[i];
    var j :| 0 <= j < |elem| && elem[j] == d;
    if d.key == Compact && d.value.Str? {
      CompactAccepts(d.value.s);
    }
    assert DestContributions(elem)[j].Err?;
    MergeOk(DestContributions(elem));
    ElementsRefuse(e.value.elems, i);
    Refused(es, e);
  }

  lemma ElementText(es: seq<DestEntry>, d: Nested, e: DestEntry)
    requires ExpandElement(es) == Ok(d) && NoDestKeyTwice(es) && e in es && CompactOf(es).None?
    requires e.key.Explicit? && IsDestField(e.key.field)
    ensures GetV(d, e.key.field) == Some(e.value)
  {
    ElementPlaced(es, d);
    assert IsPlaced(CompactOf(es), ElementKeys(es), d, e.key.field);
    ElementHas(es, e.key.field);
  }

  lemma ArrayExpands(es: seq<Entry>, m: Nested, elems: seq<seq<DestEntry>>) returns (ds: seq<Nested>)
    requires NoKeyTwice(es) && Expand(es) == Ok(m) && Entry(Dest, Tables(elems)) in es
    ensures ExpandElements(elems) == Ok(ds) && GetV(m, Destinations) == Some(Expanded(ds))
  {
    OnlyValue(es, Entry(Dest, Tables(elems)));
    EntryContributes(es, m, Entry(Dest, Tables(elems)));
    ds := ExpandElements(elems).value;
    ArrayOf(es, m);
    ArraySets(Some(Tables(elems)));
  }

  lemma ElementIsNoText(elems: seq<seq<DestEntry>>, ds: seq<Nested>, i: nat, d: DestEntry)
    requires ExpandElements(elems) == Ok(ds)
    requires i < |elems| && d in elems[i] && NoDestKeyTwice(elems[i]) && CompactOf(elems[i]).None?
    requires d.key.Explicit? && IsDestField(d.key.field) && !d.value.Str?
    ensures exists e :: e in ds && !IsText(e)
  {
    EachElement(elems, ds, i);
    ElementText(elems[i], ds[i], d);
    assert ds[i] in ds && !IsText(ds[i]);
  }

  lemma ArrayIsWrong(es: seq<Entry>, m: Nested, elems: seq<seq<DestEntry>>, i: nat, d: DestEntry)
    requires NoKeyTwice(es) && Expand(es) == Ok(m) && Entry(Dest, Tables(elems)) in es
    requires i < |elems| && d in elems[i] && NoDestKeyTwice(elems[i]) && CompactOf(elems[i]).None?
    requires d.key.Explicit? && IsDestField(d.key.field) && !d.value.Str?
    ensures IsWrong(m, Destinations)
  {
    var ds := ArrayExpands(es, m, elems);
    ElementIsNoText(elems, ds, i, d);
  }

  /** So does a value that is no text under a key of an element. */
  lemma ElementValueIsRefused(es: seq<Entry>, elems: seq<seq<DestEntry>>, i: nat, d: DestEntry)
    requires NoKeyTwice(es) && Entry(Dest, Tables(elems)) in es
    requires i < |elems| && d in elems[i] && NoDestKeyTwice(elems[i]) && CompactOf(elems[i]).None?
    requires d.key.Explicit? && IsDestField(d.key.field) && !d.value.Str?
    ensures Parse(es).Err?
  {
    var r := Expand(es);
    if r.Ok? {
      ArrayIsWrong(es, r.value, elems, i, d);
      WrongIsRefused(es, r.value);
    }
  }
}
