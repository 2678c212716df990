/** The keys of a v2 profile that have compact forms: what each documented form
    means, with and without the explicit keys beside it. */
module ConfigForms {
  import opened Schema
  import opened StableSort
  import opened TomlText
  import opened ConfigV2
  import opened ConfigRoundTrip
  import opened ConfigLaws
  import opened ConfigMeaning

  // ----- encryption -----

  /** The keys that set the settings of the two stages. */
  function ExplicitOf(f: Field): Option<Key> {
    match f
    case Plain(EncryptAlgorithm) => Some(EncryptAlgorithm)
    case Plain(RecipientFile) => Some(RecipientFile)
    case Plain(CompressAlgorithm) => Some(CompressAlgorithm)
    case Plain(CompressLevel) => Some(CompressLevel)
    case _ => None
  }

  predicate IsEncryptField(f: Field) {
    f == EncryptEnabled || f == Plain(EncryptAlgorithm) || f == Plain(RecipientFile)
  }

  predicate IsCompressField(f: Field) {
    f == Plain(CompressAlgorithm) || f == Plain(CompressLevel)
  }

  lemma StageSetter(e: Entry, f: Field)
    requires Contribution(e).Ok? && f in Contribution(e).value
    ensures IsEncryptField(f) ==> e.key == Encrypt || Some(e.key) == ExplicitOf(f)
    ensures IsCompressField(f) ==> e.key == Compress || Some(e.key) == ExplicitOf(f)
  {
  }

  lemma EnabledSetter(es: seq<Entry>)
    ensures IsSetBy(es, EncryptEnabled, Encrypt)
  {
    forall e | e in es && Contribution(e).Ok? && EncryptEnabled in Contribution(e).value ensures e.key == Encrypt {
      StageSetter(e, EncryptEnabled);
    }
  }

  lemma StageSetters(f: Field)
    ensures IsEncryptField(f) && f != EncryptEnabled ==> SetOnlyBy(f, Encrypt, ExplicitOf(f).value)
    ensures IsCompressField(f) ==> SetOnlyBy(f, Compress, ExplicitOf(f).value)
  {
    forall e {:trigger Contribution(e)} | Contribution(e).Ok? && f in Contribution(e).value
      ensures IsEncryptField(f) ==> e.key == Encrypt || Some(e.key) == ExplicitOf(f)
      ensures IsCompressField(f) ==> e.key == Compress || Some(e.key) == ExplicitOf(f)
    {
      StageSetter(e, f);
    }
  }

  lemma StageKeySets(v: Option<Value>, f: Field)
    requires ExplicitOf(f).Some?
    ensures SetBy(ExplicitOf(f).value, v, f) == v
  {
  }

  function EncryptSets(v: Option<Value>, f: Field): Option<Value> {
    if v.Some? && ParseEncrypt(v.value).Ok? then GetV(ParseEncrypt(v.value).value, f) else None
  }

  lemma EncryptSetBy(v: Option<Value>, f: Field)
    ensures SetBy(Encrypt, v, f) == EncryptSets(v, f)
  {
  }

  predicate HasEncryptField(t: Table, m: Nested, f: Field, explicit: Key) {
    IsEither(GetV(m, f), EncryptSets(ValueIn(t, Encrypt), f), ValueIn(t, explicit))
  }

  /** Where each of the three settings comes from. */
  ghost predicate HasEncryption(t: Table, m: Nested) {
    && GetV(m, EncryptEnabled) == EncryptSets(ValueIn(t, Encrypt), EncryptEnabled)
    && HasEncryptField(t, m, Plain(EncryptAlgorithm), EncryptAlgorithm)
    && HasEncryptField(t, m, Plain(RecipientFile), RecipientFile)
  }

  lemma EncryptFieldOf(es: seq<Entry>, m: Nested, f: Field, explicit: Key)
    requires NoKeyTwice(es) && Expand(es) == Ok(m) && IsEncryptField(f) && ExplicitOf(f) == Some(explicit)
    ensures HasEncryptField(TableOf(es), m, f, explicit)
  {
    StageSetters(f);
    forall v ensures SetBy(explicit, v, f) == v {
      StageKeySets(v, f);
    }
    SettingOfTwo(es, f, Encrypt, explicit);
    EncryptSetBy(ValueIn(TableOf(es), Encrypt), f);
  }

  lemma EnabledOf(es: seq<Entry>, m: Nested)
    requires NoKeyTwice(es) && Expand(es) == Ok(m)
    ensures GetV(m, EncryptEnabled) == EncryptSets(ValueIn(TableOf(es), Encrypt), EncryptEnabled)
  {
    EnabledSetter(es);
    SettingFrom(es, EncryptEnabled, Encrypt);
    EncryptSetBy(ValueIn(TableOf(es), Encrypt), EncryptEnabled);
  }

  lemma EncryptionSettings(es: seq<Entry>, m: Nested)
    requires NoKeyTwice(es) && Expand(es) == Ok(m)
    ensures HasEncryption(TableOf(es), m)
  {
    EnabledOf(es, m);
    EncryptFieldOf(es, m, Plain(EncryptAlgorithm), EncryptAlgorithm);
    EncryptFieldOf(es, m, Plain(RecipientFile), RecipientFile);
  }

  lemma EncryptionParsed(es: seq<Entry>) returns (m: Nested)
    requires Parse(es).Ok? && NoKeyTwice(es)
    ensures Parse(es).value.encryption == EncryptionOf(m) && HasEncryption(TableOf(es), m)
  {
    m := ParseDecodes(es);
    EncryptionSettings(es, m);
  }

  /** What a text under `encrypt` sets, by its documented form. */
  lemma EncryptTexts(a: string, r: string)
    requires ':' !in a
    ensures a != "" && a != "off" && a != "false" ==>
              ParseEncrypt(Str(a)) == Ok(map[EncryptEnabled := Bool(true), Plain(EncryptAlgorithm) := Str(a)])
    ensures a != "" && r != "" ==>
              ParseEncrypt(Str(a + ":" + r))
              == Ok(map[EncryptEnabled := Bool(true), Plain(EncryptAlgorithm) := Str(a), Plain(RecipientFile) := Str(r)])
    ensures a != "" ==>
              ParseEncrypt(Str(a + ":")) == Ok(map[EncryptEnabled := Bool(true), Plain(EncryptAlgorithm) := Str(a)])
    ensures a == "" ==> ParseEncrypt(Str(a)).Err? && ParseEncrypt(Str(a + ":" + r)).Err?
  {
    NothingToSplit(a, ':');
    SplitAtFirst(a, ':', r);
    SplitAtFirst(a, ':', "");
    assert a + [':'] + r == a + ":" + r && a + [':'] + "" == a + ":";
    assert (a + ":" + r)[|a|] == ':' && (a + ":")[|a|] == ':';
  }

  predicate IsOff(v: Value) {
    v == Bool(false) || v == Str("off") || v == Str("false")
  }

  lemma SwitchSets(v: Option<Value>)
    requires v.None? || v == Some(Bool(true)) || IsOff(v.value)
    ensures EncryptSets(v, EncryptEnabled) == if v.None? then None else Some(Bool(!IsOff(v.value)))
    ensures EncryptSets(v, Plain(EncryptAlgorithm)) == EncryptSets(v, Plain(RecipientFile)) == None
  {
  }

  lemma EncryptSwitchesFrom(t: Table, m: Nested)
    requires HasEncryption(t, m)
    requires Encrypt in t ==> t[Encrypt] == Bool(true) || IsOff(t[Encrypt])
    ensures EncryptionOf(m)
            == Encryption(!(Encrypt in t && IsOff(t[Encrypt])), Or(TextIn(t, EncryptAlgorithm), "age"), TextIn(t, RecipientFile))
  {
    SwitchSets(ValueIn(t, Encrypt));
  }

  /** `encrypt = false`, `"off"` or `"false"` disables encryption, `true` or nothing
      enables it; the explicit keys say the rest. */
  lemma EncryptSwitches(es: seq<Entry>)
    requires Parse(es).Ok? && NoKeyTwice(es)
    requires Encrypt in TableOf(es) ==> TableOf(es)[Encrypt] == Bool(true) || IsOff(TableOf(es)[Encrypt])
    ensures var t := TableOf(es);
            Parse(es).value.encryption
            == Encryption(!(Encrypt in t && IsOff(t[Encrypt])), Or(TextIn(t, EncryptAlgorithm), "age"), TextIn(t, RecipientFile))
  {
    var m := EncryptionParsed(es);
    EncryptSwitchesFrom(TableOf(es), m);
  }

  lemma NameSets(v: Value, a: string)
    requires a != "" && ':' !in a && (v == Str(a + ":") || (v == Str(a) && a != "off" && a != "false"))
    ensures EncryptSets(Some(v), EncryptEnabled) == Some(Bool(true))
    ensures EncryptSets(Some(v), Plain(EncryptAlgorithm)) == Some(Str(a))
    ensures EncryptSets(Some(v), Plain(RecipientFile)) == None
  {
    EncryptTexts(a, "");
  }

  lemma EncryptNamesFrom(t: Table, m: Nested, a: string)
    requires HasEncryption(t, m) && Encrypt in t && EncryptAlgorithm !in t && a != "" && ':' !in a
    requires t[Encrypt] == Str(a + ":") || (t[Encrypt] == Str(a) && a != "off" && a != "false")
    ensures EncryptionOf(m) == Encryption(true, a, TextIn(t, RecipientFile))
  {
    NameSets(t[Encrypt], a);
  }

  /** `encrypt = "alg"` or `"alg:"` enables encryption by that algorithm. */
  lemma EncryptNames(es: seq<Entry>, a: string)
    requires Parse(es).Ok? && NoKeyTwice(es) && a != "" && ':' !in a
    requires Encrypt in TableOf(es) && EncryptAlgorithm !in TableOf(es)
    requires TableOf(es)[Encrypt] == Str(a + ":") || (TableOf(es)[Encrypt] == Str(a) && a != "off" && a != "false")
    ensures Parse(es).value.encryption == Encryption(true, a, TextIn(TableOf(es), RecipientFile))
  {
    var m := EncryptionParsed(es);
    EncryptNamesFrom(TableOf(es), m, a);
  }

  lemma EncryptNamesForFrom(t: Table, m: Nested, a: string, r: string)
    requires HasEncryption(t, m) && Encrypt in t && EncryptAlgorithm !in t && RecipientFile !in t
    requires a != "" && ':' !in a && r != "" && t[Encrypt] == Str(a + ":" + r)
    ensures EncryptionOf(m) == Encryption(true, a, Some(r))
  {
    EncryptTexts(a, r);
  }

  /** `encrypt = "alg:recipient"` also names the recipient. */
  lemma EncryptNamesFor(es: seq<Entry>, a: string, r: string)
    requires Parse(es).Ok? && NoKeyTwice(es) && a != "" && ':' !in a && r != ""
    requires Encrypt in TableOf(es) && EncryptAlgorithm !in TableOf(es) && RecipientFile !in TableOf(es)
    requires TableOf(es)[Encrypt] == Str(a + ":" + r)
    ensures Parse(es).value.encryption == Encryption(true, a, Some(r))
  {
    var m := EncryptionParsed(es);
    EncryptNamesForFrom(TableOf(es), m, a, r);
  }

  // ----- compression -----

  function CompressSets(v: Option<Value>, f: Field): Option<Value> {
    if v.Some? && ParseCompress(v.value).Ok? then GetV(ParseCompress(v.value).value, f) else None
  }

  lemma CompressSetBy(v: Option<Value>, f: Field)
    ensures SetBy(Compress, v, f) == CompressSets(v, f)
  {
  }

  predicate HasCompressField(t: Table, m: Nested, f: Field, explicit: Key) {
    IsEither(GetV(m, f), CompressSets(ValueIn(t, Compress), f), ValueIn(t, explicit))
  }

  ghost predicate HasCompression(t: Table, m: Nested) {
    && HasCompressField(t, m, Plain(CompressAlgorithm), CompressAlgorithm)
    && HasCompressField(t, m, Plain(CompressLevel), CompressLevel)
  }

  lemma CompressFieldOf(es: seq<Entry>, m: Nested, f: Field, explicit: Key)
    requires NoKeyTwice(es) && Expand(es) == Ok(m) && IsCompressField(f) && ExplicitOf(f) == Some(explicit)
    ensures HasCompressField(TableOf(es), m, f, explicit)
  {
    StageSetters(f);
    forall v ensures SetBy(explicit, v, f) == v {
      StageKeySets(v, f);
    }
    SettingOfTwo(es, f, Compress, explicit);
    CompressSetBy(ValueIn(TableOf(es), Compress), f);
  }

  lemma LevelFits(m: Nested)
    requires IsWellTyped(m)
    ensures LevelIsTyped(m)
  {
  }

  predicate LevelIsTyped(m: Nested) {
    Plain(CompressLevel) in m ==> HasKind(m[Plain(CompressLevel)], KI32)
  }

  lemma CompressionParsed(es: seq<Entry>) returns (m: Nested)
    requires Parse(es).Ok? && NoKeyTwice(es)
    ensures Parse(es).value.compression == CompressionOf(m) && HasCompression(TableOf(es), m) && LevelIsTyped(m)
  {
    m := ParseDecodes(es);
    CompressFieldOf(es, m, Plain(CompressAlgorithm), CompressAlgorithm);
    CompressFieldOf(es, m, Plain(CompressLevel), CompressLevel);
    LevelFits(m);
  }

  /** What the value under `compress` sets, by its documented form. */
  lemma CompressForms(a: string, text: string)
    ensures a != "" && ':' !in a ==> ParseCompress(Str(a)) == Ok(map[Plain(CompressAlgorithm) := Str(a)])
    ensures a != "" && ':' !in a ==>
              ParseCompress(Str(a + ":" + text))
              == if ParseI64(text).None? then Err(BadCompress)
                 else Ok(map[Plain(CompressAlgorithm) := Str(a), Plain(CompressLevel) := Int(ParseI64(text).value)])
    ensures ParseCompress(Str("")).Err? && ParseCompress(Str(":" + text)).Err?
    ensures forall v: Value :: !v.Str? ==> ParseCompress(v).Err?
  {
    if ':' !in a {
      NothingToSplit(a, ':');
      SplitAtFirst(a, ':', text);
      assert a + [':'] + text == a + ":" + text;
    }
    SplitAtFirst("", ':', text);
    assert "" + [':'] + text == ":" + text;
  }

  lemma CompressExplicitFrom(t: Table, m: Nested)
    requires HasCompression(t, m) && LevelIsTyped(m) && Compress !in t
    ensures var c := CompressionOf(m);
            c.algorithm == Or(TextIn(t, CompressAlgorithm), "zstd") && c.level == Or(NumberIn(t, CompressLevel), 10)
  {
  }

  /** Without `compress` the explicit keys say algorithm and level. */
  lemma CompressExplicit(es: seq<Entry>)
    requires Parse(es).Ok? && NoKeyTwice(es) && Compress !in TableOf(es)
    ensures var t, c := TableOf(es), Parse(es).value.compression;
            c.algorithm == Or(TextIn(t, CompressAlgorithm), "zstd") && c.level == Or(NumberIn(t, CompressLevel), 10)
  {
    var m := CompressionParsed(es);
    CompressExplicitFrom(TableOf(es), m);
  }

  lemma CompressNamesFrom(t: Table, m: Nested, a: string)
    requires HasCompression(t, m) && LevelIsTyped(m) && a != "" && ':' !in a
    requires Compress in t && CompressAlgorithm !in t && t[Compress] == Str(a)
    ensures var c := CompressionOf(m); c.algorithm == a && c.level == Or(NumberIn(t, CompressLevel), 10)
  {
    CompressForms(a, "");
  }

  /** `compress = "alg"` names the algorithm. */
  lemma CompressNames(es: seq<Entry>, a: string)
    requires Parse(es).Ok? && NoKeyTwice(es) && a != "" && ':' !in a
    requires Compress in TableOf(es) && CompressAlgorithm !in TableOf(es) && TableOf(es)[Compress] == Str(a)
    ensures var t, c := TableOf(es), Parse(es).value.compression;
            c.algorithm == a && c.level == Or(NumberIn(t, CompressLevel), 10)
  {
    var m := CompressionParsed(es);
    CompressNamesFrom(TableOf(es), m, a);
  }

  lemma CompressLevelFrom(t: Table, m: Nested, a: string, n: int)
    requires HasCompression(t, m) && LevelIsTyped(m) && a != "" && ':' !in a && IsI64(n)
    requires Compress in t && CompressAlgorithm !in t && CompressLevel !in t && t[Compress] == Str(a + ":" + DecimalOf(n))
    ensures var c := CompressionOf(m); c.algorithm == a && c.level == n
  {
    DecimalRoundTrip(n);
    CompressForms(a, DecimalOf(n));
  }

  /** `compress = "alg:level"` also says the level, a decimal number. */
  lemma CompressNamesLevel(es: seq<Entry>, a: string, n: int)
    requires Parse(es).Ok? && NoKeyTwice(es) && a != "" && ':' !in a && IsI64(n)
    requires Compress in TableOf(es) && CompressAlgorithm !in TableOf(es) && CompressLevel !in TableOf(es)
    requires TableOf(es)[Compress] == Str(a + ":" + DecimalOf(n))
    ensures var c := Parse(es).value.compression; c.algorithm == a && c.level == n
  {
    var m := CompressionParsed(es);
    CompressLevelFrom(TableOf(es), m, a, n);
  }

  // ----- both keys at once -----

  lemma StageValue(k: Key, v: Value, f: Field)
    requires ExplicitOf(f) == Some(k)
    ensures Contribution(Entry(k, v)) == Ok(map[f := v])
  {
  }

  lemma CompressSetsAlgorithm(a: string)
    requires a != "" && ':' !in a
    ensures var r := Contribution(Entry(Compress, Str(a)));
            r.Ok? && GetV(r.value, Plain(CompressAlgorithm)) == Some(Str(a))
  {
    CompressForms(a, "");
  }

  lemma EncryptSetsAlgorithm(a: string)
    requires a != "" && ':' !in a && a != "off" && a != "false"
    ensures var r := Contribution(Entry(Encrypt, Str(a)));
            r.Ok? && GetV(r.value, Plain(EncryptAlgorithm)) == Some(Str(a))
  {
    EncryptTexts(a, "");
  }

  lemma LaterText(es: seq<Entry>, m: Nested, f: Field, i: nat, j: nat, a: string, b: string)
    requires Expand(es) == Ok(m) && NoKeyTwice(es) && i < |es| && j < |es|
    requires es[j].value == Str(b) && Some(es[j].key) == ExplicitOf(f)
    requires es[i].key == if f == Plain(CompressAlgorithm) then Compress else Encrypt
    requires f == Plain(CompressAlgorithm) || f == Plain(EncryptAlgorithm)
    requires Contribution(es[i]).Ok? && GetV(Contribution(es[i]).value, f) == Some(Str(a))
    ensures GetV(m, f) == Some(Str(if i < j then b else a))
  {
    StageValue(es[j].key, Str(b), f);
    StageSetters(f);
    LaterWins(es, f, i, j);
  }

  lemma AlgorithmsOf(m: Nested, s: string)
    ensures GetV(m, Plain(CompressAlgorithm)) == Some(Str(s)) ==> CompressionOf(m).algorithm == s
    ensures GetV(m, Plain(EncryptAlgorithm)) == Some(Str(s)) ==> EncryptionOf(m).algorithm == s
  {
  }

  lemma CompressLaterFrom(es: seq<Entry>, m: Nested, i: nat, j: nat, a: string, b: string)
    requires Expand(es) == Ok(m) && NoKeyTwice(es) && i < |es| && j < |es| && a != "" && ':' !in a
    requires es[i] == Entry(Compress, Str(a)) && es[j] == Entry(CompressAlgorithm, Str(b))
    ensures CompressionOf(m).algorithm == if i < j then b else a
  {
    CompressSetsAlgorithm(a);
    LaterText(es, m, Plain(CompressAlgorithm), i, j, a, b);
    AlgorithmsOf(m, if i < j then b else a);
  }

  lemma EncryptLaterFrom(es: seq<Entry>, m: Nested, i: nat, j: nat, a: string, b: string)
    requires Expand(es) == Ok(m) && NoKeyTwice(es) && i < |es| && j < |es|
    requires a != "" && ':' !in a && a != "off" && a != "false"
    requires es[i] == Entry(Encrypt, Str(a)) && es[j] == Entry(EncryptAlgorithm, Str(b))
    ensures EncryptionOf(m).algorithm == if i < j then b else a
  {
    EncryptSetsAlgorithm(a);
    LaterText(es, m, Plain(EncryptAlgorithm), i, j, a, b);
    AlgorithmsOf(m, if i < j then b else a);
  }

  /** With `compress = "alg"` and `compress_algorithm` both, the later entry names the algorithm. */
  lemma CompressLater(es: seq<Entry>, i: nat, j: nat, a: string, b: string)
    requires Parse(es).Ok? && NoKeyTwice(es) && i < |es| && j < |es| && a != "" && ':' !in a
    requires es[i] == Entry(Compress, Str(a)) && es[j] == Entry(CompressAlgorithm, Str(b))
    ensures Parse(es).value.compression.algorithm == if i < j then b else a
  {
    var m := ParseDecodes(es);
    CompressLaterFrom(es, m, i, j, a, b);
  }

  /** And so with `encrypt = "alg"` and `encrypt_algorithm`. */
  lemma EncryptLater(es: seq<Entry>, i: nat, j: nat, a: string, b: string)
    requires Parse(es).Ok? && NoKeyTwice(es) && i < |es| && j < |es|
    requires a != "" && ':' !in a && a != "off" && a != "false"
    requires es[i] == Entry(Encrypt, Str(a)) && es[j] == Entry(EncryptAlgorithm, Str(b))
    ensures Parse(es).value.encryption.algorithm == if i < j then b else a
  {
    var m := ParseDecodes(es);
    EncryptLaterFrom(es, m, i, j, a, b);
  }
}
