/** What each key of a v2 profile means, whatever the order of the entries: the
    documented forms of the compact keys, and the settings that the printer never
    writes. */
module ConfigMeaning {
  import opened Schema
  import opened StableSort
  import opened TomlText
  import opened ConfigV2
  import opened ConfigRoundTrip
  import opened ConfigLaws

  // ----- what a table says -----

  type Table = map<Key, Value>

  /** The value under each key. */
  function TableOf(es: seq<Entry>): Table {
    if es == [] then map[] else TableOf(es[..|es| - 1])[es[|es| - 1].key := es[|es| - 1].value]
  }

  function ValueIn(t: Table, k: Key): Option<Value> {
    if k in t then Some(t[k]) else None
  }

  function TextIn(t: Table, k: Key): Option<string> {
    if k in t && t[k].Str? then Some(t[k].s) else None
  }

  function NumberIn(t: Table, k: Key): Option<int> {
    if k in t && t[k].Int? then Some(t[k].n) else None
  }

  lemma {:induction false} TableHolds(es: seq<Entry>, k: Key)
    ensures k in TableOf(es) ==> Entry(k, TableOf(es)[k]) in es
    ensures k !in TableOf(es) ==> forall e :: e in es ==> e.key != k
    ensures NoKeyTwice(es) ==> forall e :: e in es && e.key == k ==> ValueIn(TableOf(es), k) == Some(e.value)
  {
    if es != [] {
      FrontLast(es);
      TableHolds(es[..|es| - 1], k);
    }
  }

  // ----- where a setting comes from -----

  /** Of the entries of a table, only that of key `k` sets `f`. */
  ghost predicate IsSetBy(es: seq<Entry>, f: Field, k: Key) {
    forall e :: e in es && Contribution(e).Ok? && f in Contribution(e).value ==> e.key == k
  }

  function SetBy(k: Key, v: Option<Value>, f: Field): Option<Value> {
    if v.Some? && Contribution(Entry(k, v.value)).Ok? then GetV(Contribution(Entry(k, v.value)).value, f) else None
  }

  lemma {:induction false} NoneHas(cs: seq<Result<Nested, ConfigError>>, f: Field)
    requires MergeAll(cs).Ok? && forall j :: 0 <= j < |cs| ==> cs[j].Ok? && f !in cs[j].value
    ensures f !in MergeAll(cs).value
  {
    if cs != [] {
      NoneHas(cs[..|cs| - 1], f);
    }
  }

  /** The part at `i` alone sets `f`, if any does. */
  lemma SettingAt(cs: seq<Result<Nested, ConfigError>>, f: Field, i: nat)
    requires MergeAll(cs).Ok? && i < |cs|
    requires forall j :: 0 <= j < |cs| && j != i && cs[j].Ok? ==> f !in cs[j].value
    ensures cs[i].Ok? && GetV(MergeAll(cs).value, f) == GetV(cs[i].value, f)
  {
    MergeOk(cs);
    if f in MergeAll(cs).value {
      var j := MergeFrom(cs, f);
    }
    if f in cs[i].value {
      MergeHas(cs, i, f);
    }
  }

  lemma NeverSet(es: seq<Entry>, f: Field)
    requires Expand(es).Ok?
    requires forall e :: e in es && Contribution(e).Ok? ==> f !in Contribution(e).value
    ensures f !in Expand(es).value
  {
    var cs := Contributions(es);
    MergeOk(cs);
    forall j | 0 <= j < |cs| ensures cs[j].Ok? && f !in cs[j].value {
      assert es[j] in es;
    }
    NoneHas(cs, f);
  }

  lemma IndexOfKey(es: seq<Entry>, k: Key) returns (i: nat)
    requires NoKeyTwice(es) && k in TableOf(es)
    ensures i < |es| && es[i] == Entry(k, TableOf(es)[k])
    ensures forall j :: 0 <= j < |es| && j != i ==> es[j].key != k
  {
    TableHolds(es, k);
    i :| 0 <= i < |es| && es[i] == Entry(k, TableOf(es)[k]);
  }

  /** A setting has the value that its only key gives it. */
  lemma SettingFrom(es: seq<Entry>, f: Field, k: Key)
    requires Expand(es).Ok? && IsSetBy(es, f, k) && NoKeyTwice(es)
    ensures GetV(Expand(es).value, f) == SetBy(k, ValueIn(TableOf(es), k), f)
  {
    if k in TableOf(es) {
      var i := IndexOfKey(es, k);
      var cs := Contributions(es);
      forall j | 0 <= j < |cs| && j != i && cs[j].Ok? ensures f !in cs[j].value {
        assert es[j] in es;
      }
      SettingAt(cs, f, i);
    } else {
      TableHolds(es, k);
      NeverSet(es, f);
    }
  }

  /** The keys whose setting no compact form sets. */
  predicate IsPlainKey(k: Key) {
    match k
    case Dest | DestName | S3Bucket | S3Prefix | S3Region | S3Endpoint | S3Creds => false
    case Compress | CompressAlgorithm | CompressLevel | Encrypt | EncryptAlgorithm | RecipientFile => false
    case ExtendsKey | UnknownKey(_) => false
    case _ => true
  }

  lemma PlainSets(k: Key, v: Value)
    requires IsPlainKey(k)
    ensures Contribution(Entry(k, v)) == Ok(map[Plain(k) := v])
  {
  }

  lemma PlainSetter(e: Entry, k: Key)
    requires IsPlainKey(k) && Contribution(e).Ok? && Plain(k) in Contribution(e).value
    ensures e.key == k
  {
  }

  lemma PlainIsSetBy(es: seq<Entry>, k: Key)
    requires IsPlainKey(k)
    ensures IsSetBy(es, Plain(k), k)
  {
    forall e | e in es && Contribution(e).Ok? && Plain(k) in Contribution(e).value ensures e.key == k {
      PlainSetter(e, k);
    }
  }

  lemma PlainSaid(es: seq<Entry>, k: Key)
    requires Expand(es).Ok? && NoKeyTwice(es) && IsPlainKey(k)
    ensures GetV(Expand(es).value, Plain(k)) == ValueIn(TableOf(es), k)
  {
    PlainIsSetBy(es, k);
    SettingFrom(es, Plain(k), k);
    if k in TableOf(es) {
      PlainSets(k, TableOf(es)[k]);
    }
  }

  // ----- plain keys -----

  /** The nested settings of a table without repeated keys. */
  ghost predicate Decodes(es: seq<Entry>, m: Nested) {
    NoKeyTwice(es) && Expand(es) == Ok(m) && IsWellTyped(m)
  }

  lemma ParseDecodes(es: seq<Entry>) returns (m: Nested)
    requires Parse(es).Ok? && NoKeyTwice(es)
    ensures Decodes(es, m) && Parse(es).value == ProfileOf(m)
  {
    m := Expand(es).value;
  }

  lemma PlainHas(es: seq<Entry>, m: Nested, k: Key)
    requires Decodes(es, m) && IsPlainKey(k)
    ensures GetV(m, Plain(k)) == ValueIn(TableOf(es), k)
    ensures k in TableOf(es) ==> HasKind(TableOf(es)[k], KindOf(Plain(k)))
  {
    PlainSaid(es, k);
  }

  predicate IsOfKind(k: Key, kind: Kind) {
    IsPlainKey(k) && KindOf(Plain(k)) == kind
  }

  lemma TextHas(es: seq<Entry>, m: Nested, k: Key)
    requires Decodes(es, m) && IsOfKind(k, KStr)
    ensures OptStr(m, Plain(k)) == TextIn(TableOf(es), k)
    ensures forall d :: StrOr(m, Plain(k), d) == Or(TextIn(TableOf(es), k), d)
    ensures k in TableOf(es) ==> TableOf(es)[k].Str?
  {
    PlainHas(es, m, k);
  }

  lemma FlagHas(es: seq<Entry>, m: Nested, k: Key)
    requires Decodes(es, m) && IsOfKind(k, KBool)
    ensures k in TableOf(es) ==> TableOf(es)[k].Bool?
    ensures BoolOr(m, Plain(k), false) == (ValueIn(TableOf(es), k) == Some(Bool(true)))
    ensures BoolOr(m, Plain(k), true) == (ValueIn(TableOf(es), k) != Some(Bool(false)))
  {
    PlainHas(es, m, k);
  }

  lemma CountHas(es: seq<Entry>, m: Nested, k: Key)
    requires Decodes(es, m) && IsOfKind(k, KU32)
    ensures k in TableOf(es) ==> TableOf(es)[k].Int? && 0 <= TableOf(es)[k].n < 0x1_0000_0000
    ensures OptU32(m, Plain(k)) == NumberIn(TableOf(es), k)
  {
    PlainHas(es, m, k);
  }

  lemma SecondsHave(es: seq<Entry>, m: Nested, k: Key)
    requires Decodes(es, m) && IsOfKind(k, KU64)
    ensures k in TableOf(es) ==> TableOf(es)[k].Int? && 0 <= TableOf(es)[k].n < 0x1_0000_0000_0000_0000
    ensures OptU64(m, Plain(k)) == NumberIn(TableOf(es), k)
  {
    PlainHas(es, m, k);
  }

  function Or<T>(o: Option<T>, d: T): T {
    if o.Some? then o.value else d
  }

  /** Every plain setting is what the table says under its key. */
  ghost predicate HasPlain(t: Table, m: Nested) {
    && (forall k {:trigger OptStr(m, Plain(k))} :: IsOfKind(k, KStr) ==> OptStr(m, Plain(k)) == TextIn(t, k))
    && (forall k, d {:trigger StrOr(m, Plain(k), d)} :: IsOfKind(k, KStr) ==> StrOr(m, Plain(k), d) == Or(TextIn(t, k), d))
    && (forall k {:trigger BoolOr(m, Plain(k), false)} ::
          IsOfKind(k, KBool) ==> BoolOr(m, Plain(k), false) == (ValueIn(t, k) == Some(Bool(true))))
    && (forall k {:trigger BoolOr(m, Plain(k), true)} ::
          IsOfKind(k, KBool) ==> BoolOr(m, Plain(k), true) == (ValueIn(t, k) != Some(Bool(false))))
    && (forall k {:trigger OptU32(m, Plain(k))} :: IsOfKind(k, KU32) ==> OptU32(m, Plain(k)) == NumberIn(t, k))
    && (forall k {:trigger OptU64(m, Plain(k))} :: IsOfKind(k, KU64) ==> OptU64(m, Plain(k)) == NumberIn(t, k))
  }

  lemma PlainParsed(es: seq<Entry>) returns (m: Nested)
    requires Parse(es).Ok? && NoKeyTwice(es)
    ensures Parse(es).value == ProfileOf(m) && HasPlain(TableOf(es), m)
  {
    m := ParseDecodes(es);
    forall k | IsOfKind(k, KStr) ensures OptStr(m, Plain(k)) == TextIn(TableOf(es), k) {
      TextHas(es, m, k);
    }
    forall k, d | IsOfKind(k, KStr) ensures StrOr(m, Plain(k), d) == Or(TextIn(TableOf(es), k), d) {
      TextHas(es, m, k);
    }
    forall k | IsOfKind(k, KBool)
      ensures BoolOr(m, Plain(k), false) == (ValueIn(TableOf(es), k) == Some(Bool(true)))
      ensures BoolOr(m, Plain(k), true) == (ValueIn(TableOf(es), k) != Some(Bool(false)))
    {
      FlagHas(es, m, k);
    }
    forall k | IsOfKind(k, KU32) ensures OptU32(m, Plain(k)) == NumberIn(TableOf(es), k) {
      CountHas(es, m, k);
    }
    forall k | IsOfKind(k, KU64) ensures OptU64(m, Plain(k)) == NumberIn(TableOf(es), k) {
      SecondsHave(es, m, k);
    }
  }

  lemma SourceMeansFrom(t: Table, m: Nested)
    requires HasPlain(t, m)
    ensures var s := SourceOf(m);
            && s.uri == TextIn(t, Uri) && s.uriEnv == TextIn(t, UriEnv)
            && s.readUri == TextIn(t, ReadUri) && s.readUriEnv == TextIn(t, ReadUriEnv)
            && s.preferSecondary == (ValueIn(t, PreferSecondary) == Some(Bool(true)))
            && s.connectTimeout == NumberIn(t, ConnectTimeout)
  {
  }

  /** The source keys. */
  lemma SourceMeans(es: seq<Entry>)
    requires Parse(es).Ok? && NoKeyTwice(es)
    ensures var s := Parse(es).value.source;
            && s.uri == TextIn(TableOf(es), Uri) && s.uriEnv == TextIn(TableOf(es), UriEnv)
            && s.readUri == TextIn(TableOf(es), ReadUri) && s.readUriEnv == TextIn(TableOf(es), ReadUriEnv)
            && s.preferSecondary == (ValueIn(TableOf(es), PreferSecondary) == Some(Bool(true)))
            && s.connectTimeout == NumberIn(TableOf(es), ConnectTimeout)
  {
    var m := PlainParsed(es);
    SourceMeansFrom(TableOf(es), m);
  }

  lemma ModeMeansFrom(t: Table, m: Nested)
    requires HasPlain(t, m)
    ensures var mode := ModeOf(m);
            && mode.backupType == Or(TextIn(t, BackupType), "full")
            && mode.output == Or(TextIn(t, OutputMode), "progress")
            && mode.precheck == (ValueIn(t, Precheck) != Some(Bool(false)))
            && mode.engine == Or(TextIn(t, Engine), "native")
  {
  }

  /** The mode keys and their defaults. */
  lemma ModeMeans(es: seq<Entry>)
    requires Parse(es).Ok? && NoKeyTwice(es)
    ensures var mode := Parse(es).value.mode;
            && mode.backupType == Or(TextIn(TableOf(es), BackupType), "full")
            && mode.output == Or(TextIn(TableOf(es), OutputMode), "progress")
            && mode.precheck == (ValueIn(TableOf(es), Precheck) != Some(Bool(false)))
            && mode.engine == Or(TextIn(TableOf(es), Engine), "native")
  {
    var m := PlainParsed(es);
    ModeMeansFrom(TableOf(es), m);
  }

  lemma IncrementalMeansFrom(t: Table, m: Nested)
    requires HasPlain(t, m)
    ensures var i := IncrementalOf(m);
            && i.interval == Or(TextIn(t, IncrInterval), "15m")
            && i.onGap == Or(TextIn(t, IncrOnGap), "promote_full")
            && i.pgLogical == (ValueIn(t, PgLogical) == Some(Bool(true)))
            && i.mysqlBinlog == (ValueIn(t, MysqlBinlog) == Some(Bool(true)))
  {
    assert IsOfKind(IncrInterval, KStr) && IsOfKind(IncrOnGap, KStr);
    assert IsOfKind(PgLogical, KBool) && IsOfKind(MysqlBinlog, KBool);
  }

  /** The keys of incremental backups and their defaults. */
  lemma IncrementalMeans(es: seq<Entry>)
    requires Parse(es).Ok? && NoKeyTwice(es)
    ensures var i := Parse(es).value.incremental;
            && i.interval == Or(TextIn(TableOf(es), IncrInterval), "15m")
            && i.onGap == Or(TextIn(TableOf(es), IncrOnGap), "promote_full")
            && i.pgLogical == (ValueIn(TableOf(es), PgLogical) == Some(Bool(true)))
            && i.mysqlBinlog == (ValueIn(TableOf(es), MysqlBinlog) == Some(Bool(true)))
  {
    var m := PlainParsed(es);
    IncrementalMeansFrom(TableOf(es), m);
  }

  lemma TextField(t: Table, m: Nested, k: Key)
    requires HasPlain(t, m) && IsOfKind(k, KStr)
    ensures OptStr(m, Plain(k)) == TextIn(t, k)
  {
  }

  lemma CountField(t: Table, m: Nested, k: Key)
    requires HasPlain(t, m) && IsOfKind(k, KU32)
    ensures OptU32(m, Plain(k)) == NumberIn(t, k)
  {
  }

  lemma SecondsField(t: Table, m: Nested, k: Key)
    requires HasPlain(t, m) && IsOfKind(k, KU64)
    ensures OptU64(m, Plain(k)) == NumberIn(t, k)
  {
  }

  lemma RetentionMeansFrom(t: Table, m: Nested)
    requires HasPlain(t, m)
    ensures var r := RetentionOf(m);
            && r.keepFull == NumberIn(t, KeepFull) && r.keepDays == NumberIn(t, KeepDays)
            && r.keepLast == NumberIn(t, KeepLast)
            && r.recoveryWindowDays == NumberIn(t, RecoveryWindowDays)
            && r.minRedundancy == NumberIn(t, MinRedundancy)
  {
    CountField(t, m, KeepFull);
    CountField(t, m, KeepDays);
    CountField(t, m, KeepLast);
    CountField(t, m, RecoveryWindowDays);
    CountField(t, m, MinRedundancy);
  }

  /** The retention keys, those that the printer drops included. */
  lemma RetentionMeans(es: seq<Entry>)
    requires Parse(es).Ok? && NoKeyTwice(es)
    ensures var r := Parse(es).value.retention;
            && r.keepFull == NumberIn(TableOf(es), KeepFull) && r.keepDays == NumberIn(TableOf(es), KeepDays)
            && r.keepLast == NumberIn(TableOf(es), KeepLast)
            && r.recoveryWindowDays == NumberIn(TableOf(es), RecoveryWindowDays)
            && r.minRedundancy == NumberIn(TableOf(es), MinRedundancy)
  {
    var m := PlainParsed(es);
    RetentionMeansFrom(TableOf(es), m);
  }

  lemma HooksMeanFrom(t: Table, m: Nested)
    requires HasPlain(t, m)
    ensures var h := HooksOf(m);
            && h.preBackup == TextIn(t, HookPreBackup) && h.postBackup == TextIn(t, HookPostBackup)
            && h.preRestore == TextIn(t, HookPreRestore) && h.postRestore == TextIn(t, HookPostRestore)
            && h.prePrune == TextIn(t, HookPrePrune) && h.postPrune == TextIn(t, HookPostPrune)
            && h.onError == TextIn(t, HookOnError) && h.timeout == NumberIn(t, HookTimeout)
  {
    SecondsField(t, m, HookTimeout);
    TextField(t, m, HookPreBackup);
    TextField(t, m, HookPostBackup);
    TextField(t, m, HookPreRestore);
    TextField(t, m, HookPostRestore);
    TextField(t, m, HookPrePrune);
    TextField(t, m, HookPostPrune);
    TextField(t, m, HookOnError);
  }

  /** The hooks, which the printer never writes. */
  lemma HooksMean(es: seq<Entry>)
    requires Parse(es).Ok? && NoKeyTwice(es)
    ensures var h := Parse(es).value.hooks;
            && h.preBackup == TextIn(TableOf(es), HookPreBackup) && h.postBackup == TextIn(TableOf(es), HookPostBackup)
            && h.preRestore == TextIn(TableOf(es), HookPreRestore) && h.postRestore == TextIn(TableOf(es), HookPostRestore)
            && h.prePrune == TextIn(TableOf(es), HookPrePrune) && h.postPrune == TextIn(TableOf(es), HookPostPrune)
            && h.onError == TextIn(TableOf(es), HookOnError) && h.timeout == NumberIn(TableOf(es), HookTimeout)
  {
    var m := PlainParsed(es);
    HooksMeanFrom(TableOf(es), m);
  }

  lemma DaemonMeansFrom(t: Table, m: Nested)
    requires HasPlain(t, m)
    ensures var d := DaemonOf(m);
            d.schedule == TextIn(t, Schedule) && d.webhookEnv == TextIn(t, NotifyWebhookEnv)
  {
  }

  /** Schedule and notification, which the printer never writes. */
  lemma DaemonMeans(es: seq<Entry>)
    requires Parse(es).Ok? && NoKeyTwice(es)
    ensures var d := Parse(es).value.daemon;
            d.schedule == TextIn(TableOf(es), Schedule) && d.webhookEnv == TextIn(TableOf(es), NotifyWebhookEnv)
  {
    var m := PlainParsed(es);
    DaemonMeansFrom(TableOf(es), m);
  }

  // ----- settings with two keys -----

  lemma OnlyValue(es: seq<Entry>, e: Entry)
    requires NoKeyTwice(es) && e in es
    ensures e.key in TableOf(es) && TableOf(es)[e.key] == e.value
  {
    TableHolds(es, e.key);
  }

  /** No other key than these two sets `f`. */
  ghost predicate SetOnlyBy(f: Field, compact: Key, explicit: Key) {
    forall e {:trigger Contribution(e)} ::
      Contribution(e).Ok? && f in Contribution(e).value ==> e.key == compact || e.key == explicit
  }

  /** Only the compact key is there. */
  lemma SettingOfCompact(es: seq<Entry>, f: Field, compact: Key, explicit: Key)
    requires Expand(es).Ok? && NoKeyTwice(es) && SetOnlyBy(f, compact, explicit) && explicit !in TableOf(es)
    ensures GetV(Expand(es).value, f) == SetBy(compact, ValueIn(TableOf(es), compact), f)
  {
    forall e | e in es && Contribution(e).Ok? && f in Contribution(e).value ensures e.key == compact {
      OnlyValue(es, e);
    }
    SettingFrom(es, f, compact);
  }

  /** The compact key does not set `f`, if it is there at all. */
  lemma SettingOfExplicit(es: seq<Entry>, f: Field, compact: Key, explicit: Key)
    requires Expand(es).Ok? && NoKeyTwice(es) && SetOnlyBy(f, compact, explicit)
    requires SetBy(compact, ValueIn(TableOf(es), compact), f).None?
    ensures GetV(Expand(es).value, f) == SetBy(explicit, ValueIn(TableOf(es), explicit), f)
  {
    forall e | e in es && Contribution(e).Ok? && f in Contribution(e).value ensures e.key == explicit {
      OnlyValue(es, e);
    }
    SettingFrom(es, f, explicit);
  }

  /** The compact value if there is no explicit one, the explicit one if there is no compact one. */
  predicate IsEither(value: Option<Value>, compact: Option<Value>, explicit: Option<Value>) {
    (explicit.None? ==> value == compact) && (compact.None? ==> value == explicit)
  }

  lemma SettingOfTwo(es: seq<Entry>, f: Field, compact: Key, explicit: Key)
    requires Expand(es).Ok? && NoKeyTwice(es) && SetOnlyBy(f, compact, explicit)
    requires forall v :: SetBy(explicit, v, f) == v
    ensures IsEither(GetV(Expand(es).value, f), SetBy(compact, ValueIn(TableOf(es), compact), f), ValueIn(TableOf(es), explicit))
  {
    if explicit !in TableOf(es) {
      SettingOfCompact(es, f, compact, explicit);
    }
    if SetBy(compact, ValueIn(TableOf(es), compact), f).None? {
      SettingOfExplicit(es, f, compact, explicit);
    }
  }

  // ----- settings that two entries set -----

  lemma {:induction false} MergeLast(cs: seq<Result<Nested, ConfigError>>, f: Field, i: nat)
    requires MergeAll(cs).Ok? && i < |cs| && cs[i].Ok? && f in cs[i].value
    requires forall j :: i < j < |cs| && cs[j].Ok? ==> f !in cs[j].value
    ensures GetV(MergeAll(cs).value, f) == Some(cs[i].value[f])
  {
    if i < |cs| - 1 {
      MergeLast(cs[..|cs| - 1], f, i);
    }
  }

  /** Of two entries for one setting the later one, in the order of the table, wins. */
  lemma LaterWins(es: seq<Entry>, f: Field, i: nat, j: nat)
    requires Expand(es).Ok? && NoKeyTwice(es) && i < |es| && j < |es| && i != j && SetOnlyBy(f, es[i].key, es[j].key)
    requires Contribution(es[i]).Ok? && f in Contribution(es[i]).value
    requires Contribution(es[j]).Ok? && f in Contribution(es[j]).value
    ensures GetV(Expand(es).value, f)
            == Some(if i < j then Contribution(es[j]).value[f] else Contribution(es[i]).value[f])
  {
    var cs, last := Contributions(es), if i < j then j else i;
    forall k | last < k < |cs| && cs[k].Ok? ensures f !in cs[k].value {
      assert es[k].key != es[i].key && es[k].key != es[j].key;
    }
    MergeLast(cs, f, last);
  }

  // ----- refusals -----

  /** An entry that sets nothing makes the whole profile an error. */
  lemma Refused(es: seq<Entry>, e: Entry)
    requires e in es && Contribution(e).Err?
    ensures Parse(es).Err?
  {
    MergeOk(Contributions(es));
    var i :| 0 <= i < |es| && es[i] == e;
    assert Contributions(es)[i].Err?;
  }
}
