/** The destinations of a v2 profile: what the compact text, the explicit keys
    and the elements of an array mean. */
module ConfigPlaces {
  import opened Schema
  import opened StableSort
  import opened TomlText
  import opened ConfigV2
  import opened ConfigRoundTrip
  import opened ConfigLaws
  import opened ConfigMeaning

  // ----- a destination from a compact text and explicit keys -----

  function DestSets(v: Option<Value>, f: Field): Option<Value> {
    if v.Some? && v.value.Str? && ParseDestCompact(v.value.s).Ok? then GetV(ParseDestCompact(v.value.s).value, f) else None
  }

  predicate IsPlaced(compact: Option<Value>, x: Nested, m: Nested, f: Field) {
    IsEither(GetV(m, f), DestSets(compact, f), GetV(x, f))
  }

  /** Each setting of a destination is that of the compact text or of its own key. */
  ghost predicate AllPlaced(compact: Option<Value>, x: Nested, m: Nested) {
    forall f :: IsDestField(f) ==> IsPlaced(compact, x, m, f)
  }

  lemma EachPlaced(compact: Option<Value>, x: Nested, m: Nested)
    requires AllPlaced(compact, x, m)
    ensures IsPlaced(compact, x, m, DName) && IsPlaced(compact, x, m, DType) && IsPlaced(compact, x, m, DPath)
    ensures IsPlaced(compact, x, m, SBucket) && IsPlaced(compact, x, m, SPrefix) && IsPlaced(compact, x, m, SRegion)
    ensures IsPlaced(compact, x, m, SEndpoint) && IsPlaced(compact, x, m, SCreds)
  {
  }

  function TextAt(x: Nested, f: Field): Option<string> {
    if f in x && x[f].Str? then Some(x[f].s) else None
  }

  /** The S3 settings under explicit keys, if there is one. */
  function S3At(x: Nested): Option<S3> {
    if SEndpoint in x || SBucket in x || SPrefix in x || SRegion in x || SCreds in x
    then Some(S3(TextAt(x, SEndpoint), TextAt(x, SBucket), TextAt(x, SPrefix), TextAt(x, SRegion), TextAt(x, SCreds)))
    else None
  }

  lemma PlacedByKeys(x: Nested, m: Nested)
    requires AllPlaced(None, x, m)
    ensures DestinationOf(m) == Destination(TextAt(x, DName), TextAt(x, DType), TextAt(x, DPath), S3At(x))
  {
    EachPlaced(None, x, m);
  }

  lemma LocalSets(path: string, f: Field)
    requires path != ""
    ensures DestSets(Some(Str("local:" + path)), f)
            == if f == DType then Some(Str("local")) else if f == DPath then Some(Str(path)) else None
  {
    LocalText(path);
  }

  lemma PlacedLocally(path: string, x: Nested, m: Nested)
    requires path != "" && AllPlaced(Some(Str("local:" + path)), x, m) && DType !in x && DPath !in x
    ensures DestinationOf(m) == Destination(TextAt(x, DName), Some("local"), Some(path), S3At(x))
  {
    var compact := Some(Str("local:" + path));
    EachPlaced(compact, x, m);
    forall f ensures DestSets(compact, f)
                     == if f == DType then Some(Str("local")) else if f == DPath then Some(Str(path)) else None
    {
      LocalSets(path, f);
    }
  }

  /** The text of a bucket, with what follows the slash if there is one. */
  predicate IsBucketText(s: string, bucket: string, prefix: string) {
    bucket != "" && '/' !in bucket && (s == "s3:" + bucket + "/" + prefix || (s == "s3:" + bucket && prefix == ""))
  }

  lemma BucketRest(s: string, bucket: string, prefix: string) returns (rest: string)
    requires IsBucketText(s, bucket, prefix)
    ensures s == "s3:" + rest && BucketOf(rest) == bucket && PrefixOf(rest) == prefix
  {
    if s == "s3:" + bucket + "/" + prefix {
      rest := bucket + ['/'] + prefix;
      SplitAtFirst(bucket, '/', prefix);
    } else {
      rest := bucket;
      NothingToSplit(bucket, '/');
    }
  }

  lemma BucketSets(s: string, bucket: string, prefix: string, f: Field)
    requires IsBucketText(s, bucket, prefix)
    ensures DestSets(Some(Str(s)), f)
            == if f == DType then Some(Str("s3")) else if f == SBucket then Some(Str(bucket))
               else if f == SPrefix && prefix != "" then Some(Str(prefix)) else None
  {
    var rest := BucketRest(s, bucket, prefix);
    S3Parse(rest);
  }

  lemma PlacedInBucket(s: string, bucket: string, prefix: string, x: Nested, m: Nested)
    requires IsBucketText(s, bucket, prefix) && AllPlaced(Some(Str(s)), x, m)
    requires DType !in x && SBucket !in x && (prefix == "" || SPrefix !in x)
    ensures DestinationOf(m)
            == Destination(
                 TextAt(x, DName), Some("s3"), TextAt(x, DPath),
                 Some(S3(TextAt(x, SEndpoint), Some(bucket), if prefix == "" then TextAt(x, SPrefix) else Some(prefix),
                         TextAt(x, SRegion), TextAt(x, SCreds))))
  {
    EachPlaced(Some(Str(s)), x, m);
    forall f ensures DestSets(Some(Str(s)), f)
                     == if f == DType then Some(Str("s3")) else if f == SBucket then Some(Str(bucket))
                        else if f == SPrefix && prefix != "" then Some(Str(prefix)) else None
    {
      BucketSets(s, bucket, prefix, f);
    }
  }

  /** The texts that name no destination. */
  lemma NoPlace(s: string, bucket: string, rest: string)
    ensures ':' !in s ==> ParseDestCompact(s).Err?
    ensures ':' !in s && s != "local" && s != "s3" ==> ParseDestCompact(s + ":" + rest).Err?
    ensures ParseDestCompact("local:").Err? && ParseDestCompact("s3:").Err? && ParseDestCompact("s3:/" + rest).Err?
  {
    if ':' !in s {
      NothingToSplit(s, ':');
      SplitAtFirst(s, ':', rest);
      assert s + [':'] + rest == s + ":" + rest;
    }
    LocalText("");
    assert "local:" + "" == "local:";
    NoBucketText();
    S3Parse("/" + rest);
    assert "s3:" + ("/" + rest) == "s3:/" + rest;
    SplitAtFirst("", '/', rest);
    assert "" + ['/'] + rest == "/" + rest;
  }

  // ----- the destination keys of a profile -----

  /** The flat key for a setting of the destination that has its own. */
  function KeyFor(f: Field): Option<Key> {
    match f
    case DName => Some(DestName)
    case SBucket => Some(S3Bucket)
    case SPrefix => Some(S3Prefix)
    case SRegion => Some(S3Region)
    case SEndpoint => Some(S3Endpoint)
    case SCreds => Some(S3Creds)
    case _ => None
  }

  lemma PlaceSetter(e: Entry, f: Field)
    requires Contribution(e).Ok? && f in Contribution(e).value && (IsDestField(f) || f == Destinations)
    ensures e.key == Dest || Some(e.key) == KeyFor(f)
  {
  }

  lemma PlaceKeySets(v: Option<Value>, f: Field)
    ensures KeyFor(f).Some? ==> SetBy(KeyFor(f).value, v, f) == v
    ensures IsDestField(f) ==> SetBy(Dest, v, f) == DestSets(v, f)
  {
  }

  /** The settings under their own flat keys. */
  function PlaceKeys(t: Table): Nested {
    map f | f in DEST_FIELDS && KeyFor(f).Some? && KeyFor(f).value in t :: t[KeyFor(f).value]
  }

  lemma PlaceOf(es: seq<Entry>, m: Nested, f: Field)
    requires NoKeyTwice(es) && Expand(es) == Ok(m) && IsDestField(f)
    ensures IsPlaced(ValueIn(TableOf(es), Dest), PlaceKeys(TableOf(es)), m, f)
  {
    var t := TableOf(es);
    forall v
      ensures KeyFor(f).Some? ==> SetBy(KeyFor(f).value, v, f) == v
      ensures SetBy(Dest, v, f) == DestSets(v, f)
    {
      PlaceKeySets(v, f);
    }
    forall e {:trigger Contribution(e)} | Contribution(e).Ok? && f in Contribution(e).value
      ensures e.key == Dest || Some(e.key) == KeyFor(f)
    {
      PlaceSetter(e, f);
    }
    if KeyFor(f).Some? {
      SettingOfTwo(es, f, Dest, KeyFor(f).value);
    } else {
      SettingFrom(es, f, Dest);
    }
  }

  lemma ArraySets(v: Option<Value>)
    ensures SetBy(Dest, v, Destinations)
            == if v.Some? && v.value.Tables? && ExpandElements(v.value.elems).Ok?
               then Some(Expanded(ExpandElements(v.value.elems).value)) else None
  {
  }

  lemma ArrayOf(es: seq<Entry>, m: Nested)
    requires NoKeyTwice(es) && Expand(es) == Ok(m)
    ensures GetV(m, Destinations) == SetBy(Dest, ValueIn(TableOf(es), Dest), Destinations)
  {
    forall e | e in es && Contribution(e).Ok? && Destinations in Contribution(e).value ensures e.key == Dest {
      PlaceSetter(e, Destinations);
    }
    SettingFrom(es, Destinations, Dest);
  }

  predicate IsArray(v: Option<Value>) {
    v.Some? && v.value.Tables?
  }

  lemma SingleParsed(es: seq<Entry>) returns (m: Nested)
    requires Parse(es).Ok? && NoKeyTwice(es) && !IsArray(ValueIn(TableOf(es), Dest))
    ensures Parse(es).value.destination == DestinationOf(m) && Parse(es).value.destinations == []
    ensures AllPlaced(ValueIn(TableOf(es), Dest), PlaceKeys(TableOf(es)), m)
  {
    m := ParseDecodes(es);
    ArrayOf(es, m);
    ArraySets(ValueIn(TableOf(es), Dest));
    forall f | IsDestField(f) ensures IsPlaced(ValueIn(TableOf(es), Dest), PlaceKeys(TableOf(es)), m, f) {
      PlaceOf(es, m, f);
    }
  }

  lemma ArrayParsed(es: seq<Entry>) returns (ds: seq<Nested>)
    requires Parse(es).Ok? && NoKeyTwice(es) && IsArray(ValueIn(TableOf(es), Dest))
    ensures ExpandElements(TableOf(es)[Dest].elems) == Ok(ds)
    ensures Parse(es).value.destination == NO_DESTINATION && Parse(es).value.destinations == DestinationsOf(ds)
  {
    var m := ParseDecodes(es);
    ArrayOf(es, m);
    ArraySets(ValueIn(TableOf(es), Dest));
    TableHolds(es, Dest);
    var r := ExpandElements(TableOf(es)[Dest].elems);
    if r.Err? {
      Refused(es, Entry(Dest, TableOf(es)[Dest]));
      assert false;
    }
    ds := r.value;
  }

  /** The S3 settings that a profile names under keys of their own. */
  function S3Keys(t: Table, bucket: Option<string>, prefix: Option<string>): S3 {
    S3(TextIn(t, S3Endpoint), bucket, prefix, TextIn(t, S3Region), TextIn(t, S3Creds))
  }

  /** The table under `s3` exists when one of its keys does. */
  function S3In(t: Table): Option<S3> {
    if S3Endpoint in t || S3Bucket in t || S3Prefix in t || S3Region in t || S3Creds in t
    then Some(S3Keys(t, TextIn(t, S3Bucket), TextIn(t, S3Prefix)))
    else None
  }

  lemma PlaceKeysAre(t: Table)
    ensures var x := PlaceKeys(t);
            && TextAt(x, DName) == TextIn(t, DestName) && DType !in x && DPath !in x && S3At(x) == S3In(t)
            && (S3Bucket in t <==> SBucket in x) && (S3Prefix in t <==> SPrefix in x)
    ensures var x := PlaceKeys(t);
            forall b, p ::
              S3(TextAt(x, SEndpoint), b, p, TextAt(x, SRegion), TextAt(x, SCreds)) == S3Keys(t, b, p)
    ensures TextAt(PlaceKeys(t), SPrefix) == TextIn(t, S3Prefix)
  {
    assert KeyFor(DName) == Some(DestName) && KeyFor(SBucket) == Some(S3Bucket) && KeyFor(SPrefix) == Some(S3Prefix);
    assert KeyFor(SRegion) == Some(S3Region) && KeyFor(SEndpoint) == Some(S3Endpoint) && KeyFor(SCreds) == Some(S3Creds);
  }

  /** Without `dest` the destination has what its explicit keys say, and no kind. */
  lemma PlaceByKeys(es: seq<Entry>)
    requires Parse(es).Ok? && NoKeyTwice(es) && Dest !in TableOf(es)
    ensures var t := TableOf(es);
            Parse(es).value.destination == Destination(TextIn(t, DestName), None, None, S3In(t))
            && Parse(es).value.destinations == []
  {
    var m := SingleParsed(es);
    PlacedByKeys(PlaceKeys(TableOf(es)), m);
    PlaceKeysAre(TableOf(es));
  }

  /** `dest = "local:path"` */
  lemma LocalPlace(es: seq<Entry>, path: string)
    requires Parse(es).Ok? && NoKeyTwice(es) && ValueIn(TableOf(es), Dest) == Some(Str("local:" + path)) && path != ""
    ensures var t := TableOf(es);
            Parse(es).value.destination == Destination(TextIn(t, DestName), Some("local"), Some(path), S3In(t))
            && Parse(es).value.destinations == []
  {
    var m := SingleParsed(es);
    PlaceKeysAre(TableOf(es));
    PlacedLocally(path, PlaceKeys(TableOf(es)), m);
  }

  /** `dest = "s3:bucket"` or `"s3:bucket/prefix"` */
  lemma BucketPlace(es: seq<Entry>, s: string, bucket: string, prefix: string)
    requires Parse(es).Ok? && NoKeyTwice(es) && ValueIn(TableOf(es), Dest) == Some(Str(s))
    requires bucket != "" && '/' !in bucket && (s == "s3:" + bucket + "/" + prefix || (s == "s3:" + bucket && prefix == ""))
    requires S3Bucket !in TableOf(es) && (prefix == "" || S3Prefix !in TableOf(es))
    ensures var t := TableOf(es);
            var p := if prefix == "" then TextIn(t, S3Prefix) else Some(prefix);
            Parse(es).value.destination == Destination(TextIn(t, DestName), Some("s3"), None, Some(S3Keys(t, Some(bucket), p)))
            && Parse(es).value.destinations == []
  {
    var m := SingleParsed(es);
    PlaceKeysAre(TableOf(es));
    PlacedInBucket(s, bucket, prefix, PlaceKeys(TableOf(es)), m);
  }

  // ----- the elements of a destination array -----

  lemma {:induction false} EachElement(elems: seq<seq<DestEntry>>, ds: seq<Nested>, i: nat)
    requires ExpandElements(elems) == Ok(ds) && i < |elems|
    ensures |ds| == |elems| && ExpandElement(elems[i]) == Ok(ds[i])
  {
    var before := ExpandElements(elems[..|elems| - 1]);
    LastOf(elems, ds);
    if |elems| > 1 {
      EachElement(elems[..|elems| - 1], before.value, if i < |elems| - 1 then i else 0);
    }
  }

  lemma LastOf(elems: seq<seq<DestEntry>>, ds: seq<Nested>)
    requires ExpandElements(elems) == Ok(ds) && elems != []
    ensures var before := ExpandElements(elems[..|elems| - 1]);
            var last := ExpandElement(elems[|elems| - 1]);
            before.Ok? && last.Ok? && ds == before.value + [last.value]
    ensures |elems| == 1 ==> |ds| == 1
  {
  }

  /** The values under the explicit keys of an element. */
  function ElementKeys(es: seq<DestEntry>): Nested {
    if es == [] then map[]
    else
      var before, e := ElementKeys(es[..|es| - 1]), es[|es| - 1];
      if e.key.Explicit? then before[e.key.field := e.value] else before
  }

  /** The compact text of an element. */
  function CompactOf(es: seq<DestEntry>): Option<Value> {
    if es == [] then None
    else if es[|es| - 1].key == Compact then Some(es[|es| - 1].value) else CompactOf(es[..|es| - 1])
  }

  lemma {:induction false} ElementHas(es: seq<DestEntry>, f: Field)
    ensures f in ElementKeys(es) ==> DestEntry(Explicit(f), ElementKeys(es)[f]) in es
    ensures f !in ElementKeys(es) ==> forall e :: e in es ==> e.key != Explicit(f)
    ensures CompactOf(es).Some? ==> DestEntry(Compact, CompactOf(es).value) in es
    ensures CompactOf(es).None? ==> forall e :: e in es ==> e.key != Compact
  {
    if es != [] {
      FrontLast(es);
      ElementHas(es[..|es| - 1], f);
    }
  }

  lemma ElementSetter(e: DestEntry, f: Field)
    requires DestContribution(e).Ok? && f in DestContribution(e).value
    ensures e.key == Compact || e.key == Explicit(f)
  {
  }

  /** Only the entry at `i` of the element sets `f`. */
  lemma ElementSettingAt(es: seq<DestEntry>, d: Nested, f: Field, i: nat)
    requires ExpandElement(es) == Ok(d) && i < |es|
    requires forall j :: 0 <= j < |es| && j != i && DestContribution(es[j]).Ok? ==> f !in DestContribution(es[j]).value
    ensures DestContribution(es[i]).Ok? && GetV(d, f) == GetV(DestContribution(es[i]).value, f)
  {
    SettingAt(DestContributions(es), f, i);
  }

  lemma ElementUnset(es: seq<DestEntry>, d: Nested, f: Field)
    requires ExpandElement(es) == Ok(d)
    requires forall j :: 0 <= j < |es| && DestContribution(es[j]).Ok? ==> f !in DestContribution(es[j]).value
    ensures GetV(d, f) == None
  {
    var cs := DestContributions(es);
    MergeOk(cs);
    NoneHas(cs, f);
  }

  lemma ExplicitAlone(es: seq<DestEntry>, d: Nested, f: Field)
    requires ExpandElement(es) == Ok(d) && NoDestKeyTwice(es) && IsDestField(f)
    requires forall e :: e in es && e.key == Compact && DestContribution(e).Ok? ==> f !in DestContribution(e).value
    ensures GetV(d, f) == GetV(ElementKeys(es), f)
  {
    ElementHas(es, f);
    forall j | 0 <= j < |es| && DestContribution(es[j]).Ok? && f in DestContribution(es[j]).value
      ensures es[j].key == Explicit(f)
    {
      assert es[j] in es;
      ElementSetter(es[j], f);
    }
    if f in ElementKeys(es) {
      var i :| 0 <= i < |es| && es[i] == DestEntry(Explicit(f), ElementKeys(es)[f]);
      ElementSettingAt(es, d, f, i);
    } else {
      ElementUnset(es, d, f);
    }
  }

  lemma CompactAlone(es: seq<DestEntry>, d: Nested, f: Field)
    requires ExpandElement(es) == Ok(d) && NoDestKeyTwice(es) && IsDestField(f) && f !in ElementKeys(es)
    ensures GetV(d, f) == DestSets(CompactOf(es), f)
  {
    ElementHas(es, f);
    forall j | 0 <= j < |es| && DestContribution(es[j]).Ok? && f in DestContribution(es[j]).value
      ensures es[j].key == Compact
    {
      assert es[j] in es;
      ElementSetter(es[j], f);
    }
    if CompactOf(es).Some? {
      var i :| 0 <= i < |es| && es[i] == DestEntry(Compact, CompactOf(es).value);
      ElementSettingAt(es, d, f, i);
    } else {
      ElementUnset(es, d, f);
    }
  }

  lemma OnlyCompact(es: seq<DestEntry>, e: DestEntry)
    requires NoDestKeyTwice(es) && e in es && e.key == Compact
    ensures CompactOf(es) == Some(e.value)
  {
    ElementHas(es, DName);
  }

  lemma ElementPlaced(es: seq<DestEntry>, d: Nested)
    requires ExpandElement(es) == Ok(d) && NoDestKeyTwice(es)
    ensures AllPlaced(CompactOf(es), ElementKeys(es), d)
  {
    forall f | IsDestField(f) ensures IsPlaced(CompactOf(es), ElementKeys(es), d, f) {
      if f !in ElementKeys(es) {
        CompactAlone(es, d, f);
      }
      if DestSets(CompactOf(es), f).None? {
        forall e | e in es && e.key == Compact && DestContribution(e).Ok? ensures f !in DestContribution(e).value {
          OnlyCompact(es, e);
        }
        ExplicitAlone(es, d, f);
      }
    }
  }

  lemma ElementParsed(es: seq<Entry>, i: nat) returns (d: Nested)
    requires Parse(es).Ok? && NoKeyTwice(es) && IsArray(ValueIn(TableOf(es), Dest)) && i < |TableOf(es)[Dest].elems|
    requires NoDestKeyTwice(TableOf(es)[Dest].elems[i])
    ensures var elem := TableOf(es)[Dest].elems[i];
            && Parse(es).value.destination == NO_DESTINATION
            && |Parse(es).value.destinations| == |TableOf(es)[Dest].elems|
            && Parse(es).value.destinations[i] == DestinationOf(d) && AllPlaced(CompactOf(elem), ElementKeys(elem), d)
  {
    var ds := ArrayParsed(es);
    EachElement(TableOf(es)[Dest].elems, ds, i);
    d := ds[i];
    ElementPlaced(TableOf(es)[Dest].elems[i], d);
  }

  /** An element without a compact text has what its keys say. */
  lemma ElementByKeys(es: seq<Entry>, i: nat)
    requires Parse(es).Ok? && NoKeyTwice(es) && IsArray(ValueIn(TableOf(es), Dest)) && i < |TableOf(es)[Dest].elems|
    requires var elem := TableOf(es)[Dest].elems[i]; NoDestKeyTwice(elem) && CompactOf(elem).None?
    ensures |Parse(es).value.destinations| == |TableOf(es)[Dest].elems| && Parse(es).value.destination == NO_DESTINATION
    ensures var x := ElementKeys(TableOf(es)[Dest].elems[i]);
            Parse(es).value.destinations[i] == Destination(TextAt(x, DName), TextAt(x, DType), TextAt(x, DPath), S3At(x))
  {
    var d := ElementParsed(es, i);
    PlacedByKeys(ElementKeys(TableOf(es)[Dest].elems[i]), d);
  }

  /** An element with `"local:path"`. */
  lemma ElementLocal(es: seq<Entry>, i: nat, path: string)
    requires Parse(es).Ok? && NoKeyTwice(es) && IsArray(ValueIn(TableOf(es), Dest)) && i < |TableOf(es)[Dest].elems|
    requires var elem := TableOf(es)[Dest].elems[i];
             && NoDestKeyTwice(elem) && CompactOf(elem) == Some(Str("local:" + path)) && path != ""
             && DType !in ElementKeys(elem) && DPath !in ElementKeys(elem)
    ensures |Parse(es).value.destinations| == |TableOf(es)[Dest].elems|
    ensures var x := ElementKeys(TableOf(es)[Dest].elems[i]);
            Parse(es).value.destinations[i] == Destination(TextAt(x, DName), Some("local"), Some(path), S3At(x))
  {
    var d := ElementParsed(es, i);
    PlacedLocally(path, ElementKeys(TableOf(es)[Dest].elems[i]), d);
  }

  /** An element with the text of a bucket. */
  lemma ElementBucket(es: seq<Entry>, i: nat, s: string, bucket: string, prefix: string)
    requires Parse(es).Ok? && NoKeyTwice(es) && IsArray(ValueIn(TableOf(es), Dest)) && i < |TableOf(es)[Dest].elems|
    requires IsBucketText(s, bucket, prefix)
    requires var elem := TableOf(es)[Dest].elems[i];
             && NoDestKeyTwice(elem) && CompactOf(elem) == Some(Str(s))
             && DType !in ElementKeys(elem) && SBucket !in ElementKeys(elem) && (prefix == "" || SPrefix !in ElementKeys(elem))
    ensures |Parse(es).value.destinations| == |TableOf(es)[Dest].elems|
    ensures var x := ElementKeys(TableOf(es)[Dest].elems[i]);
            Parse(es).value.destinations[i]
            == Destination(
                 TextAt(x, DName), Some("s3"), TextAt(x, DPath),
                 Some(S3(TextAt(x, SEndpoint), Some(bucket), if prefix == "" then TextAt(x, SPrefix) else Some(prefix),
                         TextAt(x, SRegion), TextAt(x, SCreds))))
  {
    var d := ElementParsed(es, i);
    PlacedInBucket(s, bucket, prefix, ElementKeys(TableOf(es)[Dest].elems[i]), d);
  }
}
