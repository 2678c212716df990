/** A whole configuration: the default profile, the output language and the
    profiles by name. */
module ConfigFile {
  import opened Schema
  import opened TomlText
  import opened ConfigV2
  import opened ConfigRoundTrip
  import opened ConfigLaws

  /** `output` is the section, which may say nothing about the language. */
  datatype Config = Config(
    defaultProfile: Option<string>, profiles: map<string, Profile>, output: Option<Option<string>>)

  /** What a TOML reader sees of the text: the top-level keys and one table for each profile. */
  datatype Document = Document(
    defaultProfile: Option<string>, language: Option<string>, profiles: map<string, seq<Entry>>)

  function PrintConfig(c: Config): Document {
    Document(c.defaultProfile, if c.output.Some? then c.output.value else None,
             map n | n in c.profiles :: Print(c.profiles[n]))
  }

  ghost predicate IsDocumentOf(d: Document, printed: Document) {
    && d.defaultProfile == printed.defaultProfile && d.language == printed.language
    && d.profiles.Keys == printed.profiles.Keys
    && forall n :: n in d.profiles ==> IsTableOf(d.profiles[n], printed.profiles[n])
  }

  predicate IsReadableText(o: Option<string>) {
    o.Some? ==> ReadQuoted(Esc(o.value)) == Some(o.value)
  }

  function ParseConfig(d: Document): Result<Config, ConfigError> {
    if !IsReadableText(d.defaultProfile) || !IsReadableText(d.language) then Err(BadToml)
    else if !AllParse(d.profiles) then Err(BadType)
    else Ok(Config(d.defaultProfile, ParsedProfiles(d.profiles), if d.language.Some? then Some(d.language) else None))
  }

  predicate AllParse(tables: map<string, seq<Entry>>) {
    forall n :: n in tables ==> Parse(tables[n]).Ok?
  }

  function ParsedProfiles(tables: map<string, seq<Entry>>): map<string, Profile>
    requires AllParse(tables)
  {
    map n | n in tables :: Parse(tables[n]).value
  }

  predicate AllCanonical(profiles: map<string, Profile>) {
    forall n :: n in profiles ==> IsCanonical(profiles[n])
  }

  predicate IsCleanText(o: Option<string>) {
    o.Some? ==> DEL !in o.value
  }

  predicate IsCanonicalConfig(c: Config) {
    && IsCleanText(c.defaultProfile)
    && c.output != Some(None) && (c.output.Some? ==> IsCleanText(c.output.value))
    && AllCanonical(c.profiles)
  }

  lemma TextIsReadable(o: Option<string>)
    ensures IsReadableText(o) <==> IsCleanText(o)
  {
    if o.Some? {
      EscRoundTrip(o.value);
    }
  }

  lemma AllParseBack(tables: map<string, seq<Entry>>, profiles: map<string, Profile>)
    requires tables.Keys == profiles.Keys
    requires forall n :: n in profiles ==> (Parse(tables[n]) == Ok(profiles[n]) <==> IsCanonical(profiles[n]))
    ensures AllParse(tables) && ParsedProfiles(tables) == profiles <==> AllCanonical(profiles)
  {
    if AllParse(tables) && ParsedProfiles(tables) == profiles {
      forall n | n in profiles ensures IsCanonical(profiles[n]) {
        assert ParsedProfiles(tables)[n] == profiles[n];
      }
    }
  }

  lemma ProfilesBack(profiles: map<string, Profile>, tables: map<string, seq<Entry>>)
    requires tables.Keys == profiles.Keys && forall n :: n in tables ==> IsTableOf(tables[n], Print(profiles[n]))
    ensures AllParse(tables) && ParsedProfiles(tables) == profiles <==> AllCanonical(profiles)
  {
    forall n | n in profiles ensures Parse(tables[n]) == Ok(profiles[n]) <==> IsCanonical(profiles[n]) {
      ProfileRoundTrip(profiles[n], tables[n]);
    }
    AllParseBack(tables, profiles);
  }

  /** Parsing a printed configuration gives it back exactly when it is canonical. */
  lemma ConfigRoundTrips(c: Config, d: Document)
    requires IsDocumentOf(d, PrintConfig(c))
    ensures ParseConfig(d) == Ok(c) <==> IsCanonicalConfig(c)
  {
    TextIsReadable(d.defaultProfile);
    TextIsReadable(d.language);
    assert d.profiles.Keys == c.profiles.Keys;
    ProfilesBack(c.profiles, d.profiles);
  }
}
