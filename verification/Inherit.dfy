/** Inheritance between configuration entities: `[defaults]`, `[base.<name>]` and
    `[profile.<name>]` tables that name others under `extends`. */
module Inherit {
  import opened Schema
  import opened StableSort

  datatype Value = Str(text: string) | Arr(items: seq<Value>) | Tab(table: map<string, Value>) | Scalar(number: int)

  type Table = map<string, Value>

  datatype ConfigError = Cycle(path: seq<string>, name: string) | NotFound(from: string, name: string) | BadExtends(from: string)

  datatype Config = Config(defaults: Table, bases: Table, profiles: Table)

  const EXTENDS := "extends"

  // ----- looking names up -----

  /** A base before a profile; a name that is not a table is not found. */
  function Lookup(cfg: Config, name: string): Option<Table> {
    var v := if name in cfg.bases then Some(cfg.bases[name])
             else if name in cfg.profiles then Some(cfg.profiles[name])
             else None;
    if v.Some? && v.value.Tab? then Some(v.value.table) else None
  }

  function TextsOf(items: seq<Value>): Option<seq<string>> {
    if items == [] then Some([])
    else
      var front := TextsOf(items[..|items| - 1]);
      if front.None? || !items[|items| - 1].Str? then None
      else Some(front.value + [items[|items| - 1].text])
  }

  function ExtendsNames(name: string, ext: Value): Result<seq<string>, ConfigError> {
    match ext
    case Str(s) => Ok([s])
    case Arr(items) =>
      var texts := TextsOf(items);
      if texts.Some? then Ok(texts.value) else Err(BadExtends(name))
    case _ => Err(BadExtends(name))
  }

  /** What an entity extends; nothing when it does not say. */
  function NamesOf(name: string, entity: Table): Result<seq<string>, ConfigError> {
    if EXTENDS in entity then ExtendsNames(name, entity[EXTENDS]) else Ok([])
  }

  function Own(entity: Table): Table {
    entity - {EXTENDS}
  }

  // ----- resolution -----

  /** The names that a path has not visited yet bound its length. */
  function Unvisited(cfg: Config, path: seq<string>): set<string> {
    cfg.bases.Keys + cfg.profiles.Keys - (set n | n in path)
  }

  lemma OneLess(cfg: Config, path: seq<string>, name: string)
    requires name !in path && Lookup(cfg, name).Some?
    ensures |Unvisited(cfg, path + [name])| < |Unvisited(cfg, path)|
  {
    var before, after := Unvisited(cfg, path), Unvisited(cfg, path + [name]);
    assert name in before && name !in after;
    assert after == before - {name};
  }

  function Flat(cfg: Config, name: string, entity: Table, path: seq<string>): Result<Table, ConfigError>
    decreases |Unvisited(cfg, path)|, 2, 0
  {
    var names := NamesOf(name, entity);
    if names.Err? then Err(names.error)
    else
      var acc := Inherited(cfg, name, names.value, path);
      if acc.Err? then acc else Ok(acc.value + Own(entity))
  }

  /** The defaults, overridden by each extended entity in turn. */
  function Inherited(cfg: Config, name: string, names: seq<string>, path: seq<string>): Result<Table, ConfigError>
    decreases |Unvisited(cfg, path)|, 1, |names|
  {
    if names == [] then Ok(Own(cfg.defaults))
    else
      var acc := Inherited(cfg, name, names[..|names| - 1], path);
      var flat := Visit(cfg, name, names[|names| - 1], path);
      if acc.Err? then acc else if flat.Err? then flat else Ok(acc.value + flat.value)
  }

  /** An extended entity, resolved with its name on the path. */
  function Visit(cfg: Config, name: string, b: string, path: seq<string>): Result<Table, ConfigError>
    decreases |Unvisited(cfg, path)|, 0, 0
  {
    if b in path then Err(Cycle(path, b))
    else if Lookup(cfg, b).None? then Err(NotFound(name, b))
    else
      OneLess(cfg, path, b);
      Flat(cfg, b, Lookup(cfg, b).value, path + [b])
  }

  /** The path of the entities being resolved. */
  class Visiting {
    var names: seq<string>

    constructor (name: string)
      ensures names == [name]
    {
      names := [name];
    }

    method Push(name: string)
      modifies this
      ensures names == old(names) + [name]
    {
      names := names + [name];
    }

    method Pop()
      requires names != []
      modifies this
      ensures names == old(names)[..|old(names)| - 1]
    {
      names := names[..|names| - 1];
    }
  }

  method ResolveFlat(cfg: Config, name: string, entity: Table, visiting: Visiting) returns (r: Result<Table, ConfigError>)
    modifies visiting
    ensures r == Flat(cfg, name, entity, old(visiting.names))
    ensures r.Ok? ==> visiting.names == old(visiting.names)
    decreases |Unvisited(cfg, visiting.names)|
  {
    ghost var path := visiting.names;
    var acc := Own(cfg.defaults);
    var names := NamesOf(name, entity);
    if names.Err? {
      return Err(names.error);
    }
    for i := 0 to |names.value|
      invariant visiting.names == path && Inherited(cfg, name, names.value[..i], path) == Ok(acc)
    {
      var b := names.value[i];
      InheritedStep(cfg, name, entity, names.value, i, path);
      if b in visiting.names {
        return Err(Cycle(visiting.names, b));
      }
      var found := Lookup(cfg, b);
      if found.None? {
        return Err(NotFound(name, b));
      }
      OneLess(cfg, path, b);
      visiting.Push(b);
      var flat := ResolveFlat(cfg, b, found.value, visiting);
      if flat.Err? {
        return flat;
      }
      visiting.Pop();
      acc := acc + flat.value;
    }
    assert names.value[..|names.value|] == names.value;
    r := Ok(acc + Own(entity));
  }

  /** One more extended name: it is merged, or its error is the result. */
  lemma InheritedStep(cfg: Config, name: string, entity: Table, names: seq<string>, i: nat, path: seq<string>)
    requires NamesOf(name, entity) == Ok(names) && i < |names| && Inherited(cfg, name, names[..i], path).Ok?
    ensures var flat := Visit(cfg, name, names[i], path);
            if flat.Err? then Flat(cfg, name, entity, path) == flat
            else Inherited(cfg, name, names[..i + 1], path) == Ok(Inherited(cfg, name, names[..i], path).value + flat.value)
  {
    assert names[..i + 1][..i] == names[..i];
    InheritedStops(cfg, name, names, i + 1, path);
  }

  lemma {:induction false} InheritedStops(cfg: Config, name: string, names: seq<string>, k: nat, path: seq<string>)
    requires k <= |names|
    ensures Inherited(cfg, name, names[..k], path).Err? ==>
              Inherited(cfg, name, names, path) == Inherited(cfg, name, names[..k], path)
    decreases |names|
  {
    if k == |names| {
      assert names[..k] == names;
    } else {
      InheritedStops(cfg, name, names[..|names| - 1], k, path);
      assert names[..|names| - 1][..k] == names[..k];
    }
  }

  // ----- when resolution succeeds -----

  /** An entity that is found and whose `extends` is well typed. */
  predicate IsGood(cfg: Config, name: string) {
    Lookup(cfg, name).Some? && NamesOf(name, Lookup(cfg, name).value).Ok?
  }

  predicate Extends(cfg: Config, a: string, b: string) {
    IsGood(cfg, a) && b in NamesOf(a, Lookup(cfg, a).value).value
  }

  /** A way through the extends graph. */
  ghost predicate IsWalk(cfg: Config, w: seq<string>) {
    w != [] && forall i, j :: 0 <= i < |w| && j == i + 1 < |w| ==> Extends(cfg, w[i], w[j])
  }

  ghost predicate NoRepeats(w: seq<string>) {
    forall i, j :: 0 <= i < j < |w| ==> w[i] != w[j]
  }

  /** After `path`, which ends where `w` starts, the walk meets only good entities
      and comes back to none. */
  ghost predicate IsSafe(cfg: Config, path: seq<string>, w: seq<string>)
    requires w != []
  {
    NoRepeats(path + w[1..]) && forall n :: n in w ==> IsGood(cfg, n)
  }

  lemma WalkTail(cfg: Config, w: seq<string>)
    requires IsWalk(cfg, w) && |w| > 1
    ensures IsWalk(cfg, w[1..]) && Extends(cfg, w[0], w[1])
  {
    forall i, j | 0 <= i < |w[1..]| && j == i + 1 < |w[1..]| ensures Extends(cfg, w[1..][i], w[1..][j]) {
      assert Extends(cfg, w[i + 1], w[j + 1]);
    }
  }

  lemma WalkCons(cfg: Config, a: string, w: seq<string>)
    requires IsWalk(cfg, w) && Extends(cfg, a, w[0])
    ensures IsWalk(cfg, [a] + w)
  {
    var v := [a] + w;
    forall i, j | 0 <= i < |v| && j == i + 1 < |v| ensures Extends(cfg, v[i], v[j]) {
      if i > 0 {
        assert Extends(cfg, w[i - 1], w[j - 1]);
      }
    }
  }

  /** When all extended names resolve, each of them does. */
  lemma {:induction false} EachResolves(cfg: Config, name: string, names: seq<string>, path: seq<string>, b: string)
    requires Inherited(cfg, name, names, path).Ok? && b in names
    ensures Visit(cfg, name, b, path).Ok?
    decreases |names|
  {
    FrontLast(names);
    if b != names[|names| - 1] {
      EachResolves(cfg, name, names[..|names| - 1], path, b);
    }
  }

  lemma {:induction false} SuccessIsSafe(cfg: Config, name: string, path: seq<string>, w: seq<string>)
    requires Lookup(cfg, name).Some? && NoRepeats(path)
    requires Flat(cfg, name, Lookup(cfg, name).value, path).Ok?
    requires IsWalk(cfg, w) && w[0] == name
    ensures IsSafe(cfg, path, w)
    decreases |w|
  {
    if |w| == 1 {
      assert path + w[1..] == path;
    } else {
      var b := w[1];
      WalkTail(cfg, w);
      EachResolves(cfg, name, NamesOf(name, Lookup(cfg, name).value).value, path, b);
      SuccessIsSafe(cfg, b, path + [b], w[1..]);
      assert path + [b] + w[1..][1..] == path + w[1..];
      HeadTail(w);
    }
  }

  /** When the extended names do not all resolve, one of them is to blame. */
  lemma {:induction false} OneFails(cfg: Config, name: string, names: seq<string>, path: seq<string>) returns (b: string)
    requires Inherited(cfg, name, names, path).Err?
    ensures b in names && Visit(cfg, name, b, path).Err?
    decreases |names|
  {
    b := names[|names| - 1];
    if Inherited(cfg, name, names[..|names| - 1], path).Err? {
      b := OneFails(cfg, name, names[..|names| - 1], path);
      FrontLast(names);
    }
  }

  /** A failure shows a walk that is not safe. */
  lemma {:induction false} FailureHasWalk(cfg: Config, name: string, path: seq<string>) returns (w: seq<string>)
    requires Lookup(cfg, name).Some? && Flat(cfg, name, Lookup(cfg, name).value, path).Err?
    requires name in path
    ensures IsWalk(cfg, w) && w[0] == name && !IsSafe(cfg, path, w)
    decreases |Unvisited(cfg, path)|
  {
    var entity := Lookup(cfg, name).value;
    var names := NamesOf(name, entity);
    if names.Err? {
      w := [name];
      assert name in w && !IsGood(cfg, name);
    } else {
      var b := OneFails(cfg, name, names.value, path);
      w := [name, b];
      assert w[1..] == [b] && b in w;
      if b in path {
        var i :| 0 <= i < |path| && path[i] == b;
        assert (path + [b])[i] == (path + [b])[|path|];
      } else if Lookup(cfg, b).Some? {
        OneLess(cfg, path, b);
        var v := FailureHasWalk(cfg, b, path + [b]);
        WalkCons(cfg, name, v);
        w := [name] + v;
        UnsafeCons(cfg, name, path, v);
      } else {
        assert !IsGood(cfg, b);
      }
    }
  }

  lemma UnsafeCons(cfg: Config, name: string, path: seq<string>, v: seq<string>)
    requires v != [] && !IsSafe(cfg, path + [v[0]], v)
    ensures !IsSafe(cfg, path, [name] + v)
  {
    HeadTail(v);
    assert ([name] + v)[1..] == v;
    assert path + [v[0]] + v[1..] == path + v;
    assert forall n :: n in v ==> n in [name] + v;
  }

  /** A profile whose name no base hides resolves exactly when every walk through
      the extends graph from it comes back to no name and meets only entities that
      are found and well typed. */
  lemma ResolvesMeansAcyclic(cfg: Config, name: string)
    requires name in cfg.profiles && cfg.profiles[name].Tab? && name !in cfg.bases
    ensures Flat(cfg, name, cfg.profiles[name].table, [name]).Ok?
            <==> forall w :: IsWalk(cfg, w) && w[0] == name ==> NoRepeats(w) && forall n :: n in w ==> IsGood(cfg, n)
  {
    if Flat(cfg, name, cfg.profiles[name].table, [name]).Ok? {
      forall w | IsWalk(cfg, w) && w[0] == name ensures NoRepeats(w) && forall n :: n in w ==> IsGood(cfg, n) {
        SuccessIsSafe(cfg, name, [name], w);
        HeadTail(w);
      }
    } else {
      var w := FailureHasWalk(cfg, name, [name]);
      HeadTail(w);
      assert [name] + w[1..] == w;
    }
  }

  // ----- the value of a key -----

  /** The resolved tables of the extended names. */
  function BaseFlats(cfg: Config, name: string, names: seq<string>, path: seq<string>): seq<Table>
    requires forall b :: b in names ==> Visit(cfg, name, b, path).Ok?
  {
    seq(|names|, i requires 0 <= i < |names| =>
      assert names[i] in names;
      Visit(cfg, name, names[i], path).value)
  }

  /** The value under `k` in the last of the tables that has one, else in `first`. */
  function LastHolding(tables: seq<Table>, k: string, first: Table): Option<Value> {
    if tables == [] then (if k in first then Some(first[k]) else None)
    else if k in tables[|tables| - 1] then Some(tables[|tables| - 1][k])
    else LastHolding(tables[..|tables| - 1], k, first)
  }

  function Get(t: Table, k: string): Option<Value> {
    if k in t then Some(t[k]) else None
  }

  lemma {:induction false} InheritedValue(cfg: Config, name: string, names: seq<string>, path: seq<string>, k: string)
    requires Inherited(cfg, name, names, path).Ok?
    ensures forall b :: b in names ==> Visit(cfg, name, b, path).Ok?
    ensures Get(Inherited(cfg, name, names, path).value, k)
            == LastHolding(BaseFlats(cfg, name, names, path), k, Own(cfg.defaults))
    decreases |names|
  {
    forall b | b in names ensures Visit(cfg, name, b, path).Ok? {
      EachResolves(cfg, name, names, path, b);
    }
    if names != [] {
      var front := names[..|names| - 1];
      InheritedValue(cfg, name, front, path, k);
      assert BaseFlats(cfg, name, names, path)[..|names| - 1] == BaseFlats(cfg, name, front, path);
    }
  }

  /** A key's value: the entity's own, else that of the last extended name whose
      resolved table has the key, else the default. */
  lemma ResolvedValue(cfg: Config, name: string, entity: Table, path: seq<string>, k: string)
    requires Flat(cfg, name, entity, path).Ok? && k != EXTENDS
    ensures NamesOf(name, entity).Ok?
    ensures var names := NamesOf(name, entity).value;
            && (forall b :: b in names ==> Visit(cfg, name, b, path).Ok?)
            && Get(Flat(cfg, name, entity, path).value, k)
               == if k in entity then Some(entity[k])
                  else LastHolding(BaseFlats(cfg, name, names, path), k, Own(cfg.defaults))
  {
    InheritedValue(cfg, name, NamesOf(name, entity).value, path, k);
  }

  // ----- the documented precedence -----

  function WithDefaults(cfg: Config, defaults: Table): Config {
    cfg.(defaults := defaults)
  }

  /** Whether the entity sets `k`, or the last one it extends does, and so on. */
  function SpineSets(cfg: Config, name: string, entity: Table, path: seq<string>, k: string): bool
    decreases |Unvisited(cfg, path)|, 1
  {
    k in entity
    || (NamesOf(name, entity).Ok? && NamesOf(name, entity).value != []
        && var names := NamesOf(name, entity).value; VisitSets(cfg, names[|names| - 1], path, k))
  }

  function VisitSets(cfg: Config, b: string, path: seq<string>, k: string): bool
    decreases |Unvisited(cfg, path)|, 0
  {
    b !in path && Lookup(cfg, b).Some?
    && (OneLess(cfg, path, b); SpineSets(cfg, b, Lookup(cfg, b).value, path + [b], k))
  }

  lemma SameLookup(cfg: Config, d: Table, b: string)
    ensures Lookup(WithDefaults(cfg, d), b) == Lookup(cfg, b)
  {
  }

  lemma VisitIs(cfg: Config, name: string, b: string, path: seq<string>)
    requires b !in path && Lookup(cfg, b).Some?
    ensures Visit(cfg, name, b, path) == Flat(cfg, b, Lookup(cfg, b).value, path + [b])
  {
  }

  lemma VisitSetsIs(cfg: Config, b: string, path: seq<string>, k: string)
    requires b !in path && Lookup(cfg, b).Some?
    ensures VisitSets(cfg, b, path, k) == SpineSets(cfg, b, Lookup(cfg, b).value, path + [b], k)
  {
  }

  /** With other defaults the same entities resolve. */
  lemma {:induction false} SameSuccess(cfg: Config, d: Table, name: string, entity: Table, path: seq<string>)
    ensures Flat(cfg, name, entity, path).Ok? <==> Flat(WithDefaults(cfg, d), name, entity, path).Ok?
    decreases |Unvisited(cfg, path)|, 2, 0
  {
    if NamesOf(name, entity).Ok? {
      SameInherited(cfg, d, name, NamesOf(name, entity).value, path);
    }
  }

  lemma {:induction false} SameInherited(cfg: Config, d: Table, name: string, names: seq<string>, path: seq<string>)
    ensures Inherited(cfg, name, names, path).Ok? <==> Inherited(WithDefaults(cfg, d), name, names, path).Ok?
    decreases |Unvisited(cfg, path)|, 1, |names|
  {
    if names != [] {
      SameInherited(cfg, d, name, names[..|names| - 1], path);
      SameVisit(cfg, d, name, names[|names| - 1], path);
    }
  }

  lemma {:induction false} SameVisit(cfg: Config, d: Table, name: string, b: string, path: seq<string>)
    ensures Visit(cfg, name, b, path).Ok? <==> Visit(WithDefaults(cfg, d), name, b, path).Ok?
    decreases |Unvisited(cfg, path)|, 0, 0
  {
    SameLookup(cfg, d, b);
    if b !in path && Lookup(cfg, b).Some? {
      OneLess(cfg, path, b);
      VisitIs(cfg, name, b, path);
      VisitIs(WithDefaults(cfg, d), name, b, path);
      SameSuccess(cfg, d, b, Lookup(cfg, b).value, path + [b]);
    }
  }

  function NoDefaults(cfg: Config): Config {
    WithDefaults(cfg, map[])
  }

  /** A key without a default has the same value with and without the defaults. */
  lemma {:induction false} WithoutDefault(cfg: Config, name: string, entity: Table, path: seq<string>, k: string)
    requires Flat(cfg, name, entity, path).Ok? && Flat(NoDefaults(cfg), name, entity, path).Ok?
    requires k !in cfg.defaults && k != EXTENDS
    ensures Get(Flat(cfg, name, entity, path).value, k) == Get(Flat(NoDefaults(cfg), name, entity, path).value, k)
    decreases |Unvisited(cfg, path)|, 2, 0
  {
    InheritedWithoutDefault(cfg, name, NamesOf(name, entity).value, path, k);
  }

  lemma {:induction false} InheritedWithoutDefault(
      cfg: Config, name: string, names: seq<string>, path: seq<string>, k: string)
    requires Inherited(cfg, name, names, path).Ok? && Inherited(NoDefaults(cfg), name, names, path).Ok?
    requires k !in cfg.defaults && k != EXTENDS
    ensures Get(Inherited(cfg, name, names, path).value, k) == Get(Inherited(NoDefaults(cfg), name, names, path).value, k)
    decreases |Unvisited(cfg, path)|, 1, |names|
  {
    if names != [] {
      InheritedWithoutDefault(cfg, name, names[..|names| - 1], path, k);
      VisitWithoutDefault(cfg, name, names[|names| - 1], path, k);
    }
  }

  lemma {:induction false} VisitWithoutDefault(cfg: Config, name: string, b: string, path: seq<string>, k: string)
    requires Visit(cfg, name, b, path).Ok? && Visit(NoDefaults(cfg), name, b, path).Ok?
    requires k !in cfg.defaults && k != EXTENDS
    ensures Get(Visit(cfg, name, b, path).value, k) == Get(Visit(NoDefaults(cfg), name, b, path).value, k)
    decreases |Unvisited(cfg, path)|, 0, 0
  {
    OneLess(cfg, path, b);
    SameLookup(cfg, map[], b);
    VisitIs(cfg, name, b, path);
    VisitIs(NoDefaults(cfg), name, b, path);
    WithoutDefault(cfg, b, Lookup(cfg, b).value, path + [b], k);
  }

  /** A key with a default takes the first value on the spine of last extended
      names, or the default; other extended names do not count. */
  lemma {:induction false} SpineValue(cfg: Config, name: string, entity: Table, path: seq<string>, k: string)
    requires Flat(cfg, name, entity, path).Ok? && Flat(NoDefaults(cfg), name, entity, path).Ok?
    requires k in cfg.defaults && k != EXTENDS
    ensures IsSpineValue(Flat(cfg, name, entity, path).value, Flat(NoDefaults(cfg), name, entity, path).value,
                         SpineSets(cfg, name, entity, path, k), cfg.defaults[k], k)
    decreases |Unvisited(cfg, path)|, 1
  {
    var names := NamesOf(name, entity).value;
    if k !in entity && names != [] {
      VisitSpineValue(cfg, name, names[|names| - 1], path, k);
    }
  }

  predicate IsSpineValue(flat: Table, explicit: Table, sets: bool, default_: Value, k: string) {
    (sets ==> k in explicit) && Get(flat, k) == Some(if sets then explicit[k] else default_)
  }

  lemma {:induction false} VisitSpineValue(cfg: Config, name: string, b: string, path: seq<string>, k: string)
    requires Visit(cfg, name, b, path).Ok? && Visit(NoDefaults(cfg), name, b, path).Ok?
    requires k in cfg.defaults && k != EXTENDS
    ensures IsSpineValue(Visit(cfg, name, b, path).value, Visit(NoDefaults(cfg), name, b, path).value,
                         VisitSets(cfg, b, path, k), cfg.defaults[k], k)
    decreases |Unvisited(cfg, path)|, 0
  {
    OneLess(cfg, path, b);
    SameLookup(cfg, map[], b);
    VisitIs(cfg, name, b, path);
    VisitIs(NoDefaults(cfg), name, b, path);
    VisitSetsIs(cfg, b, path, k);
    SpineValue(cfg, b, Lookup(cfg, b).value, path + [b], k);
  }

  /** The value by the documented precedence: the defaults below everything that
      is set explicitly anywhere in the extends chain. */
  function DocumentedValue(cfg: Config, name: string, entity: Table, path: seq<string>, k: string): Option<Value>
    requires Flat(NoDefaults(cfg), name, entity, path).Ok?
  {
    var explicit := Flat(NoDefaults(cfg), name, entity, path).value;
    if k in explicit then Some(explicit[k]) else Get(Own(cfg.defaults), k)
  }

  /** An explicit value that the chain has, but not on its last-name spine. */
  predicate IsShadowed(cfg: Config, name: string, entity: Table, path: seq<string>, k: string)
    requires Flat(NoDefaults(cfg), name, entity, path).Ok?
  {
    k in Flat(NoDefaults(cfg), name, entity, path).value && !SpineSets(cfg, name, entity, path, k)
  }

  ghost predicate FollowsDocument(cfg: Config, name: string, entity: Table, path: seq<string>, k: string)
    requires Flat(cfg, name, entity, path).Ok? && Flat(NoDefaults(cfg), name, entity, path).Ok?
  {
    Get(Flat(cfg, name, entity, path).value, k) == DocumentedValue(cfg, name, entity, path, k)
  }

  lemma DefaultsDoNotMatter(cfg: Config, d: Table, name: string, entity: Table, path: seq<string>)
    requires Flat(cfg, name, entity, path).Ok?
    ensures Flat(WithDefaults(cfg, d), name, entity, path).Ok?
    ensures NoDefaults(WithDefaults(cfg, d)) == NoDefaults(cfg)
    ensures Flat(NoDefaults(WithDefaults(cfg, d)), name, entity, path).Ok?
  {
    SameSuccess(cfg, d, name, entity, path);
    SameSuccess(cfg, map[], name, entity, path);
  }

  lemma FollowsFor(cfg: Config, d: Table, name: string, entity: Table, path: seq<string>, k: string)
    requires Flat(cfg, name, entity, path).Ok? && Flat(NoDefaults(cfg), name, entity, path).Ok? && k != EXTENDS
    requires Flat(WithDefaults(cfg, d), name, entity, path).Ok?
    requires NoDefaults(WithDefaults(cfg, d)) == NoDefaults(cfg)
    ensures FollowsDocument(WithDefaults(cfg, d), name, entity, path, k)
            <==> k !in d || !IsShadowed(cfg, name, entity, path, k)
                 || Flat(NoDefaults(cfg), name, entity, path).value[k] == d[k]
  {
    if k in d {
      SpineValue(WithDefaults(cfg, d), name, entity, path, k);
      SameSpine(cfg, d, name, entity, path, k);
    } else {
      WithoutDefault(WithDefaults(cfg, d), name, entity, path, k);
    }
  }

  ghost predicate AlwaysFollows(cfg: Config, name: string, entity: Table, path: seq<string>, k: string) {
    forall d {:trigger WithDefaults(cfg, d)} ::
      && Flat(WithDefaults(cfg, d), name, entity, path).Ok?
      && Flat(NoDefaults(WithDefaults(cfg, d)), name, entity, path).Ok?
      && FollowsDocument(WithDefaults(cfg, d), name, entity, path, k)
  }

  /** Resolution gives the documented value of `k`, whatever the defaults are,
      exactly when no explicit value of `k` is off the spine. */
  lemma DocumentedPrecedence(cfg: Config, name: string, entity: Table, path: seq<string>, k: string)
    requires Flat(cfg, name, entity, path).Ok? && k != EXTENDS
    ensures Flat(NoDefaults(cfg), name, entity, path).Ok?
    ensures AlwaysFollows(cfg, name, entity, path, k) <==> !IsShadowed(cfg, name, entity, path, k)
  {
    DefaultsDoNotMatter(cfg, map[], name, entity, path);
    if IsShadowed(cfg, name, entity, path, k) {
      var explicit := Flat(NoDefaults(cfg), name, entity, path).value;
      var d: Table := map[k := if explicit[k] == Scalar(0) then Scalar(1) else Scalar(0)];
      DefaultsDoNotMatter(cfg, d, name, entity, path);
      FollowsFor(cfg, d, name, entity, path, k);
      assert !FollowsDocument(WithDefaults(cfg, d), name, entity, path, k);
    } else {
      forall d
        ensures Flat(WithDefaults(cfg, d), name, entity, path).Ok?
        ensures Flat(NoDefaults(WithDefaults(cfg, d)), name, entity, path).Ok?
        ensures FollowsDocument(WithDefaults(cfg, d), name, entity, path, k)
      {
        DefaultsDoNotMatter(cfg, d, name, entity, path);
        FollowsFor(cfg, d, name, entity, path, k);
      }
    }
  }

  const FIRST_BASE := "a"
  const SECOND_BASE := "b"
  const PROFILE := "p"

  /** Two bases, of which only the first sets `k`. */
  function TwoBases(defaults: Table, k: string, explicit: Value): Config {
    Config(defaults, map[FIRST_BASE := Tab(map[k := explicit]), SECOND_BASE := Tab(map[])], map[])
  }

  function ExtendsBoth(): Table {
    map[EXTENDS := Arr([Str(FIRST_BASE), Str(SECOND_BASE)])]
  }

  lemma TextsAppend(items: seq<Value>, texts: seq<string>, last: string)
    requires TextsOf(items) == Some(texts)
    ensures TextsOf(items + [Str(last)]) == Some(texts + [last])
  {
    assert (items + [Str(last)])[..|items|] == items;
  }

  lemma NamesOfBoth()
    ensures NamesOf(PROFILE, ExtendsBoth()) == Ok([FIRST_BASE, SECOND_BASE])
  {
    var first, both := [Str(FIRST_BASE)], [Str(FIRST_BASE), Str(SECOND_BASE)];
    TextsAppend([], [], FIRST_BASE);
    assert [] + first == first && [] + [FIRST_BASE] == [FIRST_BASE];
    TextsAppend(first, [FIRST_BASE], SECOND_BASE);
    assert first + [Str(SECOND_BASE)] == both && [FIRST_BASE] + [SECOND_BASE] == [FIRST_BASE, SECOND_BASE];
    assert ExtendsNames(PROFILE, Arr(both)) == Ok([FIRST_BASE, SECOND_BASE]);
  }

  lemma PlainBase(cfg: Config, name: string, b: string, table: Table)
    requires b != name && Lookup(cfg, b) == Some(table) && EXTENDS !in table
    ensures Visit(cfg, name, b, [name]) == Ok(Own(cfg.defaults) + table)
  {
    VisitIs(cfg, name, b, [name]);
    assert NamesOf(b, table) == Ok([]) && Own(table) == table;
    assert Inherited(cfg, b, [], [name] + [b]) == Ok(Own(cfg.defaults));
  }

  lemma BothInherited(defaults: Table, k: string, explicit: Value)
    requires k != EXTENDS
    ensures Inherited(TwoBases(defaults, k, explicit), PROFILE, [FIRST_BASE, SECOND_BASE], [PROFILE])
            == Ok(Own(defaults) + (Own(defaults) + map[k := explicit]) + Own(defaults))
  {
    var cfg := TwoBases(defaults, k, explicit);
    var both := [FIRST_BASE, SECOND_BASE];
    PlainBase(cfg, PROFILE, FIRST_BASE, map[k := explicit]);
    PlainBase(cfg, PROFILE, SECOND_BASE, map[]);
    assert both[..1] == [FIRST_BASE] && both[..1][..0] == [];
    assert Own(defaults) + map[] == Own(defaults);
    assert Inherited(cfg, PROFILE, [FIRST_BASE], [PROFILE]) == Ok(Own(defaults) + (Own(defaults) + map[k := explicit]));
  }

  lemma FlatOfBoth(defaults: Table, k: string, explicit: Value)
    requires k != EXTENDS
    ensures Flat(TwoBases(defaults, k, explicit), PROFILE, ExtendsBoth(), [PROFILE])
            == Ok(Own(defaults) + (Own(defaults) + map[k := explicit]) + Own(defaults))
  {
    NamesOfBoth();
    BothInherited(defaults, k, explicit);
    var acc := Own(defaults) + (Own(defaults) + map[k := explicit]) + Own(defaults);
    assert Own(ExtendsBoth()) == map[] && acc + map[] == acc;
  }

  /** A profile that extends two bases, of which only the first sets `k`: the
      default comes back through the second base and hides the explicit value. */
  lemma DefaultHidesValue(k: string, explicit: Value, default_: Value)
    requires k != EXTENDS && explicit != default_
    ensures var cfg, p := TwoBases(map[k := default_], k, explicit), ExtendsBoth();
            && Flat(cfg, PROFILE, p, [PROFILE]).Ok? && Flat(NoDefaults(cfg), PROFILE, p, [PROFILE]).Ok?
            && IsShadowed(cfg, PROFILE, p, [PROFILE], k)
            && DocumentedValue(cfg, PROFILE, p, [PROFILE], k) == Some(explicit)
            && Get(Flat(cfg, PROFILE, p, [PROFILE]).value, k) == Some(default_)
  {
    var cfg := TwoBases(map[k := default_], k, explicit);
    FlatOfBoth(map[k := default_], k, explicit);
    FlatOfBoth(map[], k, explicit);
    assert NoDefaults(cfg) == TwoBases(map[], k, explicit);
    NamesOfBoth();
    VisitSetsIs(cfg, SECOND_BASE, [PROFILE], k);
    assert NamesOf(SECOND_BASE, map[]) == Ok([]);
    assert !SpineSets(cfg, SECOND_BASE, map[], [PROFILE] + [SECOND_BASE], k);
    assert !SpineSets(cfg, PROFILE, ExtendsBoth(), [PROFILE], k);
  }

  /** A key that has no default has its documented value. */
  lemma NoDefaultNoDifference(cfg: Config, name: string, entity: Table, path: seq<string>, k: string)
    requires Flat(cfg, name, entity, path).Ok? && k != EXTENDS && k !in cfg.defaults
    ensures Flat(NoDefaults(cfg), name, entity, path).Ok? && FollowsDocument(cfg, name, entity, path, k)
  {
    DefaultsDoNotMatter(cfg, map[], name, entity, path);
    WithoutDefault(cfg, name, entity, path, k);
  }

  lemma {:induction false} SameSpine(cfg: Config, d: Table, name: string, entity: Table, path: seq<string>, k: string)
    ensures SpineSets(WithDefaults(cfg, d), name, entity, path, k) == SpineSets(cfg, name, entity, path, k)
    decreases |Unvisited(cfg, path)|, 1
  {
    if k !in entity && NamesOf(name, entity).Ok? && NamesOf(name, entity).value != [] {
      var names := NamesOf(name, entity).value;
      SameVisitSpine(cfg, d, names[|names| - 1], path, k);
    }
  }

  lemma {:induction false} SameVisitSpine(cfg: Config, d: Table, b: string, path: seq<string>, k: string)
    ensures VisitSets(WithDefaults(cfg, d), b, path, k) == VisitSets(cfg, b, path, k)
    decreases |Unvisited(cfg, path)|, 0
  {
    SameLookup(cfg, d, b);
    if b !in path && Lookup(cfg, b).Some? {
      OneLess(cfg, path, b);
      VisitSetsIs(cfg, b, path, k);
      VisitSetsIs(WithDefaults(cfg, d), b, path, k);
      SameSpine(cfg, d, b, Lookup(cfg, b).value, path + [b], k);
    }
  }
}
