/** The parameters of a sample environment: which names each role selects, their split into
    static and ordinary ones, and the sample values written into them. */
module EnvironmentParameters {
  import opened Wrappers

  const PRIVATE := {"server", "servers", "NodeIndex", "DefaultPasswords"}
  const HIDDEN := {"EndpointMap", "RoleName", "RoleParameters", "ServiceNetMap", "ServiceData"}

  datatype Selection = All | Names(names: seq<string>)

  /** A template: its parameters, in file order too, and what each role selects of them. */
  datatype Template<T> = Template(params: map<string, T>, order: seq<string>, roles: seq<(string, Selection)>)

  predicate Shown(name: string, mentioned: set<string>) {
    name !in HIDDEN || name in mentioned
  }

  function Without(order: seq<string>, mentioned: set<string>): (r: seq<string>)
    ensures forall name :: name in r <==> name in order && Shown(name, mentioned)
  {
    if order == [] then []
    else (if Shown(order[0], mentioned) then [order[0]] else []) + Without(order[1..], mentioned)
  }

  function Selected<T>(f: Template<T>, s: Selection, mentioned: set<string>): seq<string> {
    if s.All? then Without(f.order, mentioned) else s.names
  }

  /** What a selection picks from a template: the names listed, or all of its parameters but
      for five that have to be mentioned. */
  ghost predicate Picks<T>(f: Template<T>, s: Selection, name: string, mentioned: set<string>) {
    match s
    case Names(names) => name in names
    case All =>
      && name in f.order
      && (name in {"EndpointMap", "RoleName", "RoleParameters", "ServiceNetMap", "ServiceData"} ==> name in mentioned)
  }

  lemma SelectedIs<T>(f: Template<T>, s: Selection, mentioned: set<string>)
    ensures forall name :: name in Selected(f, s, mentioned) <==> Picks(f, s, name, mentioned)
  {
  }

  /** A selection that names something the template lacks. */
  ghost predicate Missing<T>(f: Template<T>, mentioned: set<string>) {
    exists i, name :: 0 <= i < |f.roles| && Picks(f, f.roles[i].1, name, mentioned) && name !in f.params
  }

  /** Role `role` selects `name` in one of the first `n` entries of a template. */
  ghost predicate SelectsIn<T>(f: Template<T>, n: nat, role: string, name: string, mentioned: set<string>)
    requires n <= |f.roles|
  {
    exists i :: 0 <= i < n && f.roles[i].0 == role && Picks(f, f.roles[i].1, name, mentioned)
  }

  ghost predicate Selects<T>(files: seq<Template<T>>, role: string, name: string, mentioned: set<string>) {
    exists i :: 0 <= i < |files| && SelectsIn(files[i], |files[i].roles|, role, name, mentioned)
  }

  function NamesOf(names: map<string, seq<string>>, role: string): seq<string> {
    if role in names then names[role] else []
  }

  /** The parameters of all templates; a later template's definition wins. */
  function Defaults<T>(files: seq<Template<T>>): map<string, T> {
    if files == [] then map[] else Defaults(files[..|files| - 1]) + files[|files| - 1].params
  }

  /** What the roles of one template select, after what they have selected before. */
  method SelectFrom<T>(f: Template<T>, before: map<string, seq<string>>, mentioned: set<string>)
    returns (r: Option<map<string, seq<string>>>)
    ensures r.None? <==> Missing(f, mentioned)
    ensures r.Some? ==> forall role, name :: name in NamesOf(r.value, role) <==>
              name in NamesOf(before, role) || SelectsIn(f, |f.roles|, role, name, mentioned)
  {
    var names := before;
    for n := 0 to |f.roles|
      invariant forall j, name :: 0 <= j < n && Picks(f, f.roles[j].1, name, mentioned) ==> name in f.params
      invariant forall role, name ::
        name in NamesOf(names, role) <==> name in NamesOf(before, role) || SelectsIn(f, n, role, name, mentioned)
    {
      var (role, selection) := f.roles[n];
      var newNames := Selected(f, selection, mentioned);
      SelectedIs(f, selection, mentioned);
      if exists name :: name in newNames && name !in f.params {
        return None;
      }
      ghost var were := names;
      names := names[role := NamesOf(names, role) + newNames];
      forall other, name
        ensures name in NamesOf(names, other) <==> name in NamesOf(before, other) || SelectsIn(f, n + 1, other, name, mentioned)
      {
        assert name in NamesOf(names, other) <==> name in NamesOf(were, other) || (other == role && name in newNames);
        SelectsNext(f, n, other, name, mentioned);
      }
    }
    r := Some(names);
  }

  lemma SelectsNext<T>(f: Template<T>, n: nat, role: string, name: string, mentioned: set<string>)
    requires n < |f.roles|
    ensures SelectsIn(f, n + 1, role, name, mentioned) <==>
              SelectsIn(f, n, role, name, mentioned) || (f.roles[n].0 == role && Picks(f, f.roles[n].1, name, mentioned))
  {
  }

  /** What the roles select and the definitions, or nothing if a name is missing. */
  method SelectParameters<T>(files: seq<Template<T>>, mentioned: set<string>)
    returns (r: Option<(map<string, seq<string>>, map<string, T>)>)
    ensures r.None? <==> exists i :: 0 <= i < |files| && Missing(files[i], mentioned)
    ensures r.Some? ==> r.value.1 == Defaults(files)
    ensures r.Some? ==> forall role, name :: name in NamesOf(r.value.0, role) <==> Selects(files, role, name, mentioned)
    ensures r.Some? ==> forall role, name :: name in NamesOf(r.value.0, role) ==> name in r.value.1
  {
    var names: map<string, seq<string>>, defaults: map<string, T> := map[], map[];
    for i := 0 to |files|
      invariant forall j :: 0 <= j < i ==> !Missing(files[j], mentioned)
      invariant defaults == Defaults(files[..i])
      invariant forall role, name :: name in NamesOf(names, role) <==> Selects(files[..i], role, name, mentioned)
      invariant forall role, name :: name in NamesOf(names, role) ==> name in defaults
    {
      var f := files[i];
      var more := SelectFrom(f, names, mentioned);
      if more.None? { return None; }
      SelectedIsThere(f, mentioned);
      names, defaults := more.value, defaults + f.params;
      assert files[..i + 1][..i] == files[..i];
      SelectsOneMore(files, i, mentioned);
    }
    assert files[..|files|] == files;
    r := Some((names, defaults));
  }

  lemma SelectedIsThere<T>(f: Template<T>, mentioned: set<string>)
    requires !Missing(f, mentioned)
    ensures forall role, name :: SelectsIn(f, |f.roles|, role, name, mentioned) ==> name in f.params
  {
  }

  lemma SelectsOneMore<T>(files: seq<Template<T>>, i: nat, mentioned: set<string>)
    requires i < |files|
    ensures forall role, name :: Selects(files[..i + 1], role, name, mentioned) <==>
              Selects(files[..i], role, name, mentioned) || SelectsIn(files[i], |files[i].roles|, role, name, mentioned)
  {
    assert forall j :: 0 <= j < i ==> files[..i + 1][j] == files[..i][j] == files[j];
    assert files[..i + 1][i] == files[i];
  }

  // ---------- the split ----------

  predicate IsPrivate(name: string) {
    name in PRIVATE || (name != "" && name[0] == '_')
  }

  function StaticDefaults<T>(names: seq<string>, defaults: map<string, T>, static': set<string>): map<string, T> {
    map name | name in names && name in defaults && name in static' :: defaults[name]
  }

  function OrdinaryDefaults<T>(names: seq<string>, defaults: map<string, T>, static': set<string>): map<string, T> {
    map name | name in names && name in defaults && !IsPrivate(name) && name !in static' :: defaults[name]
  }

  function ParamsOf<T>(params: map<string, map<string, T>>, role: string): map<string, T> {
    if role in params then params[role] else map[]
  }

  /** Names that are never shown unless they are static. */
  ghost predicate IsInternal(name: string) {
    name in {"server", "servers", "NodeIndex", "DefaultPasswords"} || exists rest :: name == "_" + rest
  }

  lemma PrivateIsInternal(name: string)
    ensures IsPrivate(name) <==> IsInternal(name)
  {
    if name != "" && name[0] == '_' {
      assert name == "_" + name[1..];
    }
  }

  /** The definition of a parameter is that of the last template that has it. */
  ghost predicate IsDefinition<T(!new)>(files: seq<Template<T>>, name: string, definition: T) {
    exists i :: 0 <= i < |files| && name in files[i].params && files[i].params[name] == definition &&
                forall j :: i < j < |files| ==> name !in files[j].params
  }

  lemma {:induction false} DefaultsAre<T(!new)>(files: seq<Template<T>>, name: string)
    requires name in Defaults(files)
    ensures IsDefinition(files, name, Defaults(files)[name])
  {
    var n := |files| - 1;
    if name in files[n].params {
      assert Defaults(files)[name] == files[n].params[name];
    } else {
      DefaultsAre(files[..n], name);
      var i :| 0 <= i < n && name in files[..n][i].params && files[..n][i].params[name] == Defaults(files[..n])[name] &&
               forall j :: i < j < n ==> name !in files[..n][j].params;
      assert files[i] == files[..n][i] && forall j :: i < j < n ==> files[j] == files[..n][j];
    }
  }

  /** For each role, the static and the ordinary parameters have nothing in common, and
      together they are the selected names except internal ones that are not static; each
      comes with its last definition. */
  ghost predicate IsSplit<T(!new)>(files: seq<Template<T>>, mentioned: set<string>, static': set<string>, role: string,
                                   s: map<string, T>, o: map<string, T>) {
    && s.Keys !! o.Keys
    && (forall name :: name in s || name in o <==>
          Selects(files, role, name, mentioned) && !(IsInternal(name) && name !in static'))
    && (forall name :: name in s ==> name in static')
    && (forall name :: name in s ==> IsDefinition(files, name, s[name]))
    && (forall name :: name in o ==> IsDefinition(files, name, o[name]))
  }

  lemma RoleIsSplit<T(!new)>(files: seq<Template<T>>, mentioned: set<string>, static': set<string>, role: string,
                             names: seq<string>, s: map<string, T>, o: map<string, T>)
    requires forall name :: name in names <==> Selects(files, role, name, mentioned)
    requires forall name :: name in names ==> name in Defaults(files)
    requires s == StaticDefaults(names, Defaults(files), static') && o == OrdinaryDefaults(names, Defaults(files), static')
    ensures IsSplit(files, mentioned, static', role, s, o)
  {
    forall name
      ensures IsPrivate(name) <==> IsInternal(name)
    {
      PrivateIsInternal(name);
    }
    forall name | name in Defaults(files)
      ensures IsDefinition(files, name, Defaults(files)[name])
    {
      DefaultsAre(files, name);
    }
  }

  /** The parameter part of `_generate_environment`, up to the samples. */
  method SplitParameters<T(!new)>(files: seq<Template<T>>, mentioned: set<string>, static': set<string>)
    returns (r: Option<(map<string, map<string, T>>, map<string, map<string, T>>)>)
    ensures r.None? <==> exists i :: 0 <= i < |files| && Missing(files[i], mentioned)
    ensures r.Some? ==> forall role :: IsSplit(files, mentioned, static', role, ParamsOf(r.value.0, role), ParamsOf(r.value.1, role))
  {
    var selected := SelectParameters(files, mentioned);
    if selected.None? { return None; }
    var (names, defaults) := selected.value;
    var statics: map<string, map<string, T>>, ordinary: map<string, map<string, T>> := map[], map[];
    var left := names.Keys;
    while left != {}
      invariant left <= names.Keys && statics.Keys == ordinary.Keys == names.Keys - left
      invariant forall role :: role in statics ==>
                  statics[role] == StaticDefaults(names[role], defaults, static') &&
                  ordinary[role] == OrdinaryDefaults(names[role], defaults, static')
    {
      var role :| role in left;
      left := left - {role};
      statics := statics[role := StaticDefaults(names[role], defaults, static')];
      ordinary := ordinary[role := OrdinaryDefaults(names[role], defaults, static')];
    }
    forall role
      ensures IsSplit(files, mentioned, static', role, ParamsOf(statics, role), ParamsOf(ordinary, role))
    {
      RoleIsSplit(files, mentioned, static', role, NamesOf(names, role), ParamsOf(statics, role), ParamsOf(ordinary, role));
    }
    r := Some((statics, ordinary));
  }

  // ---------- sample values ----------

  /** A parameter as the loaded template holds it: one object, however many roles list it. */
  class Entry {
    var sample: Option<string>

    constructor ()
      ensures sample == None
    {
      sample := None;
    }
  }

  /** Every listing of a name refers to the one entry of that name. */
  predicate Shares(params: map<string, map<string, Entry>>, entries: map<string, Entry>) {
    forall role, name :: role in params && name in params[role] ==> name in entries && params[role][name] == entries[name]
  }

  predicate Listed(params: map<string, map<string, Entry>>, name: string) {
    exists role :: role in params && name in params[role]
  }

  predicate DistinctEntries(entries: map<string, Entry>) {
    forall a, b :: a in entries && b in entries && a != b ==> entries[a] != entries[b]
  }

  /** Give the sample to the parameter wherever it is listed. */
  method InitializeParams(params: map<string, map<string, Entry>>, entries: map<string, Entry>, k: string, v: string)
    requires Shares(params, entries) && DistinctEntries(entries)
    modifies entries.Values
    ensures forall name :: name in entries ==>
              entries[name].sample == if name == k && Listed(params, k) then Some(v) else old(entries[name].sample)
  {
    var left := params.Keys;
    while left != {}
      invariant left <= params.Keys
      invariant forall name :: name in entries ==>
                  entries[name].sample ==
                    if name == k && exists role :: role in params && role !in left && k in params[role]
                    then Some(v) else old(entries[name].sample)
    {
      var role :| role in left;
      left := left - {role};
      if k in params[role] {
        assert params[role][k] == entries[k] && entries[k] in entries.Values;
        params[role][k].sample := Some(v);
      }
    }
  }

  /** After all samples, in whatever order they come, exactly the listed parameters with a
      sample have it, in both kinds and in every role that lists them. */
  method InitializeAll(ordinary: map<string, map<string, Entry>>, static': map<string, map<string, Entry>>,
                       entries: map<string, Entry>, samples: map<string, string>)
    requires Shares(ordinary, entries) && Shares(static', entries) && DistinctEntries(entries)
    modifies entries.Values
    ensures forall name :: name in entries ==>
              entries[name].sample == if name in samples && (Listed(ordinary, name) || Listed(static', name))
                                      then Some(samples[name]) else old(entries[name].sample)
  {
    var left := samples.Keys;
    while left != {}
      invariant left <= samples.Keys
      invariant forall name :: name in entries ==>
                  entries[name].sample == if name in samples && name !in left && (Listed(ordinary, name) || Listed(static', name))
                                          then Some(samples[name]) else old(entries[name].sample)
    {
      var k :| k in left;
      left := left - {k};
      InitializeParams(ordinary, entries, k, samples[k]);
      InitializeParams(static', entries, k, samples[k]);
    }
  }
}
