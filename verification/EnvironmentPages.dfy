/** Writing a page for every environment of a tree: each from its merged settings, until one
    of them cannot be written. */
module EnvironmentPages {
  import opened Wrappers
  import opened EnvironmentParameters
  import opened Environments

  /** The parameters of a template file, as it is read: a mapping and its order. */
  datatype Source<T> = Source(params: map<string, T>, order: seq<string>)

  /** A page: the definitions by role, static and ordinary, and the sample values that their
      parameters are shown with. */
  datatype Page<T> = Page(name: string, statics: map<string, map<string, T>>, ordinary: map<string, map<string, T>>,
                          samples: map<string, string>)

  // ---------- reading merged settings ----------

  function FilesOf(e: Env): seq<(string, seq<(string, Selection)>)> {
    if "files" in e.settings && e.settings["files"].Files? then e.settings["files"].files else []
  }

  function StaticOf(e: Env): seq<string> {
    if "static" in e.settings && e.settings["static"].Names? then e.settings["static"].names else []
  }

  function SamplesOf(e: Env): map<string, string> {
    if "sample_values" in e.settings && e.settings["sample_values"].Samples? then e.settings["sample_values"].values else map[]
  }

  function NameOf(e: Env): Option<string> {
    if "name" in e.settings && e.settings["name"].Text? then Some(e.settings["name"].text) else None
  }

  /** The names mentioned in a sample or as static, which are not hidden. */
  function Mentioned(e: Env): set<string> {
    (set name | name in StaticOf(e)) + SamplesOf(e).Keys
  }

  function StaticSet(e: Env): set<string> {
    set name | name in StaticOf(e)
  }

  /** The templates that an environment names; one whose file is not there is an error. */
  function TemplatesIn<T>(world: map<string, Source<T>>, files: seq<(string, seq<(string, Selection)>)>): Option<seq<Template<T>>> {
    if files == [] then Some([])
    else if files[0].0 !in world then None
    else
      var rest := TemplatesIn(world, files[1..]);
      if rest.None? then None
      else Some([Template(world[files[0].0].params, world[files[0].0].order, files[0].1)] + rest.value)
  }

  function TemplatesOf<T>(world: map<string, Source<T>>, e: Env): Option<seq<Template<T>>> {
    TemplatesIn(world, FilesOf(e))
  }

  /** No page can be written: there is no name, a template file is not there, or one lacks a
      parameter that it is asked for. */
  ghost predicate Broken<T>(world: map<string, Source<T>>, e: Env) {
    || NameOf(e).None?
    || TemplatesOf(world, e).None?
    || exists i :: 0 <= i < |TemplatesOf(world, e).value| && Missing(TemplatesOf(world, e).value[i], Mentioned(e))
  }

  ghost predicate Lists<T>(params: map<string, map<string, T>>, name: string) {
    exists role :: role in params && name in params[role]
  }

  /** The page of an environment: its parameters are split as its merged settings say, and
      exactly those listed and with a sample value are shown with that. */
  ghost predicate IsPage<T(!new)>(world: map<string, Source<T>>, e: Env, page: Page<T>) {
    && !Broken(world, e)
    && NameOf(e) == Some(page.name)
    && (forall role :: IsSplit(TemplatesOf(world, e).value, Mentioned(e), StaticSet(e), role,
                               ParamsOf(page.statics, role), ParamsOf(page.ordinary, role)))
    && (forall name :: At(page.samples, name) ==
          if name in SamplesOf(e) && (Lists(page.statics, name) || Lists(page.ordinary, name)) then Some(SamplesOf(e)[name])
          else None)
  }

  // ---------- the settings by their keys ----------

  ghost predicate HasName(e: Env, name: string) {
    At(e.settings, "name") == Some(Text(name))
  }

  /** The static names, and none if there is no such setting. */
  ghost predicate HasStatic(e: Env, names: seq<string>) {
    match At(e.settings, "static") {
      case Some(s) => if s.Names? then s == Setting.Names(names) else names == []
      case None => names == []
    }
  }

  ghost predicate HasSamples(e: Env, samples: map<string, string>) {
    match At(e.settings, "sample_values") {
      case Some(s) => if s.Samples? then s == Samples(samples) else samples == map[]
      case None => samples == map[]
    }
  }

  ghost predicate HasFiles(e: Env, files: seq<(string, seq<(string, Selection)>)>) {
    match At(e.settings, "files") {
      case Some(s) => if s.Files? then s == Files(files) else files == []
      case None => files == []
    }
  }

  /** The templates are the named files, with their parameters as they are read. */
  ghost predicate AreTemplates<T>(world: map<string, Source<T>>, files: seq<(string, seq<(string, Selection)>)>, templates: seq<Template<T>>) {
    && |templates| == |files|
    && forall i :: 0 <= i < |files| ==>
         && files[i].0 in world
         && templates[i] == Template(world[files[i].0].params, world[files[i].0].order, files[i].1)
  }

  lemma {:induction false} TemplatesAre<T>(world: map<string, Source<T>>, files: seq<(string, seq<(string, Selection)>)>)
    ensures TemplatesIn(world, files).Some? <==> forall i :: 0 <= i < |files| ==> files[i].0 in world
    ensures TemplatesIn(world, files).Some? ==> AreTemplates(world, files, TemplatesIn(world, files).value)
  {
    if files != [] {
      TemplatesAre(world, files[1..]);
      assert forall i :: 0 < i < |files| ==> files[i] == files[1..][i - 1];
      if forall i :: 0 <= i < |files| ==> files[i].0 in world {
        assert forall i :: 0 <= i < |files[1..]| ==> files[1..][i] == files[i + 1];
      }
    }
  }

  /** A page, by the keys of the settings that it is made from. */
  lemma PageSpelled<T(!new)>(world: map<string, Source<T>>, e: Env, page: Page<T>)
    requires IsPage(world, e, page)
    ensures HasName(e, page.name)
    ensures exists files, templates, names, samples ::
              && HasFiles(e, files) && AreTemplates(world, files, templates) && HasStatic(e, names) && HasSamples(e, samples)
              && (forall role :: IsSplit(templates, samples.Keys + (set n | n in names), (set n | n in names), role,
                                         ParamsOf(page.statics, role), ParamsOf(page.ordinary, role)))
              && (forall name :: At(page.samples, name) ==
                    if name in samples && (Lists(page.statics, name) || Lists(page.ordinary, name)) then Some(samples[name]) else None)
  {
    TemplatesAre(world, FilesOf(e));
    var files, templates, names, samples := FilesOf(e), TemplatesOf(world, e).value, StaticOf(e), SamplesOf(e);
    assert HasFiles(e, files) && HasStatic(e, names) && HasSamples(e, samples);
    assert Mentioned(e) == samples.Keys + (set n | n in names);
  }

  /** There is no page exactly when the name, a file or a selected parameter is missing. */
  lemma BrokenSpelled<T>(world: map<string, Source<T>>, e: Env, files: seq<(string, seq<(string, Selection)>)>,
                         names: seq<string>, samples: map<string, string>)
    requires HasFiles(e, files) && HasStatic(e, names) && HasSamples(e, samples)
    ensures Broken(world, e) <==>
              || !(exists name :: HasName(e, name))
              || (exists i :: 0 <= i < |files| && files[i].0 !in world)
              || exists templates: seq<Template<T>>, i ::
                   && AreTemplates(world, files, templates) && 0 <= i < |templates|
                   && Missing(templates[i], samples.Keys + (set n | n in names))
  {
    TemplatesAre(world, files);
    assert files == FilesOf(e) && names == StaticOf(e) && samples == SamplesOf(e);
    assert Mentioned(e) == samples.Keys + (set n | n in names);
    assert NameOf(e).Some? ==> HasName(e, NameOf(e).value);
  }

  // ---------- one page ----------

  /** An entry for each name, all different. */
  method NewEntries(names: set<string>) returns (entries: map<string, Entry>)
    ensures entries.Keys == names && DistinctEntries(entries)
    ensures forall name :: name in names ==> fresh(entries[name]) && entries[name].sample == None
  {
    entries := map[];
    var left := names;
    while left != {}
      invariant left <= names && entries.Keys == names - left && DistinctEntries(entries)
      invariant forall name :: name in entries ==> fresh(entries[name]) && entries[name].sample == None
    {
      var name :| name in left;
      var entry := new Entry();
      entries := entries[name := entry];
      left := left - {name};
    }
  }

  /** Each role's listing of the shared entries. */
  function Listing<T>(params: map<string, map<string, T>>, entries: map<string, Entry>): map<string, map<string, Entry>> {
    map role | role in params :: map name | name in params[role] && name in entries :: entries[name]
  }

  lemma ListingLists<T>(params: map<string, map<string, T>>, entries: map<string, Entry>, name: string)
    requires name in entries
    ensures Listed(Listing(params, entries), name) <==> Lists(params, name)
  {
    var listing := Listing(params, entries);
    if Listed(listing, name) {
      var role :| role in listing && name in listing[role];
      assert role in params && name in params[role];
    }
    if Lists(params, name) {
      var role :| role in params && name in params[role];
      assert role in listing && name in listing[role];
    }
  }

  /** The sample values written into the shared entries of the listed parameters. */
  method ShownSamples<T>(statics: map<string, map<string, T>>, ordinary: map<string, map<string, T>>, samples: map<string, string>)
    returns (shown: map<string, string>)
    ensures forall name :: At(shown, name) ==
              if name in samples && (Lists(statics, name) || Lists(ordinary, name)) then Some(samples[name]) else None
  {
    var entries := NewEntries(samples.Keys);
    InitializeAll(Listing(ordinary, entries), Listing(statics, entries), entries, samples);
    shown := map name | name in entries && entries[name].sample.Some? :: entries[name].sample.value;
    forall name | name in samples
      ensures Listed(Listing(ordinary, entries), name) <==> Lists(ordinary, name)
      ensures Listed(Listing(statics, entries), name) <==> Lists(statics, name)
    {
      ListingLists(ordinary, entries, name);
      ListingLists(statics, entries, name);
    }
  }

  method WritePage<T(!new)>(world: map<string, Source<T>>, e: Env) returns (page: Option<Page<T>>)
    ensures page.None? <==> Broken(world, e)
    ensures page.Some? ==> IsPage(world, e, page.value)
  {
    page := None;
    var templates := TemplatesOf(world, e);
    if templates.None? { return; }
    var split := SplitParameters(templates.value, Mentioned(e), StaticSet(e));
    if split.None? || NameOf(e).None? { return; }
    var (statics, ordinary) := split.value;
    var samples := ShownSamples(statics, ordinary, SamplesOf(e));
    page := Some(Page(NameOf(e).value, statics, ordinary, samples));
  }

  // ---------- the tree ----------

  /** Pages were written for the environments in order: for all of them, or until one that is
      broken. */
  ghost predicate WrittenUntil<T(!new)>(world: map<string, Source<T>>, envs: seq<Env>, ok: bool, pages: seq<Page<T>>) {
    && |pages| <= |envs|
    && (forall i :: 0 <= i < |pages| ==> IsPage(world, envs[i], pages[i]))
    && (if ok then |pages| == |envs| else |pages| < |envs| && Broken(world, envs[|pages|]))
  }

  lemma WrittenInTwo<T(!new)>(world: map<string, Source<T>>, a: seq<Env>, pages: seq<Page<T>>, z: seq<Env>, ok: bool, more: seq<Page<T>>)
    requires WrittenUntil(world, a, true, pages) && WrittenUntil(world, z, ok, more)
    ensures WrittenUntil(world, a + z, ok, pages + more)
  {
    forall i | 0 <= i < |pages + more|
      ensures IsPage(world, (a + z)[i], (pages + more)[i])
    {
      if i < |a| {
        assert IsPage(world, a[i], pages[i]);
      } else {
        assert IsPage(world, z[i - |a|], more[i - |a|]);
      }
    }
    if !ok {
      assert (a + z)[|pages + more|] == z[|more|];
    }
  }

  lemma WrittenPrefix<T(!new)>(world: map<string, Source<T>>, a: seq<Env>, z: seq<Env>, pages: seq<Page<T>>)
    requires a <= z && WrittenUntil(world, a, false, pages)
    ensures WrittenUntil(world, z, false, pages)
  {
  }

  lemma {:induction false} WrittenBelowGrows(input: Env, env: Env, n: nat, m: nat)
    requires n <= m <= |ChildrenOf(input)|
    ensures WrittenBelow(input, env, n) <= WrittenBelow(input, env, m)
  {
    if n < m {
      WrittenBelowGrows(input, env, n, m - 1);
    }
  }

  /** One child more: either all is well so far, or the traversal is over. */
  lemma ChildWritten<T(!new)>(world: map<string, Source<T>>, input: Env, env: Env, n: nat, pages: seq<Page<T>>, ok: bool, more: seq<Page<T>>)
    requires n < |ChildrenOf(input)|
    requires WrittenUntil(world, [env] + WrittenBelow(input, env, n), true, pages)
    requires WrittenUntil(world, Written(ChildrenOf(input)[n], env), ok, more)
    ensures WrittenUntil(world, [env] + WrittenBelow(input, env, if ok then n + 1 else |ChildrenOf(input)|), ok, pages + more)
  {
    var before, child := WrittenBelow(input, env, n), Written(ChildrenOf(input)[n], env);
    WrittenInTwo(world, [env] + before, pages, child, ok, more);
    assert [env] + before + child == [env] + (before + child);
    if !ok {
      WrittenBelowGrows(input, env, n + 1, |ChildrenOf(input)|);
      WrittenPrefix(world, [env] + (before + child), [env] + WrittenBelow(input, env, |ChildrenOf(input)|), pages + more);
    }
  }

  lemma FirstWritten<T(!new)>(world: map<string, Source<T>>, input: Env, env: Env, page: Option<Page<T>>)
    requires page.None? <==> Broken(world, env)
    requires page.Some? ==> IsPage(world, env, page.value)
    ensures page.None? ==> WrittenUntil(world, [env] + WrittenBelow(input, env, |ChildrenOf(input)|), false, [])
    ensures page.Some? ==> WrittenUntil(world, [env] + WrittenBelow(input, env, 0), true, [page.value])
  {
  }

  /** `_generate_environment`: the pages of a definition and everything below it. */
  method GenerateEnvironment<T(!new)>(world: map<string, Source<T>>, input: Env, parent: Env)
    returns (ok: bool, pages: seq<Page<T>>)
    ensures WrittenUntil(world, Written(input, parent), ok, pages)
    decreases input
  {
    var env := Under(input, parent);
    var page := WritePage(world, env);
    FirstWritten(world, input, env, page);
    if page.None? {
      return false, [];
    }
    ok, pages := true, [page.value];
    ChildrenAreOwn(input, parent);
    var children := ChildrenOf(env);
    for n := 0 to |children|
      invariant ok && WrittenUntil(world, [env] + WrittenBelow(input, env, n), true, pages)
    {
      var more;
      ok, more := GenerateEnvironment(world, children[n], env);
      ChildWritten(world, input, env, n, pages, ok, more);
      pages := pages + more;
      if !ok { return; }
    }
  }

  /** `generate_environments` for the definitions of one file. */
  method GenerateEnvironments<T(!new)>(world: map<string, Source<T>>, envs: seq<Env>) returns (ok: bool, pages: seq<Page<T>>)
    ensures WrittenUntil(world, AllWritten(envs), ok, pages)
  {
    ok, pages := true, [];
    for n := 0 to |envs|
      invariant ok && WrittenUntil(world, AllWritten(envs[..n]), true, pages)
    {
      var more;
      ok, more := GenerateEnvironment(world, envs[n], NO_PARENT);
      assert envs[..n + 1][..n] == envs[..n];
      WrittenInTwo(world, AllWritten(envs[..n]), pages, Written(envs[n], NO_PARENT), ok, more);
      pages := pages + more;
      if !ok {
        AllWrittenGrows(envs, n + 1);
        WrittenPrefix(world, AllWritten(envs[..n + 1]), AllWritten(envs), pages);
        return;
      }
    }
    assert envs[..|envs|] == envs;
  }

  function AllWritten(envs: seq<Env>): seq<Env> {
    if envs == [] then [] else AllWritten(envs[..|envs| - 1]) + Written(envs[|envs| - 1], NO_PARENT)
  }

  lemma {:induction false} AllWrittenGrows(envs: seq<Env>, n: nat)
    requires n <= |envs|
    ensures AllWritten(envs[..n]) <= AllWritten(envs)
  {
    if n == |envs| {
      assert envs[..n] == envs;
    } else {
      AllWrittenGrows(envs[..|envs| - 1], n);
      assert envs[..|envs| - 1][..n] == envs[..n];
    }
  }

  /** When a tree is written to the end, every definition in it has its page, made from the
      latest settings on the way to it. */
  lemma PageOfEvery<T(!new)>(world: map<string, Source<T>>, root: Env, pages: seq<Page<T>>, way: Way)
    requires WrittenUntil(world, Written(root, NO_PARENT), true, pages) && Leads(root, way)
    ensures exists i, e :: 0 <= i < |pages| && IsMerge(e, map[], Along(root, way)) && IsPage(world, e, pages[i])
  {
    Inheritance(root, way);
    var i :| 0 <= i < |Ways(root)| && Ways(root)[i] == way && IsMerge(Written(root, NO_PARENT)[i], map[], Along(root, way));
    assert IsPage(world, Written(root, NO_PARENT)[i], pages[i]);
  }
}
