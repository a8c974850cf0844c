/** The sample environment generator: settings inherited down a tree of environments, and a
    page written for each of them. */
module Environments {
  import opened Wrappers
  import opened EnvironmentParameters

  /** An environment definition is one mapping, its children among the other settings. */
  datatype Env = Env(settings: map<string, Setting>)

  datatype Setting =
    | Text(text: string)
    | Names(names: seq<string>)
    | Samples(values: map<string, string>)
    | Files(files: seq<(string, seq<(string, Selection)>)>)
    | Envs(envs: seq<Env>)

  const NO_PARENT := Env(map[])

  // ---------- inheritance ----------

  /** An environment under its parent: the parent's settings but for its children, updated by
      its own. */
  function Under(input: Env, parent: Env): Env {
    Env((parent.settings - {"children"}) + input.settings)
  }

  function ChildrenOf(e: Env): (r: seq<Env>)
    ensures forall i :: 0 <= i < |r| ==> r[i] < e
  {
    if "children" in e.settings && e.settings["children"].Envs? then e.settings["children"].envs else []
  }

  /** The children found after merging are the definition's own, so that going into them comes
      to an end: without the removal, a definition without children would find its parent's,
      and itself among them. */
  lemma ChildrenAreOwn(input: Env, parent: Env)
    ensures ChildrenOf(Under(input, parent)) == ChildrenOf(input)
    ensures forall envs :: At(input.settings, "children") == Some(Envs(envs)) ==> ChildrenOf(Under(input, parent)) == envs
    ensures "children" !in input.settings ==> ChildrenOf(Under(input, parent)) == []
  {
  }

  lemma ChildrenWouldBeInherited(input: Env, parent: Env)
    requires "children" !in input.settings && input in ChildrenOf(parent)
    ensures input in ChildrenOf(Env(parent.settings + input.settings))
  {
  }

  /** The merged environments, in the order in which their pages are written, for the first
      `n` children. */
  function WrittenBelow(input: Env, env: Env, n: nat): seq<Env>
    requires n <= |ChildrenOf(input)|
    decreases input, n
  {
    if n == 0 then [] else WrittenBelow(input, env, n - 1) + Written(ChildrenOf(input)[n - 1], env)
  }

  function Written(input: Env, parent: Env): seq<Env>
    decreases input, |ChildrenOf(input)| + 1
  {
    [Under(input, parent)] + WrittenBelow(input, Under(input, parent), |ChildrenOf(input)|)
  }

  /** The way from the root to a node: which child to take at each step. */
  type Way = seq<nat>

  predicate Leads(e: Env, way: Way)
    decreases |way|
  {
    way == [] || (way[0] < |ChildrenOf(e)| && Leads(ChildrenOf(e)[way[0]], way[1..]))
  }

  /** The definitions met on the way, from the root down. */
  function Along(e: Env, way: Way): (r: seq<Env>)
    requires Leads(e, way)
    ensures r != []
    decreases |way|
  {
    [e] + if way == [] then [] else Along(ChildrenOf(e)[way[0]], way[1..])
  }

  /** All ways, in the order in which the pages are written. */
  function WaysBelow(e: Env, n: nat): seq<Way>
    requires n <= |ChildrenOf(e)|
    decreases e, n
  {
    if n == 0 then [] else WaysBelow(e, n - 1) + Extended(n - 1, Ways(ChildrenOf(e)[n - 1]))
  }

  function Ways(e: Env): seq<Way>
    decreases e, |ChildrenOf(e)| + 1
  {
    [[]] + WaysBelow(e, |ChildrenOf(e)|)
  }

  function Extended(first: nat, ways: seq<Way>): seq<Way> {
    seq(|ways|, i requires 0 <= i < |ways| => [first] + ways[i])
  }

  /** What the last of some definitions that has a key says, or else the base. */
  function Latest(base: map<string, Setting>, layers: seq<Env>, key: string): Option<Setting> {
    if layers == [] then At(base, key)
    else
      var last := layers[|layers| - 1];
      if key in last.settings then Some(last.settings[key])
      else Latest(base, layers[..|layers| - 1], key)
  }

  /** `e` merges definitions, from the top down, over a base: every setting is the latest one,
      except that the children are those of the last definition. */
  ghost predicate IsMerge(e: Env, base: map<string, Setting>, layers: seq<Env>)
    requires layers != []
  {
    && (forall key :: key != "children" ==> At(e.settings, key) == Latest(base, layers, key))
    && At(e.settings, "children") == At(layers[|layers| - 1].settings, "children")
  }

  lemma {:induction false} LatestOverTop(base: map<string, Setting>, parent: map<string, Setting>, top: Env, layers: seq<Env>, key: string)
    requires key != "children" && parent == (base - {"children"}) + top.settings
    ensures Latest(parent, layers, key) == Latest(base, [top] + layers, key)
  {
    var all := [top] + layers;
    if layers == [] {
      assert all[..0] == [];
    } else {
      assert all[..|all| - 1] == [top] + layers[..|layers| - 1];
      LatestOverTop(base, parent, top, layers[..|layers| - 1], key);
    }
  }

  lemma MergeOverTop(e: Env, parent: Env, top: Env, layers: seq<Env>)
    requires layers != [] && IsMerge(e, Under(top, parent).settings, layers)
    ensures IsMerge(e, parent.settings, [top] + layers)
  {
    forall key | key != "children"
      ensures At(e.settings, key) == Latest(parent.settings, [top] + layers, key)
    {
      LatestOverTop(parent.settings, Under(top, parent).settings, top, layers, key);
    }
  }

  lemma OwnMerge(e: Env, parent: Env)
    ensures IsMerge(Under(e, parent), parent.settings, [e])
  {
    forall key | key != "children"
      ensures At(Under(e, parent).settings, key) == Latest(parent.settings, [e], key)
    {
      assert [e][..0] == [];
    }
  }

  /** `m` is what the definition that `way` leads to is merged to. */
  ghost predicate Placed(e: Env, parent: Env, way: Way, m: Env) {
    Leads(e, way) && IsMerge(m, parent.settings, Along(e, way))
  }

  /** The same for a way into one of the children. */
  ghost predicate PlacedBelow(e: Env, env: Env, way: Way, m: Env) {
    way != [] && way[0] < |ChildrenOf(e)| && Placed(ChildrenOf(e)[way[0]], env, way[1..], m)
  }

  ghost predicate AllPlaced(e: Env, parent: Env, ways: seq<Way>, written: seq<Env>) {
    |ways| == |written| && forall i :: 0 <= i < |ways| ==> Placed(e, parent, ways[i], written[i])
  }

  ghost predicate AllPlacedBelow(e: Env, env: Env, ways: seq<Way>, written: seq<Env>) {
    |ways| == |written| && forall i :: 0 <= i < |ways| ==> PlacedBelow(e, env, ways[i], written[i])
  }

  lemma PlacedThrough(e: Env, parent: Env, way: Way, m: Env)
    requires PlacedBelow(e, Under(e, parent), way, m)
    ensures Placed(e, parent, way, m)
  {
    MergeOverTop(m, parent, e, Along(ChildrenOf(e)[way[0]], way[1..]));
  }

  lemma AllPlacedThrough(e: Env, parent: Env, ways: seq<Way>, written: seq<Env>)
    requires AllPlacedBelow(e, Under(e, parent), ways, written)
    ensures AllPlaced(e, parent, [[]] + ways, [Under(e, parent)] + written)
  {
    forall i | 0 <= i < |ways|
      ensures Placed(e, parent, ways[i], written[i])
    {
      PlacedThrough(e, parent, ways[i], written[i]);
    }
    assert Along(e, []) == [e];
    OwnMerge(e, parent);
  }

  lemma ChildPlaced(e: Env, env: Env, n: nat, ways: seq<Way>, written: seq<Env>)
    requires n < |ChildrenOf(e)| && AllPlaced(ChildrenOf(e)[n], env, ways, written)
    ensures AllPlacedBelow(e, env, Extended(n, ways), written)
  {
    forall i | 0 <= i < |ways|
      ensures PlacedBelow(e, env, Extended(n, ways)[i], written[i])
    {
      assert ([n] + ways[i])[1..] == ways[i];
    }
  }

  lemma PlacedInTwo(e: Env, env: Env, ways: seq<Way>, ways': seq<Way>, written: seq<Env>, written': seq<Env>)
    requires AllPlacedBelow(e, env, ways, written) && AllPlacedBelow(e, env, ways', written')
    ensures AllPlacedBelow(e, env, ways + ways', written + written')
  {
  }

  lemma {:induction false} WrittenIs(e: Env, parent: Env)
    ensures AllPlaced(e, parent, Ways(e), Written(e, parent))
    decreases e, |ChildrenOf(e)| + 1
  {
    var env, n := Under(e, parent), |ChildrenOf(e)|;
    WrittenBelowIs(e, env, n);
    AllPlacedThrough(e, parent, WaysBelow(e, n), WrittenBelow(e, env, n));
  }

  lemma WrittenBelowStep(e: Env, env: Env, n: nat)
    requires 0 < n <= |ChildrenOf(e)|
    requires AllPlacedBelow(e, env, WaysBelow(e, n - 1), WrittenBelow(e, env, n - 1))
    requires AllPlaced(ChildrenOf(e)[n - 1], env, Ways(ChildrenOf(e)[n - 1]), Written(ChildrenOf(e)[n - 1], env))
    ensures AllPlacedBelow(e, env, WaysBelow(e, n), WrittenBelow(e, env, n))
  {
    var ways, written := Ways(ChildrenOf(e)[n - 1]), Written(ChildrenOf(e)[n - 1], env);
    ChildPlaced(e, env, n - 1, ways, written);
    PlacedInTwo(e, env, WaysBelow(e, n - 1), Extended(n - 1, ways), WrittenBelow(e, env, n - 1), written);
  }

  lemma {:induction false} WrittenBelowIs(e: Env, env: Env, n: nat)
    requires n <= |ChildrenOf(e)|
    ensures AllPlacedBelow(e, env, WaysBelow(e, n), WrittenBelow(e, env, n))
    decreases e, n
  {
    if n > 0 {
      WrittenBelowIs(e, env, n - 1);
      WrittenIs(ChildrenOf(e)[n - 1], env);
      WrittenBelowStep(e, env, n);
    }
  }

  lemma {:induction false} EveryWay(e: Env, way: Way)
    requires Leads(e, way)
    ensures way in Ways(e)
    decreases |way|
  {
    if way == [] {
      assert Ways(e)[0] == [];
    } else {
      EveryWay(ChildrenOf(e)[way[0]], way[1..]);
      WaysThrough(e, way, |ChildrenOf(e)|);
    }
  }

  lemma {:induction false} WaysThrough(e: Env, way: Way, n: nat)
    requires way != [] && way[0] < n <= |ChildrenOf(e)| && way[1..] in Ways(ChildrenOf(e)[way[0]])
    ensures way in WaysBelow(e, n)
    decreases n
  {
    if way[0] == n - 1 {
      var ways := Ways(ChildrenOf(e)[n - 1]);
      var i :| 0 <= i < |ways| && ways[i] == way[1..];
      assert way == [n - 1] + way[1..] == Extended(n - 1, ways)[i];
    } else {
      WaysThrough(e, way, n - 1);
    }
  }

  /** Inheritance: every definition of the tree has one place among those written, and is
      merged there with those on the way to it: each setting is the latest, and the children
      are its own. */
  lemma Inheritance(root: Env, way: Way)
    requires Leads(root, way)
    ensures |Written(root, NO_PARENT)| == |Ways(root)|
    ensures exists i :: 0 <= i < |Ways(root)| && Ways(root)[i] == way &&
                        IsMerge(Written(root, NO_PARENT)[i], map[], Along(root, way))
  {
    WrittenIs(root, NO_PARENT);
    EveryWay(root, way);
    var i :| 0 <= i < |Ways(root)| && Ways(root)[i] == way;
    assert Placed(root, NO_PARENT, Ways(root)[i], Written(root, NO_PARENT)[i]);
  }
}
