/** YAML data as the template checker sees it, and the deep key search over it. */
module NestedData {
  import opened Sequences
  import opened Wrappers

  /** Mappings list their entries in iteration order.  `Other` stands for numbers, booleans,
      dates and nulls. */
  datatype Data =
    | Text(s: string)
    | Other(repr: string)
    | List(items: seq<Data>)
    | Dict(entries: seq<(string, Data)>)

  datatype Step = Key(name: string) | Index(at: nat)

  type Path = seq<Step>

  /** No mapping has a key twice. */
  predicate DistinctKeys(d: Data) {
    match d
    case Text(_) => true
    case Other(_) => true
    case List(items) => forall i :: 0 <= i < |items| ==> DistinctKeys(items[i])
    case Dict(entries) =>
      && (forall i, j :: 0 <= i < j < |entries| ==> entries[i].0 != entries[j].0)
      && (forall i :: 0 <= i < |entries| ==> DistinctKeys(entries[i].1))
  }

  // ---------- following a path ----------

  /** `Missing` is the key error that is caught; `Raised` is any other error. */
  datatype Got = Found(d: Data) | Missing | Raised

  function Take(d: Data, step: Step): Got {
    match (d, step)
    case (Dict(entries), Key(name)) =>
      var v := Lookup(entries, name);
      if v.Some? then Found(v.value) else Missing
    case (Dict(_), Index(_)) => Missing
    case (List(items), Index(at)) => if at < |items| then Found(items[at]) else Raised
    case (Text(s), Index(at)) => if at < |s| then Found(Text([s[at]])) else Raised
    case (_, _) => Raised
  }

  function Get(d: Data, path: Path): Got
    decreases |path|
  {
    if path == [] then Found(d) else
      var next := Take(d, path[0]);
      if next.Found? then Get(next.d, path[1..]) else next
  }

  // ---------- the search ----------

  /** What to look for: a test on key names, a test on values, which of them counts inside
      mappings, and whether lists are entered. */
  datatype Query = Query(hitsKey: string -> bool, hitsValue: Data -> bool, keynames: bool, lists: bool) {
    predicate Hits(step: Step, value: Data) {
      if step.Key? && keynames then hitsKey(step.name) else hitsValue(value)
    }

    predicate Enters(d: Data) {
      d.Dict? || (lists && d.List?)
    }
  }

  /** The places directly below `d`, in the order they are visited. */
  function Children(d: Data): (r: seq<(Step, Data)>)
    ensures forall i :: 0 <= i < |r| ==> r[i].1 < d
  {
    match d
    case List(items) => seq(|items|, i requires 0 <= i < |items| => (Index(i), items[i]))
    case Dict(entries) => seq(|entries|, i requires 0 <= i < |entries| => (Key(entries[i].0), entries[i].1))
    case _ => []
  }

  /** All matching places below `d`, deepest first, as paths that start with `prefix`. */
  function Matches(q: Query, d: Data, prefix: Path): seq<Path>
    decreases d, |Children(d)| + 1
  {
    if q.Enters(d) then MatchesFrom(q, d, prefix, 0) else []
  }

  function MatchesFrom(q: Query, d: Data, prefix: Path, n: nat): seq<Path>
    requires n <= |Children(d)|
    decreases d, |Children(d)| - n
  {
    if n == |Children(d)| then [] else
      var (step, v) := Children(d)[n];
      var path := prefix + [step];
      Matches(q, v, path) + (if q.Hits(step, v) then [path] else []) + MatchesFrom(q, d, prefix, n + 1)
  }

  function Steps(p: Path): set<Step> {
    set s | s in p
  }

  /** Some path already found has all these steps, in whatever order. */
  predicate Covered(found: seq<Path>, p: Path) {
    exists i :: 0 <= i < |found| && Steps(p) <= Steps(found[i])
  }

  function Keep(found: seq<Path>, p: Path): seq<Path> {
    if Covered(found, p) then found else found + [p]
  }

  function KeepAll(found: seq<Path>, paths: seq<Path>): seq<Path>
    decreases |paths|
  {
    if paths == [] then found else KeepAll(Keep(found, paths[0]), paths[1..])
  }

  lemma {:induction false} KeepAllInTwo(found: seq<Path>, a: seq<Path>, z: seq<Path>)
    ensures KeepAll(found, a + z) == KeepAll(KeepAll(found, a), z)
    decreases |a|
  {
    if a == [] {
      assert a + z == z;
    } else {
      assert (a + z)[1..] == a[1..] + z;
      KeepAllInTwo(Keep(found, a[0]), a[1..], z);
    }
  }

  /** One turn of the search's loop. */
  lemma KeepAllStep(found: seq<Path>, q: Query, d: Data, prefix: Path, n: nat)
    requires n < |Children(d)|
    ensures var (step, v) := Children(d)[n];
            var path := prefix + [step];
            var below := KeepAll(found, Matches(q, v, path));
            KeepAll(found, MatchesFrom(q, d, prefix, n)) ==
              KeepAll(if q.Hits(step, v) then Keep(below, path) else below, MatchesFrom(q, d, prefix, n + 1))
  {
    var (step, v) := Children(d)[n];
    var path := prefix + [step];
    var below, here := Matches(q, v, path), if q.Hits(step, v) then [path] else [];
    KeepAllInTwo(found, below + here, MatchesFrom(q, d, prefix, n + 1));
    KeepAllInTwo(found, below, here);
    assert here != [] ==> here[1..] == [];
  }

  /** The search with its shared path and result list. */
  class Searcher {
    const q: Query
    var path: Path
    var result: seq<Path>

    constructor (q: Query)
      ensures this.q == q && path == [] && result == []
    {
      this.q, path, result := q, [], [];
    }

    /** Add the current path unless some result has all its steps. */
    method Report()
      modifies this`result
      ensures result == Keep(old(result), path)
    {
      var present := false;
      for i := 0 to |result|
        invariant present == false
        invariant !Covered(result[..i], path)
      {
        if Steps(path) <= Steps(result[i]) {
          present := true;
          break;
        }
        assert result[..i + 1] == result[..i] + [result[i]];
      }
      assert present ==> Covered(result, path);
      assert result[..|result|] == result;
      if !present {
        result := result + [path];
      }
    }

    method Nested(d: Data)
      modifies this
      ensures path == old(path)
      ensures result == KeepAll(old(result), Matches(q, d, old(path)))
      decreases d, 0
    {
      ghost var found, prefix := result, path;
      if q.Enters(d) {
        var children := Children(d);
        for n := 0 to |children|
          invariant path == prefix
          invariant KeepAll(result, MatchesFrom(q, d, prefix, n)) == KeepAll(found, MatchesFrom(q, d, prefix, 0))
        {
          KeepAllStep(result, q, d, prefix, n);
          Visit(children[n].0, children[n].1);
        }
      }
    }

    /** One turn of the loop: the child's own matches first, then the child itself. */
    method Visit(step: Step, v: Data)
      modifies this
      ensures path == old(path)
      ensures var at := old(path) + [step];
              var below := KeepAll(old(result), Matches(q, v, at));
              result == if q.Hits(step, v) then Keep(below, at) else below
      decreases v, 1
    {
      path := path + [step];
      if q.Enters(v) {
        Nested(v);
      }
      if q.Hits(step, v) {
        Report();
      }
      path := path[..|path| - 1];
    }
  }

  /** `_rsearch_keys`: a fresh search from the root. */
  method RSearchKeys(d: Data, q: Query) returns (result: seq<Path>)
    ensures result == KeepAll([], Matches(q, d, []))
  {
    var searcher := new Searcher(q);
    searcher.Nested(d);
    result := searcher.result;
  }
}
