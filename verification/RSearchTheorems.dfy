/** What the deep key search returns. */
module RSearchTheorems {
  import opened Sequences
  import opened Wrappers
  import opened NestedData

  /** A matching place, described by following its path.  It resolves to a value; if it ends
      in a key and names are searched, that name matches, and otherwise the value does; and
      everything on the way is a mapping, or a list if lists are entered. */
  ghost predicate Position(q: Query, d: Data, p: Path) {
    && p != []
    && Get(d, p).Found?
    && (var last := p[|p| - 1];
        if last.Key? && q.keynames then q.hitsKey(last.name) else q.hitsValue(Get(d, p).d))
    && forall i :: 0 <= i < |p| ==>
         && Get(d, p[..i]).Found?
         && (Get(d, p[..i]).d.Dict? || (q.lists && Get(d, p[..i]).d.List?))
  }

  /** In a container, following one step and visiting the children agree. */
  lemma TakeChild(q: Query, d: Data, n: nat)
    requires DistinctKeys(d) && n < |Children(d)|
    ensures Take(d, Children(d)[n].0) == Found(Children(d)[n].1)
    ensures DistinctKeys(Children(d)[n].1)
  {
    if d.Dict? {
      LookupAt(d.entries, n);
    }
  }

  lemma ChildTaken(q: Query, d: Data, step: Step) returns (n: nat)
    requires q.Enters(d) && Take(d, step).Found?
    ensures n < |Children(d)| && Children(d)[n] == (step, Take(d, step).d)
  {
    if d.Dict? {
      n := LookupFinds(d.entries, step.name);
    } else {
      n := step.at;
    }
  }

  /** A place below a child is a place below its parent, one step longer. */
  lemma PositionBelow(q: Query, d: Data, n: nat, rest: Path)
    requires DistinctKeys(d) && q.Enters(d) && n < |Children(d)|
    ensures var (step, v) := Children(d)[n];
            Position(q, d, [step] + rest) <==> if rest == [] then q.Hits(step, v) else Position(q, v, rest)
  {
    var (step, v) := Children(d)[n];
    var p := [step] + rest;
    TakeChild(q, d, n);
    assert p[1..] == rest;
    assert Get(d, p) == Get(v, rest);
    assert Get(d, p[..0]) == Found(d);
    forall i | 1 <= i < |p|
      ensures Get(d, p[..i]) == Get(v, rest[..i - 1])
    {
      assert p[..i][1..] == rest[..i - 1];
    }
    assert forall i :: 0 <= i < |rest| ==> Get(v, rest[..i]) == Get(d, p[..i + 1]);
  }

  lemma PositionTakes(q: Query, d: Data, p: Path)
    requires Position(q, d, p)
    ensures q.Enters(d) && Take(d, p[0]).Found?
  {
    assert Get(d, p[..0]) == Found(d);
  }

  lemma {:induction false} MatchesBelow(q: Query, d: Data, prefix: Path, p: Path)
    requires DistinctKeys(d)
    ensures p in Matches(q, d, prefix) <==> prefix <= p && Position(q, d, p[|prefix|..])
    decreases d, |Children(d)| + 1
  {
    if q.Enters(d) {
      MatchesFromBelow(q, d, prefix, 0, p);
      if prefix <= p && Position(q, d, p[|prefix|..]) {
        PositionTakes(q, d, p[|prefix|..]);
        var n := ChildTaken(q, d, p[|prefix|]);
      }
    } else if prefix <= p && Position(q, d, p[|prefix|..]) {
      PositionTakes(q, d, p[|prefix|..]);
    }
  }

  /** One of the children from the `n`th on is reached by this step. */
  ghost predicate StepFrom(d: Data, n: nat, step: Step) {
    exists k :: n <= k < |Children(d)| && Children(d)[k].0 == step
  }

  lemma StepFromNext(d: Data, n: nat, step: Step)
    requires n < |Children(d)|
    ensures StepFrom(d, n, step) <==> Children(d)[n].0 == step || StepFrom(d, n + 1, step)
  {
  }

  lemma {:induction false} MatchesFromBelow(q: Query, d: Data, prefix: Path, n: nat, p: Path)
    requires DistinctKeys(d) && q.Enters(d) && n <= |Children(d)|
    ensures p in MatchesFrom(q, d, prefix, n) <==>
              prefix <= p && Position(q, d, p[|prefix|..]) && StepFrom(d, n, p[|prefix|])
    decreases d, |Children(d)| - n
  {
    if n < |Children(d)| {
      var (step, v) := Children(d)[n];
      TakeChild(q, d, n);
      MatchesBelow(q, v, prefix + [step], p);
      MatchesHere(q, d, prefix, n, p);
      MatchesFromBelow(q, d, prefix, n + 1, p);
      if prefix < p {
        StepFromNext(d, n, p[|prefix|]);
      }
    }
  }

  /** The matches at and below one child. */
  lemma MatchesHere(q: Query, d: Data, prefix: Path, n: nat, p: Path)
    requires DistinctKeys(d) && q.Enters(d) && n < |Children(d)|
    requires var (step, v) := Children(d)[n];
             var path := prefix + [step];
             p in Matches(q, v, path) <==> path <= p && Position(q, v, p[|path|..])
    ensures var (step, v) := Children(d)[n];
            var path := prefix + [step];
            (p in Matches(q, v, path) || (q.Hits(step, v) && p == path)) <==>
              prefix < p && p[|prefix|] == step && Position(q, d, p[|prefix|..])
  {
    var (step, v) := Children(d)[n];
    var path := prefix + [step];
    if prefix < p && p[|prefix|] == step {
      var rest := p[|path|..];
      assert path <= p;
      assert p[|prefix|..] == [step] + rest;
      PositionBelow(q, d, n, rest);
      assert rest == [] <==> p == path;
    }
  }

  /** The places visited are the matching places. */
  lemma MatchesArePositions(q: Query, d: Data, p: Path)
    requires DistinctKeys(d)
    ensures p in Matches(q, d, []) <==> Position(q, d, p)
  {
    MatchesBelow(q, d, [], p);
    assert p[0..] == p;
  }

  // ---------- the filter ----------

  /** The paths that no earlier path covers, whether or not that one was kept. */
  function Uncovered(paths: seq<Path>, n: nat): seq<Path>
    requires n <= |paths|
  {
    if n == 0 then []
    else if Covered(paths[..n - 1], paths[n - 1]) then Uncovered(paths, n - 1)
    else Uncovered(paths, n - 1) + [paths[n - 1]]
  }

  lemma {:induction false} UncoveredComesFrom(paths: seq<Path>, n: nat, r: Path)
    requires n <= |paths| && r in Uncovered(paths, n)
    ensures r in paths[..n]
  {
    assert n > 0;
    if r == paths[n - 1] {
    } else {
      UncoveredComesFrom(paths, n - 1, r);
      assert paths[..n - 1] <= paths[..n];
    }
  }

  /** Covering by what is kept is covering by anything before. */
  lemma {:induction false} CoveredByKept(paths: seq<Path>, n: nat, p: Path)
    requires n <= |paths|
    ensures Covered(Uncovered(paths, n), p) <==> Covered(paths[..n], p)
  {
    if n > 0 {
      var last, before := paths[n - 1], Uncovered(paths, n - 1);
      assert paths[..n] == paths[..n - 1] + [last];
      CoveredByKept(paths, n - 1, p);
      CoveredByKept(paths, n - 1, last);
      CoveredBySome(paths[..n - 1], last, p);
      CoveredBySome(before, last, p);
      if Steps(p) <= Steps(last) && Covered(before, last) {
        var i :| 0 <= i < |before| && Steps(last) <= Steps(before[i]);
        assert Steps(p) <= Steps(before[i]);
      }
    }
  }

  lemma CoveredBySome(found: seq<Path>, last: Path, p: Path)
    ensures Covered(found + [last], p) <==> Covered(found, p) || Steps(p) <= Steps(last)
  {
    var z := found + [last];
    if Covered(found, p) {
      var i :| 0 <= i < |found| && Steps(p) <= Steps(found[i]);
      assert z[i] == found[i];
    }
    if Steps(p) <= Steps(last) {
      assert z[|found|] == last;
    }
  }

  lemma {:induction false} KeepAllIs(paths: seq<Path>, n: nat)
    requires n <= |paths|
    ensures KeepAll([], paths[..n]) == Uncovered(paths, n)
  {
    if n > 0 {
      KeepAllIs(paths, n - 1);
      assert paths[..n] == paths[..n - 1] + [paths[n - 1]];
      KeepAllInTwo([], paths[..n - 1], [paths[n - 1]]);
      CoveredByKept(paths, n - 1, paths[n - 1]);
    }
  }

  /** No kept path has its steps within those of an earlier kept one. */
  lemma {:induction false} UncoveredIsIrredundant(paths: seq<Path>, n: nat)
    requires n <= |paths|
    ensures var r := Uncovered(paths, n);
            forall i, j :: 0 <= i < j < |r| ==> !(Steps(r[j]) <= Steps(r[i]))
  {
    if n > 0 {
      UncoveredIsIrredundant(paths, n - 1);
      CoveredByKept(paths, n - 1, paths[n - 1]);
    }
  }

  /** All steps of one path are steps of the other. */
  ghost predicate StepsWithin(p: Path, r: Path) {
    forall s :: s in p ==> s in r
  }

  lemma StepsWithinIs(p: Path, r: Path)
    ensures Steps(p) <= Steps(r) <==> StepsWithin(p, r)
  {
    assert forall s :: s in Steps(p) <==> s in p;
    assert forall s :: s in Steps(r) <==> s in r;
  }

  lemma CoveredIs(found: seq<Path>, p: Path)
    ensures Covered(found, p) <==> exists i :: 0 <= i < |found| && StepsWithin(p, found[i])
  {
    forall i | 0 <= i < |found|
      ensures Steps(p) <= Steps(found[i]) <==> StepsWithin(p, found[i])
    {
      StepsWithinIs(p, found[i]);
    }
  }

  /** The search as a whole: every result is a matching place, every matching place has its
      steps among those of a result, and no result has its steps among those of an earlier
      one. */
  lemma RSearchIsCorrect(q: Query, d: Data)
    requires DistinctKeys(d)
    ensures var r := KeepAll([], Matches(q, d, []));
            && (forall p :: p in r ==> Position(q, d, p))
            && (forall p :: Position(q, d, p) ==> exists i :: 0 <= i < |r| && StepsWithin(p, r[i]))
            && (forall i, j :: 0 <= i < j < |r| ==> !StepsWithin(r[j], r[i]))
  {
    var r := KeepAll([], Matches(q, d, []));
    forall p | p in r
      ensures Position(q, d, p)
    {
      ResultIsPosition(q, d, p);
    }
    forall p | Position(q, d, p)
      ensures exists i :: 0 <= i < |r| && StepsWithin(p, r[i])
    {
      PositionCovered(q, d, p);
    }
    forall i, j | 0 <= i < j < |r|
      ensures !StepsWithin(r[j], r[i])
    {
      ResultsDiffer(q, d, i, j);
    }
  }

  lemma ResultIsPosition(q: Query, d: Data, p: Path)
    requires DistinctKeys(d) && p in KeepAll([], Matches(q, d, []))
    ensures Position(q, d, p)
  {
    var all := Matches(q, d, []);
    assert all[..|all|] == all;
    KeepAllIs(all, |all|);
    UncoveredComesFrom(all, |all|, p);
    MatchesArePositions(q, d, p);
  }

  lemma ResultsDiffer(q: Query, d: Data, i: nat, j: nat)
    requires i < j < |KeepAll([], Matches(q, d, []))|
    ensures var r := KeepAll([], Matches(q, d, [])); !StepsWithin(r[j], r[i])
  {
    var all := Matches(q, d, []);
    assert all[..|all|] == all;
    KeepAllIs(all, |all|);
    UncoveredIsIrredundant(all, |all|);
    StepsWithinIs(KeepAll([], all)[j], KeepAll([], all)[i]);
  }

  lemma PositionCovered(q: Query, d: Data, p: Path)
    requires DistinctKeys(d) && Position(q, d, p)
    ensures var r := KeepAll([], Matches(q, d, []));
            exists i :: 0 <= i < |r| && StepsWithin(p, r[i])
  {
    var all := Matches(q, d, []);
    assert all[..|all|] == all;
    KeepAllIs(all, |all|);
    MatchesArePositions(q, d, p);
    var k :| 0 <= k < |all| && all[k] == p;
    assert Steps(p) <= Steps(all[k]);
    CoveredByKept(all, |all|, p);
    CoveredIs(KeepAll([], all), p);
  }

  lemma {:induction false} VisitedOnce(q: Query, d: Data, prefix: Path)
    requires DistinctKeys(d)
    ensures NoRepeats(Matches(q, d, prefix))
    decreases d, |Children(d)| + 1
  {
    if q.Enters(d) {
      VisitedOnceFrom(q, d, prefix, 0);
    }
  }

  lemma {:induction false} VisitedOnceFrom(q: Query, d: Data, prefix: Path, n: nat)
    requires DistinctKeys(d) && q.Enters(d) && n <= |Children(d)|
    ensures NoRepeats(MatchesFrom(q, d, prefix, n))
    decreases d, |Children(d)| - n
  {
    if n < |Children(d)| {
      var (step, v) := Children(d)[n];
      var path := prefix + [step];
      var below, own, rest := Matches(q, v, path), if q.Hits(step, v) then [path] else [], MatchesFrom(q, d, prefix, n + 1);
      TakeChild(q, d, n);
      VisitedOnce(q, v, path);
      VisitedOnceFrom(q, d, prefix, n + 1);
      NotBelowItself(q, v, path);
      NoRepeatsInBoth(below, own);
      forall p | p in below + own
        ensures p !in rest
      {
        MatchesBelow(q, v, path, p);
        assert path <= p;
        NotAgain(q, d, prefix, n, p);
      }
      NoRepeatsInBoth(below + own, rest);
    }
  }

  lemma NotBelowItself(q: Query, v: Data, path: Path)
    requires DistinctKeys(v)
    ensures path !in Matches(q, v, path)
  {
    MatchesBelow(q, v, path, path);
  }

  /** A path through one child is not visited under a later one. */
  lemma NotAgain(q: Query, d: Data, prefix: Path, n: nat, p: Path)
    requires DistinctKeys(d) && q.Enters(d) && n < |Children(d)| && prefix + [Children(d)[n].0] <= p
    ensures p !in MatchesFrom(q, d, prefix, n + 1)
  {
    MatchesFromBelow(q, d, prefix, n + 1, p);
    assert p[|prefix|] == Children(d)[n].0;
    assert forall k :: n < k < |Children(d)| ==> Children(d)[k].0 != Children(d)[n].0;
  }

  /** A matching place is itself among the results exactly when each place visited before it
      lacks one of its steps. */
  lemma ReturnedIff(q: Query, d: Data, k: nat)
    requires DistinctKeys(d) && k < |Matches(q, d, [])|
    ensures var all := Matches(q, d, []);
            all[k] in KeepAll([], all) <==> forall j :: 0 <= j < k ==> !StepsWithin(all[k], all[j])
  {
    var all := Matches(q, d, []);
    assert all[..|all|] == all;
    VisitedOnce(q, d, []);
    KeepAllIs(all, |all|);
    KeptIff(all, k, |all|);
    CoveredIs(all[..k], all[k]);
    assert forall j :: 0 <= j < k ==> all[..k][j] == all[j];
  }

  lemma {:induction false} KeptIff(paths: seq<Path>, k: nat, n: nat)
    requires k < |paths| && n <= |paths| && NoRepeats(paths)
    ensures paths[k] in Uncovered(paths, n) <==> k < n && !Covered(paths[..k], paths[k])
  {
    if n > 0 {
      KeptIff(paths, k, n - 1);
    }
  }

  // ---------- the order of visits ----------

  /** In a list the smaller index comes first, in a mapping the earlier entry. */
  ghost predicate Earlier(d: Data, s: Step, t: Step) {
    match d
    case List(_) => s.Index? && t.Index? && s.at < t.at
    case Dict(entries) => exists i, j :: 0 <= i < j < |entries| && s == Key(entries[i].0) && t == Key(entries[j].0)
    case _ => false
  }

  /** A place comes before another one if it lies below it, or if at the first step in which
      they differ its own comes first. */
  ghost predicate Precedes(d: Data, p: Path, p': Path)
    decreases |p|
  {
    if p == [] then false
    else if p' == [] then true
    else if p[0] == p'[0] then Take(d, p[0]).Found? && Precedes(Take(d, p[0]).d, p[1..], p'[1..])
    else Earlier(d, p[0], p'[0])
  }

  /** Paths in the order of visits, apart from their first `k` steps. */
  ghost predicate Ordered(d: Data, k: nat, paths: seq<Path>) {
    && (forall i :: 0 <= i < |paths| ==> k < |paths[i]|)
    && forall i, j :: 0 <= i < j < |paths| ==> Precedes(d, paths[i][k..], paths[j][k..])
  }

  lemma OrderedInTwo(d: Data, k: nat, a: seq<Path>, z: seq<Path>)
    requires Ordered(d, k, a) && Ordered(d, k, z)
    requires forall p, p' :: p in a && p' in z ==> Precedes(d, p[k..], p'[k..])
    ensures Ordered(d, k, a + z)
  {
    forall i, j | 0 <= i < j < |a + z|
      ensures Precedes(d, (a + z)[i][k..], (a + z)[j][k..])
    {
      if i < |a| <= j {
        assert a[i] in a && z[j - |a|] in z;
      }
    }
  }

  lemma ChildrenInOrder(d: Data, m: nat, n: nat)
    requires m < n < |Children(d)|
    ensures Earlier(d, Children(d)[m].0, Children(d)[n].0)
  {
  }

  /** What is ordered below a child is ordered below its parent. */
  lemma OrderedBelow(q: Query, d: Data, n: nat, k: nat, paths: seq<Path>)
    requires DistinctKeys(d) && n < |Children(d)| && Ordered(Children(d)[n].1, k + 1, paths)
    requires forall p :: p in paths ==> |p| > k && p[k] == Children(d)[n].0
    ensures Ordered(d, k, paths)
  {
    var (step, v) := Children(d)[n];
    TakeChild(q, d, n);
    forall i, j | 0 <= i < j < |paths|
      ensures Precedes(d, paths[i][k..], paths[j][k..])
    {
      assert paths[i] in paths && paths[j] in paths;
      assert paths[i][k..][1..] == paths[i][k + 1..] && paths[j][k..][1..] == paths[j][k + 1..];
    }
  }

  lemma StartsHere(q: Query, v: Data, path: Path, p: Path)
    requires DistinctKeys(v) && p in Matches(q, v, path)
    ensures path < p
  {
    MatchesBelow(q, v, path, p);
  }

  /** The matches come in the order of visits: what is below a place before it, and otherwise
      by the order of lists and mappings. */
  lemma {:induction false} VisitedInOrder(q: Query, d: Data, prefix: Path)
    requires DistinctKeys(d)
    ensures Ordered(d, |prefix|, Matches(q, d, prefix))
    decreases d, |Children(d)| + 1
  {
    if q.Enters(d) {
      VisitedInOrderFrom(q, d, prefix, 0);
    }
  }

  lemma {:induction false} VisitedInOrderFrom(q: Query, d: Data, prefix: Path, n: nat)
    requires DistinctKeys(d) && q.Enters(d) && n <= |Children(d)|
    ensures Ordered(d, |prefix|, MatchesFrom(q, d, prefix, n))
    decreases d, |Children(d)| - n
  {
    if n < |Children(d)| {
      var (step, v) := Children(d)[n];
      var path := prefix + [step];
      var below, own, rest := Matches(q, v, path), if q.Hits(step, v) then [path] else [], MatchesFrom(q, d, prefix, n + 1);
      TakeChild(q, d, n);
      VisitedInOrder(q, v, path);
      VisitedInOrderFrom(q, d, prefix, n + 1);
      forall p | p in below
        ensures path < p
      {
        StartsHere(q, v, path, p);
      }
      OrderedBelow(q, d, n, |prefix|, below);
      OwnAfterBelow(d, n, prefix, below, own);
      forall p, p' | p in below + own && p' in rest
        ensures Precedes(d, p[|prefix|..], p'[|prefix|..])
      {
        RestComesLater(q, d, prefix, n, p, p');
      }
      OrderedInTwo(d, |prefix|, below + own, rest);
    }
  }

  lemma OwnAfterBelow(d: Data, n: nat, prefix: Path, below: seq<Path>, own: seq<Path>)
    requires DistinctKeys(d) && n < |Children(d)| && Take(d, Children(d)[n].0) == Found(Children(d)[n].1)
    requires var path := prefix + [Children(d)[n].0];
             (own == [] || own == [path]) && (forall p :: p in below ==> path < p) && Ordered(d, |prefix|, below)
    ensures Ordered(d, |prefix|, below + own)
  {
    var path := prefix + [Children(d)[n].0];
    forall p, p' | p in below && p' in own
      ensures Precedes(d, p[|prefix|..], p'[|prefix|..])
    {
      assert p'[|prefix|..] == [Children(d)[n].0];
      assert p[|prefix|..][1..] != [];
    }
    OrderedInTwo(d, |prefix|, below, own);
  }

  lemma RestComesLater(q: Query, d: Data, prefix: Path, n: nat, p: Path, p': Path)
    requires DistinctKeys(d) && q.Enters(d) && n < |Children(d)|
    requires prefix + [Children(d)[n].0] <= p && p' in MatchesFrom(q, d, prefix, n + 1) && |prefix| < |p'|
    ensures Precedes(d, p[|prefix|..], p'[|prefix|..])
  {
    MatchesFromBelow(q, d, prefix, n + 1, p');
    var m :| n + 1 <= m < |Children(d)| && Children(d)[m].0 == p'[|prefix|];
    ChildrenInOrder(d, n, m);
    TakeChild(q, d, n);
    TakeChild(q, d, m);
    KeysDiffer(d, n, m);
    assert p[|prefix|] == Children(d)[n].0;
  }

  lemma KeysDiffer(d: Data, m: nat, n: nat)
    requires DistinctKeys(d) && m < n < |Children(d)|
    ensures Children(d)[m].0 != Children(d)[n].0
  {
  }

  lemma OneDeep(q: Query, outer: string, inner: string)
    requires !q.keynames && forall v :: q.hitsValue(v) <==> v == Text("x")
    ensures Matches(q, Dict([(inner, Text("x"))]), [Key(outer)]) == [[Key(outer), Key(inner)]]
  {
    var d, path := Dict([(inner, Text("x"))]), [Key(outer), Key(inner)];
    assert Children(d) == [(Key(inner), Text("x"))];
    assert [Key(outer)] + [Key(inner)] == path;
    assert MatchesFrom(q, d, [Key(outer)], 1) == [];
    assert MatchesFrom(q, d, [Key(outer)], 0) == Matches(q, Text("x"), path) + [path] + [];
  }

  lemma Swapped(q: Query)
    requires !q.keynames && forall v :: q.hitsValue(v) <==> v == Text("x")
    ensures Matches(q, Dict([("a", Dict([("b", Text("x"))])), ("b", Dict([("a", Text("x"))]))]), []) ==
              [[Key("a"), Key("b")], [Key("b"), Key("a")]]
  {
    var inA, inB := Dict([("b", Text("x"))]), Dict([("a", Text("x"))]);
    var d := Dict([("a", inA), ("b", inB)]);
    assert Children(d) == [(Key("a"), inA), (Key("b"), inB)];
    OneDeep(q, "a", "b");
    OneDeep(q, "b", "a");
    assert [] + [Key("a")] == [Key("a")] && [] + [Key("b")] == [Key("b")];
    assert MatchesFrom(q, d, [], 2) == [];
    assert MatchesFrom(q, d, [], 1) == Matches(q, inB, [Key("b")]) + [] + [];
    assert MatchesFrom(q, d, [], 0) == Matches(q, inA, [Key("a")]) + [] + MatchesFrom(q, d, [], 1);
  }

  /** The filter compares steps as sets, so it can drop a place that no result leads to:
      of `a/b` and `b/a` only the first is returned. */
  lemma SwappedKeysAreDropped(q: Query)
    requires !q.keynames && forall v :: q.hitsValue(v) <==> v == Text("x")
    ensures var d := Dict([("a", Dict([("b", Text("x"))])), ("b", Dict([("a", Text("x"))]))]);
            && Position(q, d, [Key("b"), Key("a")])
            && KeepAll([], Matches(q, d, [])) == [[Key("a"), Key("b")]]
  {
    var d := Dict([("a", Dict([("b", Text("x"))])), ("b", Dict([("a", Text("x"))]))]);
    var ab, ba := [Key("a"), Key("b")], [Key("b"), Key("a")];
    Swapped(q);
    assert Key("a") == ab[0] && Key("b") == ab[1] && [ab][0] == ab && [ab, ba][1] == ba;
    assert Steps(ba) <= Steps(ab);
    assert [ab, ba][1..] == [ba] && [ba][1..] == [];
    assert Keep([], ab) == [ab] && Keep([ab], ba) == [ab];
    assert KeepAll([], [ab, ba]) == KeepAll([ab], [ba]) == KeepAll([ab], []);
    MatchesArePositions(q, d, ba);
  }
}
