/** The hash of the configuration a container mounts, added to its environment. */
module ConfigHash {
  import opened Wrappers
  import opened Text

  /** Strings in Python's order, by code point. */
  predicate Leq(a: string, b: string) {
    a == "" || (b != "" && (a[0] < b[0] || (a[0] == b[0] && Leq(a[1..], b[1..]))))
  }

  lemma {:induction false} LeqTotal(a: string, b: string)
    ensures Leq(a, b) || Leq(b, a)
    ensures Leq(a, b) && Leq(b, a) ==> a == b
  {
    if a != "" && b != "" {
      LeqTotal(a[1..], b[1..]);
      assert a == [a[0]] + a[1..] && b == [b[0]] + b[1..];
    }
  }

  lemma {:induction false} LeqTrans(a: string, b: string, c: string)
    requires Leq(a, b) && Leq(b, c)
    ensures Leq(a, c)
  {
    if a != "" && a[0] == b[0] == c[0] {
      LeqTrans(a[1..], b[1..], c[1..]);
    }
  }

  predicate Sorted(s: seq<string>) {
    |s| > 1 ==> Leq(s[0], s[1]) && Sorted(s[1..])
  }

  function Insert(x: string, s: seq<string>): seq<string> {
    if s == [] || Leq(x, s[0]) then [x] + s else [s[0]] + Insert(x, s[1..])
  }

  function Sort(s: seq<string>): seq<string> {
    if s == [] then [] else Insert(s[0], Sort(s[1..]))
  }

  lemma {:induction false} InsertSorts(x: string, s: seq<string>)
    requires Sorted(s)
    ensures Sorted(Insert(x, s)) && multiset(Insert(x, s)) == multiset(s) + multiset{x}
    ensures Insert(x, s)[0] == x || (s != [] && Insert(x, s)[0] == s[0])
  {
    if s != [] && !Leq(x, s[0]) {
      LeqTotal(x, s[0]);
      InsertSorts(x, s[1..]);
      assert s == [s[0]] + s[1..];
      assert Insert(x, s)[1..] == Insert(x, s[1..]);
    } else {
      assert ([x] + s)[1..] == s;
    }
  }

  /** Sorting yields a sorted permutation. */
  lemma {:induction false} SortSorts(s: seq<string>)
    ensures Sorted(Sort(s)) && multiset(Sort(s)) == multiset(s)
  {
    if s != [] {
      SortSorts(s[1..]);
      InsertSorts(s[0], Sort(s[1..]));
      assert s == [s[0]] + s[1..];
    }
  }

  /** The order of insertions does not matter. */
  lemma {:induction false} InsertsCommute(x: string, y: string, s: seq<string>)
    ensures Insert(x, Insert(y, s)) == Insert(y, Insert(x, s))
  {
    LeqTotal(x, y);
    if s == [] {
      assert [x, y][1..] == [y] && [y, x][1..] == [x];
      assert [x][1..] == [] && [y][1..] == [];
    } else {
      LeqTotal(x, s[0]);
      LeqTotal(y, s[0]);
      InsertBefore(x, y, s);
      InsertBefore(y, x, s);
      InsertsCommute(x, y, s[1..]);
    }
  }

  /** Inserting `x` into what `y` was inserted into. */
  lemma InsertBefore(x: string, y: string, s: seq<string>)
    requires s != []
    ensures Leq(y, s[0]) ==> Insert(x, Insert(y, s)) == if Leq(x, y) then [x, y] + s else [y] + Insert(x, s)
    ensures !Leq(y, s[0]) ==>
              Insert(x, Insert(y, s)) == if Leq(x, s[0]) then [x, s[0]] + Insert(y, s[1..]) else [s[0]] + Insert(x, Insert(y, s[1..]))
    ensures Leq(x, y) && Leq(y, s[0]) ==> Leq(x, s[0])
  {
    assert ([y] + s)[1..] == s;
    assert ([s[0]] + Insert(y, s[1..]))[1..] == Insert(y, s[1..]);
    if Leq(x, y) && Leq(y, s[0]) {
      LeqTrans(x, y, s[0]);
    }
  }

  lemma {:induction false} SortMoves(x: string, p: seq<string>, q: seq<string>)
    ensures Sort(p + [x] + q) == Insert(x, Sort(p + q))
  {
    if p == [] {
      assert p + [x] + q == [x] + q && ([x] + q)[1..] == q && p + q == q;
    } else {
      assert (p + [x] + q)[1..] == p[1..] + [x] + q && (p + q)[1..] == p[1..] + q;
      SortMoves(x, p[1..], q);
      InsertsCommute(p[0], x, Sort(p[1..] + q));
    }
  }

  // ---------- the mounted config volumes ----------

  function BeforeColon(s: string): string {
    if s == "" || s[0] == ':' then "" else [s[0]] + BeforeColon(s[1..])
  }

  /** Without slashes at the end, unless there is nothing else. */
  function StripSlashes(s: string): string {
    if s != "" && s[|s| - 1] == '/' then StripSlashes(s[..|s| - 1]) else s
  }

  function UpToLastSlash(s: string): string {
    if s == "" || s[|s| - 1] == '/' then s else UpToLastSlash(s[..|s| - 1])
  }

  function Dirname(path: string): string {
    var head := UpToLastSlash(path);
    var stripped := StripSlashes(head);
    if stripped == "" then head else stripped
  }

  function Mounted(prefix: string, volumes: seq<string>): seq<string> {
    if volumes == [] then []
    else (if prefix <= volumes[0] then [Dirname(BeforeColon(volumes[0]))] else []) + Mounted(prefix, volumes[1..])
  }

  function MatchConfigVolumes(prefix: string, volumes: seq<string>): seq<string> {
    Sort(Mounted(prefix, volumes))
  }

  /** The hashes that exist and are not empty. */
  function Hashes(store: map<string, string>, paths: seq<string>): seq<string> {
    if paths == [] then []
    else (if paths[0] in store && store[paths[0]] != "" then [store[paths[0]]] else []) + Hashes(store, paths[1..])
  }

  function HashOf(prefix: string, store: map<string, string>, volumes: seq<string>): string {
    Join("-", Hashes(store, MatchConfigVolumes(prefix, volumes)))
  }

  lemma {:induction false} MountedInTwo(prefix: string, a: seq<string>, z: seq<string>)
    ensures Mounted(prefix, a + z) == Mounted(prefix, a) + Mounted(prefix, z)
  {
    if a == [] {
      assert a + z == z;
    } else {
      assert (a + z)[1..] == a[1..] + z;
      MountedInTwo(prefix, a[1..], z);
    }
  }

  /** Taking one volume out, wherever it stands. */
  lemma MatchMoves(prefix: string, x: string, p: seq<string>, q: seq<string>)
    ensures var m := Mounted(prefix, [x]);
            MatchConfigVolumes(prefix, p + [x] + q) ==
              if m == [] then MatchConfigVolumes(prefix, p + q) else Insert(m[0], MatchConfigVolumes(prefix, p + q))
  {
    var m := Mounted(prefix, [x]);
    assert [x][1..] == [];
    MountedInTwo(prefix, p + [x], q);
    MountedInTwo(prefix, p, [x]);
    MountedInTwo(prefix, p, q);
    if m == [] {
      assert Mounted(prefix, p) + m == Mounted(prefix, p);
    } else {
      assert m == [m[0]];
      SortMoves(m[0], Mounted(prefix, p), Mounted(prefix, q));
    }
  }

  lemma TakeOut(x: string, b: seq<string>) returns (p: seq<string>, q: seq<string>)
    requires x in b
    ensures b == p + [x] + q && multiset(b) == multiset(p + q) + multiset{x}
  {
    var i :| 0 <= i < |b| && b[i] == x;
    p, q := b[..i], b[i + 1..];
    assert b == p + [x] + q;
  }

  lemma SameHead(x: string, a: seq<string>, p: seq<string>, q: seq<string>)
    requires a != [] && a[0] == x && multiset(a) == multiset(p + q) + multiset{x}
    ensures multiset(a[1..]) == multiset(p + q)
  {
    assert a == [x] + a[1..];
    assert multiset(a) - multiset{x} == multiset(a[1..]);
    assert multiset(p + q) + multiset{x} - multiset{x} == multiset(p + q);
  }

  lemma MatchHead(prefix: string, a: seq<string>)
    requires a != []
    ensures var m := Mounted(prefix, [a[0]]);
            MatchConfigVolumes(prefix, a) ==
              if m == [] then MatchConfigVolumes(prefix, a[1..]) else Insert(m[0], MatchConfigVolumes(prefix, a[1..]))
  {
    MatchMoves(prefix, a[0], [], a[1..]);
    assert [] + a[1..] == a[1..] && [] + [a[0]] + a[1..] == a;
  }

  lemma {:induction false} MatchPermutes(prefix: string, a: seq<string>, b: seq<string>)
    requires multiset(a) == multiset(b)
    ensures MatchConfigVolumes(prefix, a) == MatchConfigVolumes(prefix, b)
  {
    if a == [] {
      assert |multiset(b)| == |b|;
    } else {
      assert a[0] in multiset(a) && a[0] in b;
      var p, q := TakeOut(a[0], b);
      SameHead(a[0], a, p, q);
      MatchPermutes(prefix, a[1..], p + q);
      MatchHead(prefix, a);
      MatchMoves(prefix, a[0], p, q);
    }
  }

  /** The order of a container's volumes does not matter to its hash. */
  lemma HashIsStable(prefix: string, store: map<string, string>, a: seq<string>, b: seq<string>)
    requires multiset(a) == multiset(b)
    ensures HashOf(prefix, store, a) == HashOf(prefix, store, b)
  {
    MatchPermutes(prefix, a, b);
  }

  // ---------- the startup config ----------

  /** A container of the startup config; `rest` is everything the update does not look at. */
  datatype Container<T> = Container(environment: Option<seq<string>>, volumes: Option<seq<string>>, rest: T)

  function OrNone(s: Option<seq<string>>): seq<string> {
    if s.Some? then s.value else []
  }

  /** A container with its hash: a non-empty one goes to the end of the environment, and an
      empty one changes nothing. */
  function Updated<T>(prefix: string, store: map<string, string>, c: Container<T>): Container<T> {
    var hash := HashOf(prefix, store, OrNone(c.volumes));
    if hash == "" then c
    else c.(environment := Some(OrNone(c.environment) + ["TRIPLEO_CONFIG_HASH=" + hash]))
  }

  /** The update of one startup file, whatever order its containers come in. */
  method UpdateStartupConfig<T>(prefix: string, store: map<string, string>, data: map<string, Container<T>>)
    returns (updated: map<string, Container<T>>)
    ensures updated == map k | k in data :: Updated(prefix, store, data[k])
  {
    updated := data;
    var left := data.Keys;
    while left != {}
      invariant left <= data.Keys && updated.Keys == data.Keys
      invariant forall k :: k in data ==> updated[k] == if k in left then data[k] else Updated(prefix, store, data[k])
    {
      var k :| k in left;
      left := left - {k};
      var hash := Join("-", Hashes(store, MatchConfigVolumes(prefix, OrNone(updated[k].volumes))));
      if hash != "" {
        var env := OrNone(updated[k].environment) + ["TRIPLEO_CONFIG_HASH=" + hash];
        updated := updated[k := updated[k].(environment := Some(env))];
      }
    }
  }

  // ---------- what is hashed ----------

  /** One string comes before another: it is a prefix of it, or has the smaller character
      where they first differ. */
  ghost predicate Before(a: string, b: string) {
    a <= b || exists i :: 0 <= i < |a| && i < |b| && a[..i] == b[..i] && a[i] < b[i]
  }

  lemma {:induction false} LeqIsBefore(a: string, b: string)
    requires Leq(a, b)
    ensures Before(a, b)
  {
    if a != "" && a[0] == b[0] {
      LeqIsBefore(a[1..], b[1..]);
      if a[1..] <= b[1..] {
        assert a == [a[0]] + a[1..] && b == [b[0]] + b[1..];
      } else {
        var i :| 0 <= i < |a[1..]| && i < |b[1..]| && a[1..][..i] == b[1..][..i] && a[1..][i] < b[1..][i];
        assert a[..i + 1] == [a[0]] + a[1..][..i] && b[..i + 1] == [b[0]] + b[1..][..i];
        assert a[i + 1] < b[i + 1];
      }
    } else if a != "" {
      assert a[..0] == b[..0];
    }
  }

  lemma {:induction false} SortedAt(s: seq<string>, i: nat, j: nat)
    requires Sorted(s) && i < j < |s|
    ensures Leq(s[i], s[j])
  {
    if i > 0 {
      SortedAt(s[1..], i - 1, j - 1);
    } else if j > 1 {
      SortedAt(s[1..], 0, j - 1);
      LeqTrans(s[0], s[1], s[j]);
    }
  }

  /** The directory of a path: everything before the last slash, without slashes at its end
      unless it has nothing else. */
  ghost predicate IsDirname(path: string, dir: string) {
    exists head, base ::
      && path == head + base && '/' !in base && (head == "" || head[|head| - 1] == '/')
      && if forall i :: 0 <= i < |head| ==> head[i] == '/' then dir == head
         else IsStripped(head, dir)
  }

  ghost predicate IsStripped(head: string, dir: string) {
    && dir != "" && dir[|dir| - 1] != '/' && dir <= head
    && forall i :: |dir| <= i < |head| ==> head[i] == '/'
  }

  lemma {:induction false} HeadIs(path: string)
    ensures var head := UpToLastSlash(path);
            head <= path && '/' !in path[|head|..] && (head == "" || head[|head| - 1] == '/')
  {
    if path != "" && path[|path| - 1] != '/' {
      var shorter := path[..|path| - 1];
      HeadIs(shorter);
      var head := UpToLastSlash(path);
      assert path[|head|..] == shorter[|head|..] + [path[|path| - 1]];
    }
  }

  lemma {:induction false} StrippedIs(s: string)
    ensures var r := StripSlashes(s);
            && r <= s && (r == "" || r[|r| - 1] != '/')
            && (forall i :: |r| <= i < |s| ==> s[i] == '/')
  {
    if s != "" && s[|s| - 1] == '/' {
      StrippedIs(s[..|s| - 1]);
    }
  }

  lemma DirnameIs(path: string)
    ensures IsDirname(path, Dirname(path))
  {
    var head := UpToLastSlash(path);
    HeadIs(path);
    StrippedIs(head);
    assert path == head + path[|head|..];
    var stripped := StripSlashes(head);
    if stripped != "" {
      assert head[|stripped| - 1] == stripped[|stripped| - 1] != '/';
      assert IsStripped(head, stripped);
    }
  }

  /** The directory that a volume mounts: that of what comes before its first colon. */
  ghost predicate IsSourceDir(volume: string, dir: string) {
    exists source, rest ::
      volume == source + rest && ':' !in source && (rest == "" || rest[0] == ':') && IsDirname(source, dir)
  }

  lemma {:induction false} BeforeColonIs(s: string)
    ensures var r := BeforeColon(s); r <= s && ':' !in r && (|r| == |s| || s[|r|] == ':')
  {
    if s != "" && s[0] != ':' {
      BeforeColonIs(s[1..]);
      assert s == [s[0]] + s[1..];
    }
  }

  /** The directories mounted by those volumes that start with a prefix, one for each. */
  ghost predicate AreMounted(prefix: string, volumes: seq<string>, dirs: seq<string>) {
    if volumes == [] then dirs == []
    else if prefix <= volumes[0] then
      dirs != [] && IsSourceDir(volumes[0], dirs[0]) && AreMounted(prefix, volumes[1..], dirs[1..])
    else AreMounted(prefix, volumes[1..], dirs)
  }

  lemma {:induction false} MountedIs(prefix: string, volumes: seq<string>)
    ensures AreMounted(prefix, volumes, Mounted(prefix, volumes))
  {
    if volumes != [] {
      MountedIs(prefix, volumes[1..]);
      if prefix <= volumes[0] {
        var source := BeforeColon(volumes[0]);
        BeforeColonIs(volumes[0]);
        DirnameIs(source);
        assert volumes[0] == source + volumes[0][|source|..];
        assert Mounted(prefix, volumes)[1..] == Mounted(prefix, volumes[1..]);
      } else {
        assert Mounted(prefix, volumes) == Mounted(prefix, volumes[1..]);
      }
    }
  }

  /** The hashes of those paths that have one that is not empty, in order. */
  ghost predicate AreHashes(store: map<string, string>, paths: seq<string>, hashes: seq<string>) {
    if paths == [] then hashes == []
    else if At(store, paths[0]).Some? && At(store, paths[0]) != Some("") then
      hashes != [] && At(store, paths[0]) == Some(hashes[0]) && AreHashes(store, paths[1..], hashes[1..])
    else AreHashes(store, paths[1..], hashes)
  }

  lemma {:induction false} HashesAre(store: map<string, string>, paths: seq<string>)
    ensures AreHashes(store, paths, Hashes(store, paths))
    ensures forall i :: 0 <= i < |Hashes(store, paths)| ==> Hashes(store, paths)[i] != ""
  {
    if paths != [] {
      HashesAre(store, paths[1..]);
      if paths[0] in store && store[paths[0]] != "" {
        assert Hashes(store, paths)[1..] == Hashes(store, paths[1..]);
      } else {
        assert Hashes(store, paths) == Hashes(store, paths[1..]);
      }
    }
  }

  lemma JoinIsEmpty(hashes: seq<string>)
    requires forall i :: 0 <= i < |hashes| ==> hashes[i] != ""
    ensures Join("-", hashes) == "" <==> hashes == []
  {
  }

  /** These are the hashes of a container: of the directories that its volumes with the prefix
      mount, in the order of the paths. */
  ghost predicate AreHashesOf(prefix: string, store: map<string, string>, volumes: seq<string>, hashes: seq<string>) {
    exists dirs, paths ::
      && AreMounted(prefix, volumes, dirs)
      && multiset(paths) == multiset(dirs)
      && (forall i, j :: 0 <= i < j < |paths| ==> Before(paths[i], paths[j]))
      && AreHashes(store, paths, hashes)
  }

  lemma HashesOf(prefix: string, store: map<string, string>, volumes: seq<string>) returns (hashes: seq<string>)
    ensures AreHashesOf(prefix, store, volumes, hashes)
    ensures HashOf(prefix, store, volumes) == Join("-", hashes)
    ensures Join("-", hashes) == "" <==> hashes == []
  {
    var dirs := Mounted(prefix, volumes);
    var paths := Sort(dirs);
    hashes := Hashes(store, paths);
    MountedIs(prefix, volumes);
    SortSorts(dirs);
    HashesAre(store, paths);
    JoinIsEmpty(hashes);
    forall i, j | 0 <= i < j < |paths|
      ensures Before(paths[i], paths[j])
    {
      SortedAt(paths, i, j);
      LeqIsBefore(paths[i], paths[j]);
    }
  }

  /** Only environments change, and those only by one entry at their end with the hashes of
      the mounted directories joined by dashes, if there are any; permuting volume lists
      first changes no environment. */
  lemma UpdateFrame<T>(prefix: string, store: map<string, string>, c: Container<T>, volumes: seq<string>)
    returns (hashes: seq<string>)
    requires multiset(volumes) == multiset(OrNone(c.volumes))
    ensures AreHashesOf(prefix, store, OrNone(c.volumes), hashes)
    ensures var u := Updated(prefix, store, c);
            && u.volumes == c.volumes && u.rest == c.rest
            && (u.environment == if hashes == [] then c.environment
                                 else Some(OrNone(c.environment) + ["TRIPLEO_CONFIG_HASH=" + Join("-", hashes)]))
            && Updated(prefix, store, c.(volumes := Some(volumes))).environment == u.environment
  {
    HashIsStable(prefix, store, OrNone(c.volumes), volumes);
    hashes := HashesOf(prefix, store, OrNone(c.volumes));
  }
}
