/** The ownership walk over the nova state directory, on a file system whose chown calls may
    fail for some paths and whose caller may be killed between any two chown calls. */
module Statedir {
  import opened Sequences
  import opened Wrappers

  type Path = seq<string>

  datatype Owner = Owner(uid: nat, gid: nat)
  datatype Node = Node(isDir: bool, owner: Owner)

  /** Every entry but the root of the file system is listed in a directory. */
  ghost predicate WellFormed(nodes: map<Path, Node>) {
    forall p :: p in nodes && p != [] ==> p[..|p| - 1] in nodes && nodes[p[..|p| - 1]].isDir
  }

  function ChildPath(top: Path, name: string): Path {
    top + [name]
  }

  function Below(nodes: map<Path, Node>, top: Path): set<Path> {
    set p | p in nodes && top < p
  }

  /** What the manager knows before it starts: where the marker may be, the ids to set, and
      the ids to replace, which are the marker's owner or, without a marker, the same ids. */
  datatype Job = Job(statedir: Path, marker: Path, target: Owner, previous: Owner) {
    predicate IdChange() {
      target != previous
    }

    /** The owner the walk gives to a path: directories get the target, files have each id
        replaced if it was the previous one, and only if the ids differ at all. */
    function Specified(n: Node): Owner {
      if n.isDir then target
      else if IdChange() then
        Owner(if n.owner.uid == previous.uid then target.uid else n.owner.uid,
              if n.owner.gid == previous.gid then target.gid else n.owner.gid)
      else n.owner
    }
  }

  function MakeJob(nodes: map<Path, Node>, statedir: Path, markerName: string, nova: Owner): Job {
    var marker := statedir + [markerName];
    Job(statedir, marker, nova, if marker in nodes then nodes[marker].owner else nova)
  }

  /** The paths a run visits: the state directory and what is below it, except the marker. */
  function Visited(nodes: map<Path, Node>, job: Job): set<Path> {
    set p | p in nodes && job.statedir <= p && !(job.marker <= p)
  }

  /** The file system after the owners of the paths in `done` have been set, as far as chown
      works on them. */
  function Applied(nodes: map<Path, Node>, job: Job, failing: set<Path>, done: set<Path>): map<Path, Node> {
    map p | p in nodes :: if p in done && p !in failing then nodes[p].(owner := job.Specified(nodes[p])) else nodes[p]
  }

  /** Visited paths whose owner is not the specified one. */
  function Wrong(nodes: map<Path, Node>, job: Job): set<Path> {
    set p | p in Visited(nodes, job) && nodes[p].owner != job.Specified(nodes[p])
  }

  /** The whole effect of a run that is not killed. */
  function Effect(nodes: map<Path, Node>, job: Job, failing: set<Path>): map<Path, Node> {
    Applied(nodes, job, failing, Visited(nodes, job)) - {job.marker}
  }

  /** The operating system.  `budget` chown calls succeed or fail in their own right before
      the process is killed; `calls` lists the paths chown was called on. */
  class FileSystem {
    var nodes: map<Path, Node>
    const failing: set<Path>
    var budget: nat
    var calls: seq<Path>
    var alive: bool

    constructor (nodes: map<Path, Node>, failing: set<Path>, budget: nat)
      ensures this.nodes == nodes && this.failing == failing && this.budget == budget
      ensures calls == [] && alive
    {
      this.nodes, this.failing, this.budget := nodes, failing, budget;
      calls, alive := [], true;
    }

    /** Directory entries come in any order. */
    method ListDir(top: Path) returns (names: seq<string>)
      ensures NoRepeats(names)
      ensures forall name :: name in names <==> ChildPath(top, name) in nodes
    {
      var left := set p | p in nodes && |p| == |top| + 1 && top <= p :: p[|top|];
      ghost var all := left;
      names := [];
      while left != {}
        invariant NoRepeats(names)
        invariant forall name :: name in names <==> name in all && name !in left
        invariant left <= all
      {
        var name :| name in left;
        names := names + [name];
        left := left - {name};
      }
      forall name
        ensures name in all <==> ChildPath(top, name) in nodes
      {
        var p := ChildPath(top, name);
        assert p[|top|] == name && top <= p;
        if name in all {
          var q :| q in nodes && |q| == |top| + 1 && top <= q && q[|top|] == name;
          assert q == p;
        }
      }
    }

    /** Set a path's ids; `None` keeps one, like -1 in the system call. */
    method Chown(path: Path, uid: Option<nat>, gid: Option<nat>) returns (ok: bool)
      requires alive && path in nodes
      modifies this
      ensures if old(budget) == 0
              then !alive && !ok && budget == 0 && nodes == old(nodes) && calls == old(calls)
              else alive && ok == (path !in failing) && budget == old(budget) - 1 &&
                   calls == old(calls) + [path] &&
                   nodes == (if path in failing then old(nodes) else
                             var o := old(nodes)[path].owner;
                             old(nodes)[path := old(nodes)[path].(owner := Owner(
                               if uid.Some? then uid.value else o.uid,
                               if gid.Some? then gid.value else o.gid))])
    {
      ok := false;
      if budget == 0 {
        alive := false;
        return;
      }
      budget := budget - 1;
      calls := calls + [path];
      if path !in failing {
        var n := nodes[path];
        nodes := nodes[path := n.(owner := Owner(if uid.Some? then uid.value else n.owner.uid,
                                                 if gid.Some? then gid.value else n.owner.gid))];
        ok := true;
      }
    }

    method Unlink(path: Path)
      requires alive
      modifies this`nodes
      ensures nodes == old(nodes) - {path}
    {
      nodes := nodes - {path};
    }
  }

  /** The helper that remembers a path's owner. */
  class PathManager {
    const fs: FileSystem
    const path: Path
    var isDir: bool
    var owner: Owner

    predicate Fresh()
      reads this, fs
    {
      path in fs.nodes && fs.nodes[path] == Node(isDir, owner)
    }

    constructor (fs: FileSystem, path: Path)
      requires path in fs.nodes
      ensures Fresh() && this.fs == fs && this.path == path
    {
      this.fs, this.path := fs, path;
      isDir, owner := fs.nodes[path].isDir, fs.nodes[path].owner;
    }

    method Update()
      requires path in fs.nodes
      modifies this
      ensures Fresh()
    {
      isDir, owner := fs.nodes[path].isDir, fs.nodes[path].owner;
    }

    /** Give the path this owner if it has another; a chown that fails is ignored. */
    method Chown(want: Owner)
      requires Fresh() && fs.alive
      modifies this, fs
      ensures fs.alive ==> Fresh()
      ensures fs.alive ==>
                fs.nodes == (if path in fs.failing then old(fs.nodes)
                             else old(fs.nodes)[path := old(fs.nodes)[path].(owner := want)]) &&
                fs.calls == old(fs.calls) + (if old(owner) == want then [] else [path])
      ensures !fs.alive ==> fs.nodes == old(fs.nodes) && fs.calls == old(fs.calls)
    {
      var uid := if owner.uid != want.uid then Some(want.uid) else None;
      var gid := if owner.gid != want.gid then Some(want.gid) else None;
      if (uid, gid) != (None, None) {
        var ok := fs.Chown(path, uid, gid);
        if ok {
          Update();
        }
      } else {
        assert fs.nodes == fs.nodes[path := fs.nodes[path].(owner := want)];
      }
    }
  }

  // ---------- setting owners ----------

  lemma SpecifiedTwice(job: Job, n: Node)
    ensures job.Specified(n.(owner := job.Specified(n))) == job.Specified(n)
  {
  }

  /** Two batches of owners are one. */
  lemma AppliedTwice(nodes: map<Path, Node>, job: Job, failing: set<Path>, d: set<Path>, e: set<Path>)
    ensures Applied(Applied(nodes, job, failing, d), job, failing, e) == Applied(nodes, job, failing, d + e)
  {
    forall p | p in nodes {
      SpecifiedTwice(job, nodes[p]);
    }
  }

  lemma AppliedKeepsShape(nodes: map<Path, Node>, job: Job, failing: set<Path>, d: set<Path>)
    ensures var after := Applied(nodes, job, failing, d);
            && after.Keys == nodes.Keys
            && (forall p :: p in nodes ==> after[p].isDir == nodes[p].isDir)
            && (WellFormed(nodes) ==> WellFormed(after))
            && (forall p :: p in nodes && p !in d ==> after[p] == nodes[p])
  {
  }

  /** Everything above an entry is a directory. */
  lemma {:induction false} AncestorIsDir(nodes: map<Path, Node>, top: Path, p: Path)
    requires WellFormed(nodes) && p in nodes && top < p
    ensures top in nodes && nodes[top].isDir
  {
    var parent := p[..|p| - 1];
    if top != parent {
      AncestorIsDir(nodes, top, parent);
    }
  }

  /** Which chown calls a step made: those on wrong paths among `done`, once each. */
  ghost predicate CallsFor(before: seq<Path>, after: seq<Path>, nodes: map<Path, Node>, job: Job, done: set<Path>) {
    && before <= after
    && NoRepeats(after[|before|..])
    && forall p :: p in after[|before|..] <==> p in done && p in nodes && nodes[p].owner != job.Specified(nodes[p])
  }

  /** A step set the owners of `done`, with the chown calls this takes. */
  ghost predicate Did(nodes: map<Path, Node>, calls: seq<Path>, nodes': map<Path, Node>, calls': seq<Path>,
                      job: Job, failing: set<Path>, done: set<Path>) {
    nodes' == Applied(nodes, job, failing, done) && CallsFor(calls, calls', nodes, job, done)
  }

  lemma DidThen(n0: map<Path, Node>, c0: seq<Path>, n1: map<Path, Node>, c1: seq<Path>,
                n2: map<Path, Node>, c2: seq<Path>, job: Job, failing: set<Path>, d: set<Path>, e: set<Path>)
    requires Did(n0, c0, n1, c1, job, failing, d) && Did(n1, c1, n2, c2, job, failing, e) && d !! e
    ensures Did(n0, c0, n2, c2, job, failing, d + e)
  {
    AppliedTwice(n0, job, failing, d, e);
    AppliedKeepsShape(n0, job, failing, d);
    assert c2[|c0|..] == c1[|c0|..] + c2[|c1|..];
    assert forall p :: p in c1[|c0|..] ==> p in d;
    NoRepeatsInBoth(c1[|c0|..], c2[|c1|..]);
  }

  lemma DidOne(nodes: map<Path, Node>, calls: seq<Path>, nodes': map<Path, Node>, calls': seq<Path>,
               job: Job, failing: set<Path>, p: Path)
    requires p in nodes
    requires nodes' == if p in failing then nodes else nodes[p := nodes[p].(owner := job.Specified(nodes[p]))]
    requires calls' == calls + if nodes[p].owner == job.Specified(nodes[p]) then [] else [p]
    ensures Did(nodes, calls, nodes', calls', job, failing, {p})
  {
    assert calls'[|calls|..] == if nodes[p].owner == job.Specified(nodes[p]) then [] else [p];
    assert nodes' == Applied(nodes, job, failing, {p});
  }

  /** The first half of visiting a directory: its own owner. */
  lemma DirectoryOwned(nodes: map<Path, Node>, calls: seq<Path>, own: map<Path, Node>, ownCalls: seq<Path>,
                       job: Job, failing: set<Path>, path: Path)
    requires path in nodes && nodes[path].isDir && WellFormed(nodes)
    requires own == if path in failing then nodes else nodes[path := nodes[path].(owner := job.target)]
    requires ownCalls == calls + if nodes[path].owner == job.target then [] else [path]
    ensures Did(nodes, calls, own, ownCalls, job, failing, {path})
    ensures WellFormed(own) && path in own && own[path].isDir
    ensures Region(own, job, path) == Region(nodes, job, path) && Below(own, path) == Below(nodes, path)
  {
    DidOne(nodes, calls, own, ownCalls, job, failing, path);
    AppliedKeepsShape(nodes, job, failing, {path});
    SameRegion(nodes, own, job, path);
  }

  /** The second half: what is below it. */
  lemma DirectoryWalked(nodes: map<Path, Node>, calls: seq<Path>, own: map<Path, Node>, ownCalls: seq<Path>,
                        after: map<Path, Node>, afterCalls: seq<Path>, job: Job, failing: set<Path>, path: Path, below: set<Path>)
    requires Did(nodes, calls, own, ownCalls, job, failing, {path})
    requires Did(own, ownCalls, after, afterCalls, job, failing, below)
    requires Region(own, job, path) == Region(nodes, job, path) && below <= Region(own, job, path)
    ensures Did(nodes, calls, after, afterCalls, job, failing, {path} + below)
    ensures {path} + below <= {path} + Region(nodes, job, path)
  {
    assert path !in below;
    DidThen(nodes, calls, own, ownCalls, after, afterCalls, job, failing, {path}, below);
  }

  lemma DidNothing(nodes: map<Path, Node>, calls: seq<Path>, job: Job, failing: set<Path>)
    ensures Did(nodes, calls, nodes, calls, job, failing, {})
  {
    assert calls[|calls|..] == [];
    assert nodes == Applied(nodes, job, failing, {});
  }

  /** What the walk of `top` covers. */
  function Region(nodes: map<Path, Node>, job: Job, top: Path): set<Path> {
    set p | p in nodes && top < p && !(job.marker <= p)
  }

  /** The part of it that lies under the entries with these names. */
  function Part(nodes: map<Path, Node>, job: Job, top: Path, names: seq<string>): set<Path> {
    set p | p in Region(nodes, job, top) && p[|top|] in names
  }

  lemma ChildPrefix(top: Path, name: string, p: Path)
    ensures ChildPath(top, name) <= p <==> top < p && p[|top|] == name
  {
    var child := ChildPath(top, name);
    if top < p && p[|top|] == name {
      assert p[..|child|] == child;
    }
  }

  /** What an entry is responsible for: itself and what is below it, unless it is the marker. */
  function Share(nodes: map<Path, Node>, job: Job, child: Path): set<Path> {
    if child == job.marker then {} else {child} + Region(nodes, job, child)
  }

  lemma ShareHolds(nodes: map<Path, Node>, job: Job, top: Path, name: string, p: Path)
    requires ChildPath(top, name) in nodes && !(job.marker <= top) && p in nodes
    ensures p in Share(nodes, job, ChildPath(top, name)) <==> p in Region(nodes, job, top) && p[|top|] == name
  {
    var child := ChildPath(top, name);
    ChildPrefix(top, name, p);
    ChildPrefix(top, name, child);
    if child != job.marker {
      assert child[..|top|] == top;
      assert p in Region(nodes, job, top) && p[|top|] == name <==> child <= p && !(job.marker <= p);
      assert p in Region(nodes, job, child) <==> child < p && !(job.marker <= p);
      assert p in Share(nodes, job, child) <==> p == child || p in Region(nodes, job, child);
    }
  }

  lemma ShareIs(nodes: map<Path, Node>, job: Job, top: Path, name: string)
    requires ChildPath(top, name) in nodes && !(job.marker <= top)
    ensures Share(nodes, job, ChildPath(top, name)) == set p | p in Region(nodes, job, top) && p[|top|] == name
  {
    forall p | p in nodes {
      ShareHolds(nodes, job, top, name, p);
    }
  }

  lemma PartGrows(nodes: map<Path, Node>, job: Job, top: Path, names: seq<string>, i: nat)
    requires i < |names| && NoRepeats(names) && !(job.marker <= top)
    requires ChildPath(top, names[i]) in nodes
    ensures var share := Share(nodes, job, ChildPath(top, names[i]));
            && Part(nodes, job, top, names[..i + 1]) == Part(nodes, job, top, names[..i]) + share
            && Part(nodes, job, top, names[..i]) !! share
            && share <= Region(nodes, job, top)
  {
    ShareIs(nodes, job, top, names[i]);
    assert names[..i + 1] == names[..i] + [names[i]];
    assert names[i] !in names[..i];
  }

  lemma FileIsLeaf(nodes: map<Path, Node>, job: Job, p: Path)
    requires WellFormed(nodes) && p in nodes && !nodes[p].isDir
    ensures Region(nodes, job, p) == {}
  {
    forall q | q in nodes && p < q
      ensures false
    {
      AncestorIsDir(nodes, p, q);
    }
  }

  lemma PartOfAll(nodes: map<Path, Node>, job: Job, top: Path, names: seq<string>)
    requires WellFormed(nodes)
    requires forall name :: name in names <==> ChildPath(top, name) in nodes
    ensures Part(nodes, job, top, names) == Region(nodes, job, top)
  {
    forall p | p in Region(nodes, job, top)
      ensures p[|top|] in names
    {
      var child := ChildPath(top, p[|top|]);
      ChildPrefix(top, p[|top|], p);
      if child != p {
        AncestorIsDir(nodes, child, p);
      }
    }
  }

  lemma SameRegion(nodes: map<Path, Node>, nodes': map<Path, Node>, job: Job, top: Path)
    requires nodes.Keys == nodes'.Keys
    ensures Region(nodes, job, top) == Region(nodes', job, top)
    ensures Below(nodes, top) == Below(nodes', top) && Share(nodes, job, top) == Share(nodes', job, top)
  {
    assert forall p :: p in nodes <==> p in nodes.Keys;
    assert forall p :: p in nodes' <==> p in nodes'.Keys;
  }

  lemma VisitedIs(nodes: map<Path, Node>, job: Job)
    requires job.statedir in nodes && job.statedir < job.marker
    ensures Visited(nodes, job) == {job.statedir} + Region(nodes, job, job.statedir)
  {
    forall p | p in nodes
      ensures p in Visited(nodes, job) <==> p == job.statedir || p in Region(nodes, job, job.statedir)
    {
    }
  }

  lemma RegionShrinks(nodes: map<Path, Node>, top: Path, child: Path)
    requires child in nodes && top < child
    ensures Below(nodes, child) < Below(nodes, top)
  {
    assert child in Below(nodes, top) && child !in Below(nodes, child);
  }

  lemma Unlinked(nodes: map<Path, Node>, job: Job, failing: set<Path>)
    ensures job.marker !in nodes ==>
              Effect(nodes, job, failing) == Applied(nodes, job, failing, Visited(nodes, job))
  {
  }

  class NovaStatedirOwnershipManager {
    const fs: FileSystem
    const job: Job
    const upgrade: bool

    constructor (fs: FileSystem, statedir: Path, markerName: string, nova: Owner)
      ensures this.fs == fs && job == MakeJob(fs.nodes, statedir, markerName, nova)
      ensures upgrade == (job.marker in fs.nodes)
    {
      this.fs := fs;
      job := MakeJob(fs.nodes, statedir, markerName, nova);
      upgrade := statedir + [markerName] in fs.nodes;
    }

    /** Ends with exactly the region below `top` set, whatever the listing order; when the
        process is killed, with a part of it. */
    method Walk(top: Path) returns (ghost done: set<Path>)
      requires fs.alive && WellFormed(fs.nodes)
      requires top in fs.nodes && fs.nodes[top].isDir && !(job.marker <= top)
      modifies fs
      ensures done <= Region(old(fs.nodes), job, top)
      ensures Did(old(fs.nodes), old(fs.calls), fs.nodes, fs.calls, job, fs.failing, done)
      ensures fs.alive ==> done == Region(old(fs.nodes), job, top)
      decreases Below(fs.nodes, top), 1, 0
    {
      ghost var nodes, calls := fs.nodes, fs.calls;
      done := {};
      DidNothing(nodes, calls, job, fs.failing);
      var names := fs.ListDir(top);
      for i := 0 to |names|
        invariant fs.alive
        invariant done == Part(nodes, job, top, names[..i])
        invariant Did(nodes, calls, fs.nodes, fs.calls, job, fs.failing, done)
      {
        ghost var mid, midCalls := fs.nodes, fs.calls;
        PartGrows(nodes, job, top, names, i);
        AppliedKeepsShape(nodes, job, fs.failing, done);
        RegionShrinks(nodes, top, ChildPath(top, names[i]));
        SameRegion(nodes, mid, job, ChildPath(top, names[i]));
        ghost var some := Visit(ChildPath(top, names[i]));
        DidThen(nodes, calls, mid, midCalls, fs.nodes, fs.calls, job, fs.failing, done, some);
        done := done + some;
        if !fs.alive { return; }
      }
      assert names[..|names|] == names;
      PartOfAll(nodes, job, top, names);
    }

    /** One turn of the walk's loop.  The run treats the state directory itself the same way. */
    method Visit(pathname: Path) returns (ghost done: set<Path>)
      requires fs.alive && WellFormed(fs.nodes)
      requires pathname in fs.nodes && (job.marker <= pathname ==> job.marker == pathname)
      modifies fs
      ensures done <= Share(old(fs.nodes), job, pathname)
      ensures Did(old(fs.nodes), old(fs.calls), fs.nodes, fs.calls, job, fs.failing, done)
      ensures fs.alive ==> done == Share(old(fs.nodes), job, pathname)
      decreases Below(fs.nodes, pathname), 2
    {
      ghost var nodes, calls := fs.nodes, fs.calls;
      done := {};
      DidNothing(nodes, calls, job, fs.failing);
      if pathname == job.marker { return; }
      var pathinfo := new PathManager(fs, pathname);
      if pathinfo.isDir {
        done := VisitDirectory(pathinfo);
      } else {
        FileIsLeaf(nodes, job, pathname);
        done := VisitFile(pathinfo);
      }
    }

    /** Directories always get the target, and are walked even if that fails. */
    method VisitDirectory(pathinfo: PathManager) returns (ghost done: set<Path>)
      requires fs.alive && WellFormed(fs.nodes) && pathinfo.fs == fs && pathinfo.Fresh()
      requires pathinfo.isDir && !(job.marker <= pathinfo.path)
      modifies fs, pathinfo
      ensures done <= {pathinfo.path} + Region(old(fs.nodes), job, pathinfo.path)
      ensures Did(old(fs.nodes), old(fs.calls), fs.nodes, fs.calls, job, fs.failing, done)
      ensures fs.alive ==> done == {pathinfo.path} + Region(old(fs.nodes), job, pathinfo.path)
      decreases Below(fs.nodes, pathinfo.path), 1, 1
    {
      ghost var nodes, calls, path := fs.nodes, fs.calls, pathinfo.path;
      done := {};
      DidNothing(nodes, calls, job, fs.failing);
      pathinfo.Chown(job.target);
      if !fs.alive { return; }
      ghost var own, ownCalls := fs.nodes, fs.calls;
      DirectoryOwned(nodes, calls, own, ownCalls, job, fs.failing, path);
      ghost var below := Walk(pathinfo.path);
      DirectoryWalked(nodes, calls, own, ownCalls, fs.nodes, fs.calls, job, fs.failing, path, below);
      done := {path} + below;
    }

    /** Files are only touched when the ids change, and then id by id. */
    method VisitFile(pathinfo: PathManager) returns (ghost done: set<Path>)
      requires fs.alive && pathinfo.fs == fs && pathinfo.Fresh() && !pathinfo.isDir
      modifies fs, pathinfo
      ensures done <= {pathinfo.path}
      ensures Did(old(fs.nodes), old(fs.calls), fs.nodes, fs.calls, job, fs.failing, done)
      ensures fs.alive ==> done == {pathinfo.path}
    {
      ghost var nodes, calls, path := fs.nodes, fs.calls, pathinfo.path;
      done := {};
      DidNothing(nodes, calls, job, fs.failing);
      if job.IdChange() {
        pathinfo.Chown(Owner(if pathinfo.owner.uid == job.previous.uid then job.target.uid else pathinfo.owner.uid,
                             if pathinfo.owner.gid == job.previous.gid then job.target.gid else pathinfo.owner.gid));
        if !fs.alive { return; }
      } else {
        assert nodes == nodes[path := nodes[path].(owner := job.Specified(nodes[path]))];
      }
      DidOne(nodes, calls, fs.nodes, fs.calls, job, fs.failing, path);
      done := {path};
    }

    /** A run that is not killed has the whole effect and makes one chown call for each wrong
        path; one that is killed has part of it and leaves the marker. */
    method Run() returns (ghost done: set<Path>)
      requires fs.alive && WellFormed(fs.nodes)
      requires job.statedir in fs.nodes && fs.nodes[job.statedir].isDir && job.statedir < job.marker
      requires upgrade == (job.marker in fs.nodes)
      modifies fs
      ensures done <= Visited(old(fs.nodes), job)
      ensures CallsFor(old(fs.calls), fs.calls, old(fs.nodes), job, done)
      ensures fs.alive ==> done == Visited(old(fs.nodes), job) && fs.nodes == Effect(old(fs.nodes), job, fs.failing)
      ensures !fs.alive ==> fs.nodes == Applied(old(fs.nodes), job, fs.failing, done)
    {
      VisitedIs(fs.nodes, job);
      Unlinked(fs.nodes, job, fs.failing);
      done := Visit(job.statedir);
      if !fs.alive { return; }
      if upgrade {
        fs.Unlink(job.marker);
      }
    }
  }
}
