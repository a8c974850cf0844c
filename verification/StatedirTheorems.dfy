/** What the ownership run achieves, path by path, over failures, kills and repetitions. */
module StatedirTheorems {
  import opened Sequences
  import opened Statedir

  /** The full effect.  Directories get the target; files have each id replaced exactly when
      it was the previous one; a path whose chown fails keeps its owner and shields nothing
      below it; the marker goes; nothing else changes. */
  lemma FullEffect(nodes: map<Path, Node>, statedir: Path, markerName: string, nova: Owner, failing: set<Path>, p: Path)
    requires p in nodes
    requires var marker := statedir + [markerName]; marker in nodes ==> !nodes[marker].isDir
    requires WellFormed(nodes)
    ensures var job := MakeJob(nodes, statedir, markerName, nova);
            var after := Effect(nodes, job, failing);
            && (p in after <==> p != job.marker)
            && (!(statedir <= p) || p in failing ==> p != job.marker ==> after[p] == nodes[p])
            && (statedir <= p && p !in failing && p != job.marker ==>
                  && after[p].isDir == nodes[p].isDir
                  && (nodes[p].isDir ==> after[p].owner == nova)
                  && (!nodes[p].isDir ==>
                        && after[p].owner.uid == (if job.marker in nodes && nodes[p].owner.uid == nodes[job.marker].owner.uid
                                                  then nova.uid else nodes[p].owner.uid)
                        && after[p].owner.gid == (if job.marker in nodes && nodes[p].owner.gid == nodes[job.marker].owner.gid
                                                  then nova.gid else nodes[p].owner.gid)))
  {
    var job := MakeJob(nodes, statedir, markerName, nova);
    if job.marker < p {
      AncestorIsDir(nodes, job.marker, p);
    }
  }

  // ---------- kills ----------

  /** Stopping anywhere leaves the job as it was: the marker still records the old ids. */
  lemma SameJob(nodes: map<Path, Node>, statedir: Path, markerName: string, nova: Owner, failing: set<Path>, done: set<Path>)
    requires done <= Visited(nodes, MakeJob(nodes, statedir, markerName, nova))
    ensures var job := MakeJob(nodes, statedir, markerName, nova);
            MakeJob(Applied(nodes, job, failing, done), statedir, markerName, nova) == job
  {
    var job := MakeJob(nodes, statedir, markerName, nova);
    AppliedKeepsShape(nodes, job, failing, done);
    assert job.marker !in done;
  }

  /** A run that was killed: the paths it had called chown on, and those for which it failed. */
  datatype Kill = Kill(called: set<Path>, failing: set<Path>)

  /** What successive killed runs leave. */
  ghost function Killed(nodes: map<Path, Node>, statedir: Path, markerName: string, nova: Owner, kills: seq<Kill>): map<Path, Node> {
    if kills == [] then nodes else
      var was, k := Killed(nodes, statedir, markerName, nova, kills[..|kills| - 1]), kills[|kills| - 1];
      var job := MakeJob(was, statedir, markerName, nova);
      Applied(was, job, k.failing, k.called * Visited(was, job))
  }

  /** The paths whose owner one of the killed runs has set. */
  function SetBy(kills: seq<Kill>): set<Path> {
    if kills == [] then {} else SetBy(kills[..|kills| - 1]) + (kills[|kills| - 1].called - kills[|kills| - 1].failing)
  }

  lemma WithoutFailures(nodes: map<Path, Node>, job: Job, failing: set<Path>, done: set<Path>)
    ensures Applied(nodes, job, failing, done) == Applied(nodes, job, {}, done - failing)
  {
  }

  lemma SameVisited(nodes: map<Path, Node>, nodes': map<Path, Node>, job: Job)
    requires nodes.Keys == nodes'.Keys
    ensures Visited(nodes, job) == Visited(nodes', job)
  {
    assert forall p :: p in nodes <==> p in nodes.Keys;
    assert forall p :: p in nodes' <==> p in nodes'.Keys;
  }

  /** A further batch of owners on top of some that were set. */
  lemma AppliedOn(nodes: map<Path, Node>, statedir: Path, markerName: string, nova: Owner, done: set<Path>,
                  failing: set<Path>, called: set<Path>)
    requires done <= Visited(nodes, MakeJob(nodes, statedir, markerName, nova))
    ensures var job := MakeJob(nodes, statedir, markerName, nova);
            var was := Applied(nodes, job, {}, done);
            && MakeJob(was, statedir, markerName, nova) == job
            && Visited(was, job) == Visited(nodes, job)
            && Applied(was, job, failing, called * Visited(was, job)) ==
                 Applied(nodes, job, {}, done + (called - failing) * Visited(nodes, job))
  {
    var job := MakeJob(nodes, statedir, markerName, nova);
    var was := Applied(nodes, job, {}, done);
    SameJob(nodes, statedir, markerName, nova, {}, done);
    AppliedKeepsShape(nodes, job, {}, done);
    SameVisited(nodes, was, job);
    var more := called * Visited(nodes, job);
    WithoutFailures(was, job, failing, more);
    AppliedTwice(nodes, job, {}, done, more - failing);
    assert more - failing == (called - failing) * Visited(nodes, job);
  }

  lemma {:induction false} KilledIs(nodes: map<Path, Node>, statedir: Path, markerName: string, nova: Owner, kills: seq<Kill>)
    ensures var job := MakeJob(nodes, statedir, markerName, nova);
            Killed(nodes, statedir, markerName, nova, kills) == Applied(nodes, job, {}, SetBy(kills) * Visited(nodes, job))
  {
    var job := MakeJob(nodes, statedir, markerName, nova);
    if kills == [] {
      DidNothing(nodes, [], job, {});
      assert SetBy(kills) * Visited(nodes, job) == {};
    } else {
      var before, k := kills[..|kills| - 1], kills[|kills| - 1];
      var done := SetBy(before) * Visited(nodes, job);
      KilledIs(nodes, statedir, markerName, nova, before);
      AppliedOn(nodes, statedir, markerName, nova, done, k.failing, k.called);
      assert SetBy(kills) * Visited(nodes, job) == done + (k.called - k.failing) * Visited(nodes, job);
    }
  }

  /** What a run leaves that is not killed but follows killed ones, which may have failed on
      other paths. */
  function Resumed(nodes: map<Path, Node>, job: Job, failing: set<Path>, kills: seq<Kill>): map<Path, Node> {
    map p | p in nodes && p != job.marker ::
      if p in Visited(nodes, job) && (p !in failing || p in SetBy(kills)) then nodes[p].(owner := job.Specified(nodes[p]))
      else nodes[p]
  }

  lemma ResumedIs(nodes: map<Path, Node>, job: Job, failing: set<Path>, kills: seq<Kill>)
    ensures var visited := Visited(nodes, job);
            Applied(nodes, job, {}, SetBy(kills) * visited + (visited - failing) * visited) - {job.marker} ==
              Resumed(nodes, job, failing, kills)
  {
  }

  /** Upgrade resume: after any number of runs killed after any of their chown calls, in any
      listing order, a run that is not killed leaves exactly those visited paths with their
      old owner on which it fails itself and which no killed run has set. */
  lemma Resume(nodes: map<Path, Node>, statedir: Path, markerName: string, nova: Owner, failing: set<Path>, kills: seq<Kill>)
    ensures var was := Killed(nodes, statedir, markerName, nova, kills);
            Effect(was, MakeJob(was, statedir, markerName, nova), failing) ==
              Resumed(nodes, MakeJob(nodes, statedir, markerName, nova), failing, kills)
  {
    var job := MakeJob(nodes, statedir, markerName, nova);
    var done := SetBy(kills) * Visited(nodes, job);
    KilledIs(nodes, statedir, markerName, nova, kills);
    AppliedOn(nodes, statedir, markerName, nova, done, failing, Visited(nodes, job));
    ResumedIs(nodes, job, failing, kills);
  }

  /** This is what one uninterrupted run would have left exactly when no killed run has put
      right a path on which the last one fails, as when the same paths fail every time. */
  lemma ResumeIff(nodes: map<Path, Node>, statedir: Path, markerName: string, nova: Owner, failing: set<Path>, kills: seq<Kill>)
    ensures var was, job := Killed(nodes, statedir, markerName, nova, kills), MakeJob(nodes, statedir, markerName, nova);
            Effect(was, MakeJob(was, statedir, markerName, nova), failing) == Effect(nodes, job, failing) <==>
              Wrong(nodes, job) * failing * SetBy(kills) == {}
  {
    var job := MakeJob(nodes, statedir, markerName, nova);
    Resume(nodes, statedir, markerName, nova, failing, kills);
    var e, r := Effect(nodes, job, failing), Resumed(nodes, job, failing, kills);
    assert e.Keys == r.Keys;
    forall p | p in e
      ensures e[p] == r[p] <==> p !in Wrong(nodes, job) * failing * SetBy(kills)
    {
    }
    if e == r {
      assert forall p :: p in Wrong(nodes, job) * failing * SetBy(kills) ==> p in e;
    }
  }

  lemma {:induction false} SameFailures(failing: set<Path>, kills: seq<Kill>)
    requires forall k :: k in kills ==> k.failing == failing
    ensures failing !! SetBy(kills)
  {
    if kills != [] {
      SameFailures(failing, kills[..|kills| - 1]);
    }
  }

  // ---------- the chown calls ----------

  /** A run that is not killed calls chown exactly once for each visited path whose owner is
      not the specified one. */
  lemma MinimalCalls(before: seq<Path>, after: seq<Path>, nodes: map<Path, Node>, job: Job)
    requires CallsFor(before, after, nodes, job, Visited(nodes, job))
    ensures |after| - |before| == |Wrong(nodes, job)|
    ensures forall p :: p in after[|before|..] <==> p in Wrong(nodes, job)
  {
    CountsAsSet(after[|before|..], Wrong(nodes, job));
  }

  /** What a second run finds to do: the directories whose chown failed, and nothing else.
      Without failures it makes no call at all. */
  lemma SecondRun(nodes: map<Path, Node>, statedir: Path, markerName: string, nova: Owner, failing: set<Path>)
    ensures var job := MakeJob(nodes, statedir, markerName, nova);
            var after := Effect(nodes, job, failing);
            Wrong(after, MakeJob(after, statedir, markerName, nova)) ==
              set p | p in Wrong(nodes, job) && nodes[p].isDir && p in failing
  {
    var job := MakeJob(nodes, statedir, markerName, nova);
    var after := Effect(nodes, job, failing);
    var again := MakeJob(after, statedir, markerName, nova);
    assert job.marker !in after && !again.IdChange();
    forall p
      ensures p in Wrong(after, again) <==> p in Wrong(nodes, job) && nodes[p].isDir && p in failing
    {
      if p in Visited(nodes, job) {
        assert p in after && after[p].isDir == nodes[p].isDir;
        assert again.Specified(after[p]) == if nodes[p].isDir then nova else after[p].owner;
      }
    }
  }

  /** A path that failed gets its owner from a later failure-free run exactly when it is a
      directory or already had it: the marker is gone, so files stay as they are. */
  lemma RetryIff(nodes: map<Path, Node>, statedir: Path, markerName: string, nova: Owner, failing: set<Path>, p: Path)
    requires p in Visited(nodes, MakeJob(nodes, statedir, markerName, nova)) && p in failing
    ensures var job := MakeJob(nodes, statedir, markerName, nova);
            var after := Effect(nodes, job, failing);
            var later := Effect(after, MakeJob(after, statedir, markerName, nova), {});
            && p in later
            && (later[p].owner == job.Specified(nodes[p]) <==> nodes[p].isDir || p !in Wrong(nodes, job))
  {
    var job := MakeJob(nodes, statedir, markerName, nova);
    var after := Effect(nodes, job, failing);
    var again := MakeJob(after, statedir, markerName, nova);
    assert p in after && after[p] == nodes[p] && !again.IdChange();
    assert p in Visited(after, again);
  }
}
