/** Repeating a complete run changes nothing. */
module CtlplaneIdempotence {
  import opened Sequences
  import opened Wrappers
  import opened Neutron
  import opened Ctlplane
  import opened CtlplaneMigration
  import opened CtlplaneViews
  import opened CtlplaneRefinement
  import opened CtlplaneEffects
  import opened CtlplaneFrames
  import opened CtlplaneTheorems

  // ---------- a repeat creates nothing ----------

  /** Everything that is configured is there, and the local subnet is on a segment if the
      network is routed. */
  ghost predicate Covered(c: Conf, v: View) {
    && v.network.Some?
    && LocalCidr(c).Some? && LocalCidr(c).value in v.entries
    && (c.routed ==> v.entries[LocalCidr(c).value].physnet.Some?)
    && (c.routed ==> forall i: nat :: IsRemote(c, i) ==> c.subnets[i].1.cidr in v.entries)
  }

  lemma GoalIsCovered(c: Conf, v: View, y: View)
    requires IsGoal(c, v, y) && LocalCidr(c).Some?
    ensures Covered(c, y)
  {
    var cidr := LocalCidr(c).value;
    assert At(y.entries, cidr) == TurnsEntry(c, v, cidr, Turns(c));
    if c.routed {
      forall i: nat | IsRemote(c, i)
        ensures c.subnets[i].1.cidr in y.entries
      {
        assert At(y.entries, c.subnets[i].1.cidr) == TurnsEntry(c, v, c.subnets[i].1.cidr, Turns(c));
      }
    }
  }

  ghost predicate StaysCovered(c: Conf, x: Exec', y: Exec') {
    Covered(c, x.view) ==> Covered(c, y.view) && y.created == x.created
  }

  lemma LocalCovered(c: Conf, x: Exec')
    ensures StaysCovered(c, x, Local'(c, x))
  {
  }

  lemma TurnCovered(c: Conf, n: nat, x: Exec')
    requires n < |c.subnets| && c.routed
    ensures StaysCovered(c, x, Turn'(c, n, x))
  {
  }

  lemma RunCovered(c: Conf, x: Exec')
    requires Covered(c, x.view)
    ensures Run'(c, x).created == x.created
  {
    var e := EnsureNetwork'(c, x);
    assert StaysCovered(c, x, e);
    var l := Local'(c, e);
    LocalCovered(c, e);
    if c.routed {
      forall k: nat, y | k < |c.subnets| && StaysCovered(c, l, y)
        ensures StaysCovered(c, l, Turn'(c, k, y))
      {
        TurnCovered(c, k, y);
      }
      TurnsKeep(c, |c.subnets|, l, (k: nat, y: Exec') => StaysCovered(c, l, y));
    }
  }

  // ---------- a complete repeat arrives where it was ----------

  lemma GoalHome(c: Conf, v: View, y: View, cidr: string)
    requires IsGoal(c, v, y) && Configured(c, cidr)
    ensures Home(c, y, cidr) == Home(c, v, cidr)
  {
    assert At(y.entries, cidr) == TurnsEntry(c, v, cidr, Turns(c));
  }

  lemma GoalNaming(c: Conf, v: View, y: View, p: string)
    requires IsGoal(c, v, y)
    ensures LastNaming(c, y, p, Turns(c)) == LastNaming(c, v, p, Turns(c))
  {
    forall i: nat | i < Turns(c)
      ensures Names(c, y, i, p) <==> Names(c, v, i, p)
    {
      if IsRemote(c, i) {
        RemoteIsConfigured(c, i);
        GoalHome(c, v, y, c.subnets[i].1.cidr);
      }
    }
  }

  /** Running the configuration on its own result leads nowhere else. */
  lemma GoalTwice(c: Conf, v: View, y: View, z: View)
    requires IsGoal(c, v, y) && IsGoal(c, y, z)
    ensures z == y
  {
    forall cidr
      ensures At(z.entries, cidr) == At(y.entries, cidr)
    {
      assert At(y.entries, cidr) == TurnsEntry(c, v, cidr, Turns(c));
      assert At(z.entries, cidr) == TurnsEntry(c, y, cidr, Turns(c));
      if Configured(c, cidr) {
        GoalHome(c, v, y, cidr);
      }
    }
    SameAt(z.entries, y.entries);
    forall p
      ensures At(z.names, p) == At(y.names, p)
    {
      assert At(y.names, p) == TurnsName(c, v, p, Turns(c));
      assert At(z.names, p) == TurnsName(c, y, p, Turns(c));
      GoalNaming(c, v, y, p);
    }
    SameAt(z.names, y.names);
  }

  /** The state in which a repeat starts. */
  function Again(tries: seq<Try>, last: Try, again: Try): Exec {
    Begin(After(tries, last), again)
  }

  lemma RepeatRefines(tries: seq<Try>, last: Try, again: Try)
    requires again.conf == last.conf
    ensures var x := Again(tries, last, again);
            && Sound(x.store) && ViewOf(x.store) == ViewOf(After(tries, last).store)
            && Sound(Run(again.conf, x).store)
            && Abs(Run(again.conf, x)) == Run'(again.conf, Abs(x))
  {
    AfterEffect(tries, last);
    BeginRefines(After(tries, last), again);
    RunRefines(again.conf, Again(tries, last, again));
  }

  /** Idempotence: after a complete run in any history whatever, a further run of the same
      configuration makes no create and no association call and keeps all ids and links,
      wherever it is aborted; if it completes, it leaves the very same store.  The tags are
      the configured CIDRs. */
  lemma Idempotence(tries: seq<Try>, last: Try, again: Try)
    requires again.conf == last.conf && After(tries, last).up
    ensures var x := Again(tries, last, again);
            var z := Run(again.conf, x);
            && x.log <= z.log && (forall i :: |x.log| <= i < |z.log| ==> OnlyListsOrUpdates(z.log[i]))
            && SameShape(x.store, z.store)
            && (z.up ==> z.store == x.store)
            && x.store.network == Some(Network(last.conf.mtu, Tags(last.conf)))
  {
    var c, x := last.conf, Again(tries, last, again);
    AfterEffect(tries, last);
    RepeatRefines(tries, last, again);
    GoalIsCovered(c, Left(tries), ViewOf(x.store));
    RunCovered(c, Abs(x));
    RunFramed(c, x);
    CompleteRepeat(c, Left(tries), x);
  }

  lemma CompleteRepeat(c: Conf, v: View, x: Exec)
    requires x.up && Sound(x.store) && IsGoal(c, v, ViewOf(x.store)) && SameShape(x.store, Run(c, x).store)
    requires Sound(Run(c, x).store) && Abs(Run(c, x)) == Run'(c, Abs(x))
    ensures Run(c, x).up ==> Run(c, x).store == x.store
  {
    RunEffect(c, Abs(x));
    if Run(c, x).up {
      GoalTwice(c, v, ViewOf(x.store), ViewOf(Run(c, x).store));
      SameStore(x.store, Run(c, x).store);
    }
  }

  // ---------- the tags ----------

  lemma {:induction false} RemoteCidrsHold(c: Conf, n: nat, cidr: string)
    requires n <= |c.subnets|
    ensures cidr in RemoteCidrs(c, n) <==> LastRemote(c, cidr, n).Some?
  {
    if n > 0 {
      RemoteCidrsHold(c, n - 1, cidr);
    }
  }

  lemma {:induction false} RemoteCidrsInOrder(c: Conf, i: nat, n: nat)
    requires i < n <= |c.subnets| && IsRemote(c, i)
    ensures RemoteCidrs(c, i) + [c.subnets[i].1.cidr] <= RemoteCidrs(c, n)
  {
    if i + 1 < n {
      RemoteCidrsInOrder(c, i, n - 1);
    }
  }

  /** No two remote subnets share a CIDR, and none has the local one's. */
  predicate DistinctCidrs(c: Conf) {
    && (forall i: nat, j: nat :: i < j < |c.subnets| && IsRemote(c, i) && IsRemote(c, j) ==>
          c.subnets[i].1.cidr != c.subnets[j].1.cidr)
    && (forall i: nat :: i < |c.subnets| && IsRemote(c, i) ==> Some(c.subnets[i].1.cidr) != LocalCidr(c))
  }

  lemma {:induction false} RemoteCidrsOnce(c: Conf, n: nat)
    requires n <= |c.subnets|
    ensures NoRepeats(RemoteCidrs(c, n)) <==>
              forall i: nat, j: nat :: i < j < n && IsRemote(c, i) && IsRemote(c, j) ==> c.subnets[i].1.cidr != c.subnets[j].1.cidr
  {
    if n > 0 {
      RemoteCidrsOnce(c, n - 1);
      if IsRemote(c, n - 1) {
        var before, cidr := RemoteCidrs(c, n - 1), c.subnets[n - 1].1.cidr;
        RemoteCidrsHold(c, n - 1, cidr);
        AppendedOnce(before, cidr);
      }
    }
  }

  lemma AppendedOnce(s: seq<string>, x: string)
    ensures NoRepeats(s + [x]) <==> NoRepeats(s) && x !in s
  {
    var z := s + [x];
    assert z[|s|] == x && forall i :: 0 <= i < |s| ==> z[i] == s[i];
    if NoRepeats(z) {
      assert forall i :: 0 <= i < |s| ==> s[i] != z[|s|];
    }
  }

  /** The tags of a complete run are the local CIDR first and then, when routed, each remote
      CIDR after those configured before it.  None occurs twice exactly when no two
      configured subnets share one. */
  lemma TagsAreTheCidrs(c: Conf)
    requires LocalCidr(c).Some?
    ensures Tags(c) != [] && Some(Tags(c)[0]) == LocalCidr(c)
    ensures forall cidr :: cidr in Tags(c)[1..] <==> c.routed && LastRemote(c, cidr, |c.subnets|).Some?
    ensures c.routed ==> forall i: nat :: IsRemote(c, i) ==>
              RemoteCidrs(c, i) + [c.subnets[i].1.cidr] <= Tags(c)[1..]
    ensures c.routed ==> (NoRepeats(Tags(c)) <==> DistinctCidrs(c))
  {
    var n, local := |c.subnets|, LocalCidr(c).value;
    forall cidr
      ensures cidr in RemoteCidrs(c, n) <==> LastRemote(c, cidr, n).Some?
    {
      RemoteCidrsHold(c, n, cidr);
    }
    if c.routed {
      var remote := RemoteCidrs(c, n);
      assert Tags(c) == [local] + remote && Tags(c)[1..] == remote;
      RemoteCidrsOnce(c, n);
      OnceAfter(local, remote);
      forall i: nat | IsRemote(c, i)
        ensures RemoteCidrs(c, i) + [c.subnets[i].1.cidr] <= remote
      {
        RemoteCidrsInOrder(c, i, n);
      }
    }
  }

  lemma OnceAfter(x: string, s: seq<string>)
    ensures NoRepeats([x] + s) <==> NoRepeats(s) && x !in s
  {
    var z := [x] + s;
    assert z[0] == x && forall i :: 0 <= i < |s| ==> z[i + 1] == s[i];
    if NoRepeats(z) {
      forall i, j | 0 <= i < j < |s|
        ensures s[i] != s[j]
      {
        assert z[i + 1] != z[j + 1];
      }
      forall i | 0 <= i < |s|
        ensures s[i] != x
      {
        assert z[0] != z[i + 1];
      }
    }
  }
}
