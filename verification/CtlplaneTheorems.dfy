/** What the script guarantees over whole histories of complete and aborted runs. */
module CtlplaneTheorems {
  import opened Sequences
  import opened Wrappers
  import opened Neutron
  import opened Ctlplane
  import opened CtlplaneMigration
  import opened CtlplaneViews
  import opened CtlplaneRefinement
  import opened CtlplaneEffects

  /** One more run after a history. */
  function After(tries: seq<Try>, last: Try): Exec {
    Run(last.conf, Begin(History(tries), last))
  }

  /** The network a history leaves. */
  function Left(tries: seq<Try>): View {
    ViewOf(History(tries).store)
  }

  /** Every run of every history, whatever the configurations, has the effect that
      `RunEffect` describes. */
  lemma AfterEffect(tries: seq<Try>, last: Try)
    ensures var c, y := last.conf, After(tries, last);
            && Sound(y.store)
            && Between(c, Left(tries), ViewOf(y.store))
            && (y.up ==> LocalCidr(c).Some? && IsGoal(c, Left(tries), ViewOf(y.store)))
            && Abs(y) == Run'(c, Abs(Begin(History(tries), last)))
  {
    HistorySound(tries);
    BeginRefines(History(tries), last);
    var x := Begin(History(tries), last);
    RunRefines(last.conf, x);
    RunEffect(last.conf, Abs(x));
  }

  lemma LastRun(tries: seq<Try>)
    requires tries != []
    ensures History(tries) == After(tries[..|tries| - 1], tries[|tries| - 1])
  {
  }

  /** What every run keeps, from a network that it may leave to another, every history keeps. */
  lemma {:induction false} HistoryKeeps(tries: seq<Try>, inv: View -> bool)
    requires inv(NOTHING)
    requires forall t, v, y :: t in tries && inv(v) && Between(t.conf, v, y) ==> inv(y)
    ensures inv(Left(tries))
  {
    if tries != [] {
      var before, t := tries[..|tries| - 1], tries[|tries| - 1];
      HistoryKeeps(before, inv);
      LastRun(tries);
      AfterEffect(before, t);
    } else {
      assert ViewOf(EMPTY_STORE) == NOTHING;
    }
  }

  /** A subnet that is on a physical network stays there in every run, complete or aborted. */
  lemma NeverMoved(tries: seq<Try>, last: Try, cidr: string)
    requires cidr in Left(tries).entries && Left(tries).entries[cidr].physnet.Some?
    ensures cidr in ViewOf(After(tries, last).store).entries
    ensures ViewOf(After(tries, last).store).entries[cidr].physnet == Left(tries).entries[cidr].physnet
  {
    AfterEffect(tries, last);
  }

  /** A complete run leaves the subnets that are not configured, or not local on a flat
      network, exactly as they were. */
  lemma Untouched(tries: seq<Try>, last: Try, cidr: string)
    requires After(tries, last).up && !Configured(last.conf, cidr)
    ensures At(ViewOf(After(tries, last).store).entries, cidr) == At(Left(tries).entries, cidr)
  {
    AfterEffect(tries, last);
    var y := ViewOf(After(tries, last).store);
    assert At(y.entries, cidr) == TurnsEntry(last.conf, Left(tries), cidr, Turns(last.conf));
  }

  /** A complete run deals with this subnet, and no later one has its CIDR: of several with
      one CIDR the last remote one counts. */
  predicate Counts(c: Conf, i: nat) {
    && i < |c.subnets|
    && var s := c.subnets[i].1;
       if IsRemote(c, i) then c.routed && LastRemote(c, s.cidr, |c.subnets|) == Some(i)
       else Lookup(c.subnets, c.local) == Some(s) && LastRemote(c, s.cidr, |c.subnets|).None?
  }

  /** The attributes a complete run leaves each subnet that it deals with: its own, with a
      route to the metadata service in front that goes through the undercloud for the local
      subnet and through the gateway for a remote one, and no routes at all for IPv6. */
  lemma SubnetAttributes(tries: seq<Try>, last: Try, i: nat)
    requires After(tries, last).up && Counts(last.conf, i)
    ensures var c, name, s := last.conf, last.conf.subnets[i].0, last.conf.subnets[i].1;
            var y := ViewOf(After(tries, last).store);
            && s.cidr in y.entries
            && var attrs := y.entries[s.cidr].attrs;
               && attrs.name == name && attrs.gateway == s.gateway
               && attrs.pools == s.pools && attrs.dns == c.nameservers
               && attrs.routes ==
                    if ':' in s.cidr then []
                    else [Route("169.254.169.254/32", if name == c.local then c.localIp else s.gateway)] + s.routes
  {
    var c := last.conf;
    AfterEffect(tries, last);
    var y := ViewOf(After(tries, last).store);
    var s := c.subnets[i].1;
    assert At(y.entries, s.cidr) == TurnsEntry(c, Left(tries), s.cidr, Turns(c));
  }

  // ---------- convergence ----------

  /** The network without the routers. */
  function Bare(v: View): View {
    v.(entries := map cidr | cidr in v.entries :: v.entries[cidr].(routers := {}))
  }

  /** Equal up to ids, order and routers. */
  predicate SameNetwork(st: Store, st': Store) {
    Bare(ViewOf(st)) == Bare(ViewOf(st'))
  }

  /** What runs of `c` alone may leave: each subnet is where the first run would put it, and
      each segment is the implicit one or one that `c` names. */
  ghost predicate Fits(c: Conf, v: View) {
    && (forall cidr :: cidr in v.entries ==> Configured(c, cidr) && v.entries[cidr].physnet == Home(c, NOTHING, cidr))
    && (forall p :: p in v.names ==>
          LastNaming(c, NOTHING, p, Turns(c)).Some? || (p == c.physnet && v.names[p] == ""))
    && (v.network.None? ==> v == NOTHING)
    && (v.network.Some? ==> c.physnet in v.names)
  }

  /** Then homes are what they were at the beginning. */
  lemma FitsHome(c: Conf, v: View, cidr: string)
    requires Fits(c, v) && Configured(c, cidr)
    ensures Home(c, v, cidr) == Home(c, NOTHING, cidr)
  {
  }

  lemma FitsNames(c: Conf, v: View, i: nat, p: string)
    requires Fits(c, v) && i < Turns(c)
    ensures Names(c, v, i, p) <==> Names(c, NOTHING, i, p)
  {
    if IsRemote(c, i) {
      RemoteIsConfigured(c, i);
      FitsHome(c, v, c.subnets[i].1.cidr);
    }
  }

  lemma FitsNaming(c: Conf, v: View, p: string)
    requires Fits(c, v)
    ensures LastNaming(c, v, p, Turns(c)) == LastNaming(c, NOTHING, p, Turns(c))
  {
    forall i: nat | i < Turns(c)
      ensures Names(c, v, i, p) <==> Names(c, NOTHING, i, p)
    {
      FitsNames(c, v, i, p);
    }
  }

  lemma FitsKept(c: Conf, v: View, y: View)
    requires Fits(c, v) && Between(c, v, y)
    ensures Fits(c, y)
  {
    forall cidr | cidr in y.entries
      ensures Configured(c, cidr) && y.entries[cidr].physnet == Home(c, NOTHING, cidr)
    {
      FitsHome(c, v, cidr);
      assert EntryBetween(c, v, cidr, y.entries[cidr]);
    }
    forall p | p in y.names
      ensures LastNaming(c, NOTHING, p, Turns(c)).Some? || (p == c.physnet && y.names[p] == "")
    {
      assert NameBetween(c, v, p, y.names[p]);
      if c.routed && exists i: nat :: Names(c, v, i, p) && y.names[p] == c.subnets[i].0 {
        var i: nat :| Names(c, v, i, p) && y.names[p] == c.subnets[i].0;
        FitsNames(c, v, i, p);
      }
    }
  }

  /** From any network that fits, a complete run arrives at the same place. */
  lemma SameGoal(c: Conf, v: View, y: View, z: View)
    requires Fits(c, v) && IsGoal(c, v, y) && IsGoal(c, NOTHING, z)
    ensures Bare(y) == Bare(z)
  {
    forall cidr
      ensures At(Bare(y).entries, cidr) == At(Bare(z).entries, cidr)
    {
      assert At(y.entries, cidr) == TurnsEntry(c, v, cidr, Turns(c));
      assert At(z.entries, cidr) == TurnsEntry(c, NOTHING, cidr, Turns(c));
      if Configured(c, cidr) {
        FitsHome(c, v, cidr);
      }
    }
    SameAt(Bare(y).entries, Bare(z).entries);
    forall p
      ensures At(y.names, p) == At(z.names, p)
    {
      assert At(y.names, p) == TurnsName(c, v, p, Turns(c));
      assert At(z.names, p) == TurnsName(c, NOTHING, p, Turns(c));
      FitsNaming(c, v, p);
    }
    SameAt(y.names, z.names);
  }

  /** Crash-and-retry convergence, for any configuration: after any number of runs aborted
      anywhere, one complete run leaves the network, segments, subnets and tags that a single
      uninterrupted run leaves, up to ids. */
  lemma Convergence(c: Conf, tries: seq<Try>, last: Try, single: Try)
    requires (forall t :: t in tries ==> t.conf == c) && last.conf == single.conf == c
    requires After(tries, last).up && After([], single).up
    ensures SameNetwork(After(tries, last).store, After([], single).store)
    ensures NoDuplicates(After(tries, last).store) && NoDuplicates(History(tries).store)
  {
    HistorySound(tries);
    AfterEffect(tries, last);
    AfterEffect([], single);
    FitsHistory(c, tries);
    SameArrival(c, Left(tries), After(tries, last).store, After([], single).store);
  }

  lemma SameArrival(c: Conf, v: View, st: Store, st': Store)
    requires Fits(c, v) && IsGoal(c, v, ViewOf(st)) && IsGoal(c, NOTHING, ViewOf(st'))
    ensures SameNetwork(st, st')
  {
    SameGoal(c, v, ViewOf(st), ViewOf(st'));
  }

  lemma FitsHistory(c: Conf, tries: seq<Try>)
    requires forall t :: t in tries ==> t.conf == c
    ensures Fits(c, Left(tries))
  {
    forall t, v, y | t in tries && Fits(c, v) && Between(t.conf, v, y)
      ensures Fits(c, y)
    {
      FitsKept(c, v, y);
    }
    HistoryKeeps(tries, v => Fits(c, v));
  }

  // ---------- progress ----------

  /** Every subnet but the local one is on a physical network. */
  ghost predicate OthersLinked(v: View, cidr: string) {
    forall other :: other in v.entries && other != cidr ==> v.entries[other].physnet.Some?
  }

  /** Nothing stands in the way of a routed run: the local physical network is there, and a
      local subnet without it is alone. */
  ghost predicate Passable(v: View, physnet: string, cidr: string) {
    && (v.network.Some? ==> physnet in v.names)
    && (v.network.None? ==> v.entries == map[])
    && OthersLinked(v, cidr)
    && (cidr in v.entries && v.entries[cidr].physnet.None? ==> Alone(v))
  }

  lemma PassableHistory(tries: seq<Try>, physnet: string, cidr: string)
    requires forall t :: t in tries ==> Keeps(t.conf, physnet, cidr)
    ensures Passable(Left(tries), physnet, cidr)
  {
    var st := History(tries).store;
    MigrationSafe(tries, physnet, cidr);
    HistorySound(tries);
    forall t, v, y | t in tries && OthersLinked(v, cidr) && Between(t.conf, v, y)
      ensures OthersLinked(y, cidr)
    {
      OthersStayLinked(t.conf, v, y, physnet, cidr);
    }
    HistoryKeeps(tries, v => OthersLinked(v, cidr));
    CanLinkView(st);
    EntryFound(st, cidr);
    NameFound(st, physnet);
  }

  lemma OthersStayLinked(c: Conf, v: View, y: View, physnet: string, cidr: string)
    requires OthersLinked(v, cidr) && Between(c, v, y) && Keeps(c, physnet, cidr)
    ensures OthersLinked(y, cidr)
  {
    forall other | other in y.entries && other != cidr
      ensures y.entries[other].physnet.Some?
    {
      assert EntryBetween(c, v, other, y.entries[other]);
      if other !in v.entries {
        var i := LastRemote(c, other, Turns(c)).value;
        assert FirstRemote(c, other, |c.subnets|).Some?;
      }
    }
  }

  /** A script that died only because a call raised. */
  predicate OnlyRaised(x: Exec') {
    x.up || x.budget == 0
  }

  predicate AllLinked(v: View) {
    forall cidr :: cidr in v.entries ==> v.entries[cidr].physnet.Some?
  }

  lemma LocalProgress(c: Conf, x: Exec', cidr: string)
    requires LocalCidr(c) == Some(cidr) && OnlyRaised(x)
    requires x.up ==> Passable(x.view, c.physnet, cidr) && x.view.network.Some?
    ensures OnlyRaised(Local'(c, x))
    ensures c.routed && Local'(c, x).up ==> AllLinked(Local'(c, x).view)
  {
  }

  lemma TurnProgress(c: Conf, n: nat, x: Exec')
    requires n < |c.subnets| && OnlyRaised(x) && (x.up ==> AllLinked(x.view))
    ensures OnlyRaised(Turn'(c, n, x)) && (Turn'(c, n, x).up ==> AllLinked(Turn'(c, n, x).view))
  {
  }

  lemma NetworkProgress(c: Conf, x: Exec', cidr: string)
    requires x.up && Passable(x.view, c.physnet, cidr)
    ensures var y := EnsureNetwork'(c, x);
            OnlyRaised(y) && (y.up ==> Passable(y.view, c.physnet, cidr) && y.view.network.Some?)
  {
  }

  lemma RunProgress(c: Conf, x: Exec', cidr: string)
    requires LocalCidr(c) == Some(cidr) && x.up && Passable(x.view, c.physnet, cidr)
    ensures OnlyRaised(Run'(c, x))
  {
    NetworkProgress(c, x, cidr);
    var l := Local'(c, EnsureNetwork'(c, x));
    LocalProgress(c, EnsureNetwork'(c, x), cidr);
    if c.routed {
      forall k: nat, y | k < |c.subnets| && OnlyRaised(y) && (y.up ==> AllLinked(y.view))
        ensures OnlyRaised(Turn'(c, k, y)) && (Turn'(c, k, y).up ==> AllLinked(Turn'(c, k, y).view))
      {
        TurnProgress(c, k, y);
      }
      TurnsKeep(c, |c.subnets|, l, (k: nat, y: Exec') => OnlyRaised(y) && (y.up ==> AllLinked(y.view)));
    }
  }

  lemma TurnCost(c: Conf, n: nat, x: Exec')
    requires n < |c.subnets|
    ensures Turn'(c, n, x).budget + 6 >= x.budget
  {
  }

  lemma {:induction false} TurnsCost(c: Conf, n: nat, x: Exec')
    requires n <= |c.subnets|
    ensures Remotes'(c, n, x).budget + 6 * n >= x.budget
  {
    if n > 0 {
      TurnsCost(c, n - 1, x);
      TurnCost(c, n - 1, Remotes'(c, n - 1, x));
    }
  }

  lemma LocalCost(c: Conf, x: Exec')
    ensures Local'(c, x).budget + 5 >= x.budget
  {
  }

  lemma RunCost(c: Conf, x: Exec')
    ensures Run'(c, x).budget + 8 + 6 * |c.subnets| >= x.budget
  {
    assert EnsureNetwork'(c, x).budget + 2 >= x.budget;
    LocalCost(c, EnsureNetwork'(c, x));
    TurnsCost(c, |c.subnets|, Local'(c, EnsureNetwork'(c, x)));
  }

  /** After any history that keeps the physical network and the local CIDR, whatever the
      remote subnets, a run with a local subnet whose calls do not raise completes: no call
      is refused and no lookup comes back empty-handed.  It makes at most 8 calls and 6 more
      for each configured subnet. */
  lemma RunCompletes(tries: seq<Try>, last: Try, physnet: string, cidr: string)
    requires forall t :: t in tries + [last] ==> Keeps(t.conf, physnet, cidr)
    requires Lookup(last.conf.subnets, last.conf.local).Some?
    requires last.budget > 8 + 6 * |last.conf.subnets|
    ensures After(tries, last).up
  {
    assert forall t :: t in tries ==> t in tries + [last];
    assert last in tries + [last];
    PassableHistory(tries, physnet, cidr);
    AfterEffect(tries, last);
    var x := Abs(Begin(History(tries), last));
    HistorySound(tries);
    BeginRefines(History(tries), last);
    RunProgress(last.conf, x, cidr);
    RunCost(last.conf, x);
  }
}
