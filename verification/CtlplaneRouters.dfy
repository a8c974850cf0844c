/** Which IPv6 subnets have routers. */
module CtlplaneRouters {
  import opened Sequences
  import opened Wrappers
  import opened Neutron
  import opened Ctlplane
  import opened CtlplaneMigration
  import opened CtlplaneViews
  import opened CtlplaneRefinement
  import opened CtlplaneEffects
  import opened CtlplaneTheorems

  /** The subnet with this CIDR is there and attached to a router. */
  predicate HasRouter(v: View, cidr: string) {
    cidr in v.entries && v.entries[cidr].routers != {}
  }

  lemma GoalRouters(c: Conf, v: View, y: View, cidr: string)
    requires IsGoal(c, v, y) && cidr in y.entries
    ensures y.entries[cidr].routers == RoutersAfter(c, v, cidr)
  {
    assert At(y.entries, cidr) == TurnsEntry(c, v, cidr, Turns(c));
  }

  /** A complete run gives an IPv6 subnet its router exactly when it finds the subnet with
      one or does not find the subnet: one left without by an abort stays without. */
  lemma RouterIff(tries: seq<Try>, last: Try, cidr: string)
    requires After(tries, last).up && ':' in cidr && cidr in ViewOf(After(tries, last).store).entries
    ensures HasRouter(ViewOf(After(tries, last).store), cidr) <==> cidr !in Left(tries).entries || HasRouter(Left(tries), cidr)
  {
    AfterEffect(tries, last);
    GoalRouters(last.conf, Left(tries), ViewOf(After(tries, last).store), cidr);
  }

  /** IPv4 subnets never get one. */
  lemma NoRouterForV4(tries: seq<Try>, cidr: string)
    requires ':' !in cidr
    ensures !HasRouter(Left(tries), cidr)
  {
    forall t, v, y | t in tries && !HasRouter(v, cidr) && Between(t.conf, v, y)
      ensures !HasRouter(y, cidr)
    {
      if cidr in y.entries {
        assert EntryBetween(t.conf, v, cidr, y.entries[cidr]);
      }
    }
    HistoryKeeps(tries, v => !HasRouter(v, cidr));
  }

  /** Five calls into a first run: after the IPv6 local subnet and before its router. */
  lemma FiveCalls(c: Conf, x: Exec')
    requires LocalCidr(c).Some? && ':' in LocalCidr(c).value
    requires x.view == NOTHING && x.budget == 5 && x.up
    ensures var y := Run'(c, x).view;
            LocalCidr(c).value in y.entries && !HasRouter(y, LocalCidr(c).value)
  {
    var s := Lookup(c.subnets, c.local).value;
    var l := Local'(c, EnsureNetwork'(c, x));
    assert c.physnet in EnsureNetwork'(c, x).view.names;
    assert !l.up && l.view.entries == map[s.cidr := Entry(Final(c, c.local, s), if c.routed then Some(c.physnet) else None, {})];
    TurnsStayDown(c, |c.subnets|, l);
  }

  /** The abort that loses the router: no later complete run adds it. */
  lemma AbortLosesRouter(first: Try, last: Try)
    requires var cidr := LocalCidr(first.conf); cidr.Some? && ':' in cidr.value
    requires first.budget == 5 && After([first], last).up
    ensures !HasRouter(ViewOf(After([first], last).store), LocalCidr(first.conf).value)
  {
    var cidr := LocalCidr(first.conf).value;
    LastRun([first]);
    assert [first][..0] == [];
    AfterEffect([], first);
    BeginRefines(History([]), first);
    FiveCalls(first.conf, Abs(Begin(History([]), first)));
    if cidr in ViewOf(After([first], last).store).entries {
      RouterIff([first], last, cidr);
    }
  }
}
