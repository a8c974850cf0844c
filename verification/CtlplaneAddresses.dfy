/** What written addresses mean to the script: an IPv4 subnet gets its routes and no router,
    an IPv6 one a router and no routes. */
module CtlplaneAddresses {
  import opened Sequences
  import opened Wrappers
  import opened Text
  import opened Neutron
  import opened Ctlplane
  import opened CtlplaneMigration
  import opened CtlplaneViews
  import opened CtlplaneRefinement
  import opened CtlplaneEffects
  import opened CtlplaneTheorems
  import opened CtlplaneRouters

  /** Four numbers with dots and a prefix length. */
  function Ipv4(a: nat, b: nat, c: nat, d: nat, prefix: nat): string {
    Dec(a) + "." + Dec(b) + "." + Dec(c) + "." + Dec(d) + "/" + Dec(prefix)
  }

  /** Groups with colons and a prefix length; a double colon stands around an empty group. */
  function Ipv6(groups: seq<string>, prefix: nat): string {
    Join(":", groups) + "/" + Dec(prefix)
  }

  lemma NoColon(a: nat, b: nat, c: nat, d: nat, prefix: nat)
    ensures ':' !in Ipv4(a, b, c, d, prefix)
  {
    DecHasNoColon(a);
    DecHasNoColon(b);
    DecHasNoColon(c);
    DecHasNoColon(d);
    DecHasNoColon(prefix);
  }

  lemma DecHasNoColon(n: nat)
    ensures ':' !in Dec(n)
  {
    forall i | 0 <= i < |Dec(n)|
      ensures Dec(n)[i] != ':'
    {
      assert IsDigit(Dec(n)[i]);
    }
  }

  lemma SomeColon(groups: seq<string>, prefix: nat)
    requires |groups| >= 2
    ensures ':' in Ipv6(groups, prefix)
  {
    var before, last := Join(":", groups[..|groups| - 1]), groups[|groups| - 1];
    assert (before + ":" + last)[|before|] == ':';
  }

  /** An IPv4 subnet that a complete run configures has the metadata route and then its own. */
  lemma RoutesOfV4(tries: seq<Try>, last: Try, i: nat, a: nat, b: nat, c: nat, d: nat, prefix: nat)
    requires After(tries, last).up && Counts(last.conf, i) && last.conf.subnets[i].1.cidr == Ipv4(a, b, c, d, prefix)
    ensures var (name, s) := last.conf.subnets[i];
            var y := ViewOf(After(tries, last).store);
            && s.cidr in y.entries
            && y.entries[s.cidr].attrs.routes ==
                 [Route("169.254.169.254/32", if name == last.conf.local then last.conf.localIp else s.gateway)] + s.routes
  {
    NoColon(a, b, c, d, prefix);
    SubnetAttributes(tries, last, i);
  }

  /** No history of runs, complete or aborted, attaches an IPv4 subnet to a router. */
  lemma NoRoutersForV4(tries: seq<Try>, a: nat, b: nat, c: nat, d: nat, prefix: nat)
    ensures var cidr := Ipv4(a, b, c, d, prefix);
            cidr in Left(tries).entries ==> Left(tries).entries[cidr].routers == {}
  {
    NoColon(a, b, c, d, prefix);
    NoRouterForV4(tries, Ipv4(a, b, c, d, prefix));
  }

  /** An IPv6 subnet that a complete run configures has no routes. */
  lemma NoRoutesForV6(tries: seq<Try>, last: Try, i: nat, groups: seq<string>, prefix: nat)
    requires After(tries, last).up && Counts(last.conf, i)
    requires |groups| >= 2 && last.conf.subnets[i].1.cidr == Ipv6(groups, prefix)
    ensures var s, y := last.conf.subnets[i].1, ViewOf(After(tries, last).store);
            s.cidr in y.entries && y.entries[s.cidr].attrs.routes == []
  {
    SomeColon(groups, prefix);
    SubnetAttributes(tries, last, i);
  }

  /** If the subnet is new to the run, it is attached to one router, of its own name; if not,
      to those that it had. */
  lemma RouterOfV6(tries: seq<Try>, last: Try, i: nat, groups: seq<string>, prefix: nat)
    requires After(tries, last).up && Counts(last.conf, i)
    requires |groups| >= 2 && last.conf.subnets[i].1.cidr == Ipv6(groups, prefix)
    requires IsRemote(last.conf, i) ==> FirstRemote(last.conf, Ipv6(groups, prefix), |last.conf.subnets|) == Some(i)
    requires IsRemote(last.conf, i) ==> LocalCidr(last.conf) != Some(Ipv6(groups, prefix))
    ensures var (name, s) := last.conf.subnets[i];
            var y := ViewOf(After(tries, last).store);
            && s.cidr in y.entries
            && y.entries[s.cidr].routers ==
                 if s.cidr in Left(tries).entries then Left(tries).entries[s.cidr].routers else {name}
  {
    SomeColon(groups, prefix);
    SubnetAttributes(tries, last, i);
    AfterEffect(tries, last);
    GoalRouters(last.conf, Left(tries), ViewOf(After(tries, last).store), last.conf.subnets[i].1.cidr);
  }
}
