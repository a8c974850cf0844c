/** The undercloud script that drives Neutron's `ctlplane` network towards the configuration.
    Each step appears twice: as a method that issues the calls one at a time, and as the
    function on executions that the method is proved to follow. */
module Ctlplane {
  import opened Sequences
  import opened Wrappers
  import opened Neutron

  datatype SubnetConf = SubnetConf(cidr: string, gateway: string, routes: seq<Route>, pools: Option<seq<Pool>>)

  /** `subnets` lists the JSON mapping in its iteration order. */
  datatype Conf = Conf(physnet: string, mtu: nat, routed: bool, local: string, localIp: string,
                       nameservers: seq<string>, subnets: seq<(string, SubnetConf)>)

  /** An IPv6 prefix is written with colons, an IPv4 one never is. */
  predicate IsV6(cidr: string) {
    ':' in cidr
  }

  /** The attributes a subnet is given: its own, after a route to the metadata service. */
  function Wanted(c: Conf, name: string, s: SubnetConf): Attrs {
    var nexthop := if name == c.local then c.localIp else s.gateway;
    Attrs(name, s.gateway, [Route("169.254.169.254/32", nexthop)] + s.routes, s.pools, c.nameservers)
  }

  // ---------- the script as a function on executions ----------

  function EnsureNetwork(c: Conf, x: Exec): Exec {
    var y := Issue(x, ListNetworks, true, x.store);
    if x.store.network.None? then
      Issue(y, CreateNetwork, true, AddNetwork(y.store, c.mtu, c.physnet))
    else
      Issue(y, UpdateNetwork, true, SetMtu(y.store, c.mtu))
  }

  /** Routes are not sent for IPv6. */
  function NewSubnet(c: Conf, name: string, s: SubnetConf, segment: Option<Id>, x: Exec): Exec {
    var attrs := Wanted(c, name, s);
    var sent := if IsV6(s.cidr) then attrs.(routes := []) else attrs;
    var y := Issue(x, CreateSubnet(s.cidr), true, AddSubnet(x.store, s.cidr, sent, segment));
    if IsV6(s.cidr) then
      var z := Issue(y, CreateRouter(name), true, AddRouter(y.store, name));
      Issue(z, AddInterface(y.store.nextId), true, AttachSubnet(z.store, y.store.nextId, x.store.nextId))
    else y
  }

  function ExistingSubnet(c: Conf, name: string, s: SubnetConf, id: Id, x: Exec): Exec {
    Issue(x, UpdateSubnet(id), true, SetAttrs(x.store, id, Wanted(c, name, s), !IsV6(s.cidr)))
  }

  function NameSegment(name: string, segment: Option<Id>, x: Exec): Exec {
    Issue(x, UpdateSegment(segment), segment.Some?, RenameSegment(x.store, segment, name))
  }

  function Link(subnet: Id, segment: Id, x: Exec): Exec {
    Issue(x, Associate(subnet, x.store), CanLink(x.store), LinkSubnet(x.store, subnet, segment))
  }

  /** The two lookups that come before dealing with a subnet. */
  function Listed(cidr: string, physnet: string, x: Exec): Exec {
    Issue(Issue(x, ListSubnets(cidr), true, x.store), ListSegments(physnet), true, x.store)
  }

  function Local(c: Conf, x: Exec): Exec {
    var conf := Lookup(c.subnets, c.local);
    if conf.None? then Crash(x) else
      var y := Listed(conf.value.cidr, c.physnet, x);
      if y.up then LocalSubnet(c, conf.value, y) else y
  }

  /** The local subnet, after the lookups. */
  function LocalSubnet(c: Conf, s: SubnetConf, x: Exec): Exec {
    var i := SubnetIndex(x.store.subnets, s.cidr);
    var k := SegmentIndex(x.store.segments, c.physnet);
    if i.Some? then
      var subnet := x.store.subnets[i.value];
      if c.routed && subnet.segment.None? then
        if k.None? then Crash(x)
        else ExistingSubnet(c, c.local, s, subnet.id, Link(subnet.id, x.store.segments[k.value].id, x))
      else ExistingSubnet(c, c.local, s, subnet.id, x)
    else if c.routed then
      if k.None? then Crash(x)
      else NewSubnet(c, c.local, s, Some(x.store.segments[k.value].id), x)
    else NewSubnet(c, c.local, s, None, x)
  }

  function Remote(c: Conf, name: string, s: SubnetConf, x: Exec): Exec {
    var y := Listed(s.cidr, name, x);
    if y.up then RemoteSubnet(c, name, s, y) else y
  }

  /** A remote subnet, after the lookups. */
  function RemoteSubnet(c: Conf, name: string, s: SubnetConf, x: Exec): Exec {
    var i := SubnetIndex(x.store.subnets, s.cidr);
    var k := SegmentIndex(x.store.segments, name);
    if i.Some? then
      var subnet := x.store.subnets[i.value];
      ExistingSubnet(c, name, s, subnet.id, NameSegment(name, subnet.segment, x))
    else if k.Some? then
      var id := x.store.segments[k.value].id;
      NewSubnet(c, name, s, Some(id), NameSegment(name, Some(id), x))
    else
      NewSubnet(c, name, s, Some(x.store.nextId), Issue(x, CreateSegment(name), true, AddSegment(x.store, name, name)))
  }

  /** One turn of the loop over the configured subnets, which skips the local one. */
  function Turn(c: Conf, n: nat, x: Exec): Exec
    requires n < |c.subnets|
  {
    if c.subnets[n].0 == c.local then x else Remote(c, c.subnets[n].0, c.subnets[n].1, x)
  }

  /** The first `n` turns. */
  function Remotes(c: Conf, n: nat, x: Exec): Exec
    requires n <= |c.subnets|
  {
    if n == 0 then x else Turn(c, n - 1, Remotes(c, n - 1, x))
  }

  function RemoteCidrs(c: Conf, n: nat): seq<string>
    requires n <= |c.subnets|
  {
    if n == 0 then []
    else if c.subnets[n - 1].0 == c.local then RemoteCidrs(c, n - 1)
    else RemoteCidrs(c, n - 1) + [c.subnets[n - 1].1.cidr]
  }

  function Tags(c: Conf): seq<string> {
    var conf := Lookup(c.subnets, c.local);
    (if conf.Some? then [conf.value.cidr] else []) + (if c.routed then RemoteCidrs(c, |c.subnets|) else [])
  }

  function Run(c: Conf, x: Exec): Exec {
    var y := Local(c, EnsureNetwork(c, x));
    var z := if c.routed then Remotes(c, |c.subnets|, y) else y;
    Issue(z, SetTags, true, PutTags(z.store, Tags(c)))
  }

  // ---------- the script itself ----------

  method EnsureNeutronNetwork(sdk: Connection, c: Conf) returns (ok: bool)
    requires sdk.up
    modifies sdk
    ensures sdk.State() == EnsureNetwork(c, old(sdk.State()))
    ensures ok == sdk.up
  {
    var network;
    ok, network := sdk.Networks();
    if ok {
      if network.None? {
        ok := sdk.Send(CreateNetwork, true, AddNetwork(sdk.store, c.mtu, c.physnet));
      } else {
        ok := sdk.Send(UpdateNetwork, true, SetMtu(sdk.store, c.mtu));
      }
    }
  }

  method NeutronSubnetCreate(sdk: Connection, c: Conf, name: string, s: SubnetConf, segment: Option<Id>)
    returns (ok: bool)
    requires sdk.up
    modifies sdk
    ensures sdk.State() == NewSubnet(c, name, s, segment, old(sdk.State()))
    ensures ok == sdk.up
  {
    var attrs := Wanted(c, name, s);
    var subnet := sdk.store.nextId;
    if IsV6(s.cidr) {
      ok := sdk.Send(CreateSubnet(s.cidr), true, AddSubnet(sdk.store, s.cidr, attrs.(routes := []), segment));
      if ok {
        var router := sdk.store.nextId;
        ok := sdk.Send(CreateRouter(name), true, AddRouter(sdk.store, name));
        if ok {
          ok := sdk.Send(AddInterface(router), true, AttachSubnet(sdk.store, router, subnet));
        }
      }
    } else {
      ok := sdk.Send(CreateSubnet(s.cidr), true, AddSubnet(sdk.store, s.cidr, attrs, segment));
    }
  }

  method NeutronSubnetUpdate(sdk: Connection, c: Conf, name: string, s: SubnetConf, id: Id) returns (ok: bool)
    requires sdk.up
    modifies sdk
    ensures sdk.State() == ExistingSubnet(c, name, s, id, old(sdk.State()))
    ensures ok == sdk.up
  {
    ok := sdk.Send(UpdateSubnet(id), true, SetAttrs(sdk.store, id, Wanted(c, name, s), !IsV6(s.cidr)));
  }

  method NeutronSegmentUpdate(sdk: Connection, name: string, segment: Option<Id>) returns (ok: bool)
    requires sdk.up
    modifies sdk
    ensures sdk.State() == NameSegment(name, segment, old(sdk.State()))
    ensures ok == sdk.up
  {
    ok := sdk.Send(UpdateSegment(segment), segment.Some?, RenameSegment(sdk.store, segment, name));
  }

  method LocalNeutronSegmentsAndSubnets(sdk: Connection, c: Conf, netCidrs: seq<string>)
    returns (ok: bool, cidrs: seq<string>)
    requires sdk.up
    modifies sdk
    ensures sdk.State() == Local(c, old(sdk.State()))
    ensures ok == sdk.up
    ensures ok ==> Lookup(c.subnets, c.local).Some? &&
                   cidrs == netCidrs + [Lookup(c.subnets, c.local).value.cidr]
  {
    cidrs := netCidrs;
    var conf := Lookup(c.subnets, c.local);
    if conf.None? {
      sdk.Fail();
      return false, cidrs;
    }
    var s := conf.value;
    var subnet, segment;
    ok, subnet := sdk.Subnets(s.cidr);
    if !ok { return; }
    ok, segment := sdk.Segments(c.physnet);
    if !ok { return; }
    if subnet.Some? {
      if c.routed && subnet.value.segment.None? {
        if segment.None? {
          sdk.Fail();
          return false, cidrs;
        }
        ok := sdk.Send(Associate(subnet.value.id, sdk.store), CanLink(sdk.store),
                       LinkSubnet(sdk.store, subnet.value.id, segment.value.id));
        if !ok { return; }
      }
      ok := NeutronSubnetUpdate(sdk, c, c.local, s, subnet.value.id);
    } else {
      var segmentId := None;
      if c.routed {
        if segment.None? {
          sdk.Fail();
          return false, cidrs;
        }
        segmentId := Some(segment.value.id);
      }
      ok := NeutronSubnetCreate(sdk, c, c.local, s, segmentId);
    }
    cidrs := netCidrs + [s.cidr];
  }

  method RemoteNeutronSegmentAndSubnet(sdk: Connection, c: Conf, name: string, s: SubnetConf) returns (ok: bool)
    requires sdk.up
    modifies sdk
    ensures sdk.State() == Remote(c, name, s, old(sdk.State()))
    ensures ok == sdk.up
  {
    var subnet, segment;
    ok, subnet := sdk.Subnets(s.cidr);
    if !ok { return; }
    ok, segment := sdk.Segments(name);
    if !ok { return; }
    if subnet.Some? {
      ok := NeutronSegmentUpdate(sdk, name, subnet.value.segment);
      if !ok { return; }
      ok := NeutronSubnetUpdate(sdk, c, name, s, subnet.value.id);
    } else {
      var segmentId := sdk.store.nextId;
      if segment.Some? {
        segmentId := segment.value.id;
        ok := NeutronSegmentUpdate(sdk, name, Some(segmentId));
      } else {
        ok := sdk.Send(CreateSegment(name), true, AddSegment(sdk.store, name, name));
      }
      if !ok { return; }
      ok := NeutronSubnetCreate(sdk, c, name, s, Some(segmentId));
    }
  }

  method RemoteNeutronSegmentsAndSubnets(sdk: Connection, c: Conf, netCidrs: seq<string>)
    returns (ok: bool, cidrs: seq<string>)
    requires sdk.up
    modifies sdk
    ensures sdk.State() == Remotes(c, |c.subnets|, old(sdk.State()))
    ensures ok == sdk.up
    ensures ok ==> cidrs == netCidrs + RemoteCidrs(c, |c.subnets|)
  {
    ok, cidrs := true, netCidrs;
    ghost var x := sdk.State();
    for n := 0 to |c.subnets|
      invariant ok && sdk.up
      invariant sdk.State() == Remotes(c, n, x)
      invariant cidrs == netCidrs + RemoteCidrs(c, n)
    {
      ok, cidrs := RemoteTurn(sdk, c, n, cidrs);
      RemotesTurn(c, n, x, netCidrs);
      if !ok { return; }
    }
  }

  method RemoteTurn(sdk: Connection, c: Conf, n: nat, netCidrs: seq<string>) returns (ok: bool, cidrs: seq<string>)
    requires sdk.up && n < |c.subnets|
    modifies sdk
    ensures sdk.State() == Turn(c, n, old(sdk.State()))
    ensures ok == sdk.up
    ensures ok ==> cidrs == netCidrs + if c.subnets[n].0 == c.local then [] else [c.subnets[n].1.cidr]
  {
    ok, cidrs := true, netCidrs;
    var (name, s) := c.subnets[n];
    if name != c.local {
      ok := RemoteNeutronSegmentAndSubnet(sdk, c, name, s);
      cidrs := cidrs + [s.cidr];
    }
  }

  lemma RemotesTurn(c: Conf, n: nat, x: Exec, start: seq<string>)
    requires n < |c.subnets|
    ensures var y := Turn(c, n, Remotes(c, n, x));
            y == Remotes(c, if y.up then n + 1 else |c.subnets|, x)
    ensures start + RemoteCidrs(c, n) + (if c.subnets[n].0 == c.local then [] else [c.subnets[n].1.cidr]) ==
              start + RemoteCidrs(c, n + 1)
  {
    if !Remotes(c, n + 1, x).up {
      RemotesStayDown(c, n + 1, |c.subnets|, x);
    }
  }

  /** What each turn keeps, the loop keeps. */
  lemma {:induction false} RemotesKeep(c: Conf, n: nat, x: Exec, inv: Exec -> bool)
    requires n <= |c.subnets| && inv(x)
    requires forall k: nat, y :: k < |c.subnets| && inv(y) ==> inv(Turn(c, k, y))
    ensures inv(Remotes(c, n, x))
  {
    if n > 0 {
      RemotesKeep(c, n - 1, x, inv);
    }
  }

  lemma RemotesStayDown(c: Conf, n: nat, m: nat, x: Exec)
    requires n <= m <= |c.subnets| && !Remotes(c, n, x).up
    ensures Remotes(c, m, x) == Remotes(c, n, x)
  {
    if n < m {
      RemotesStayDown(c, n, m - 1, x);
    }
  }

  /** The whole script (when Neutron is enabled at all). */
  method ConfigureCtlplane(sdk: Connection, c: Conf) returns (ok: bool)
    requires sdk.up
    modifies sdk
    ensures sdk.State() == Run(c, old(sdk.State()))
    ensures ok == sdk.up
  {
    var cidrs;
    ghost var x := sdk.State();
    ok := EnsureNeutronNetwork(sdk, c);
    if !ok {
      DeadRun(c, x);
      return;
    }
    ok, cidrs := LocalNeutronSegmentsAndSubnets(sdk, c, []);
    if !ok {
      DeadRemotes(c, |c.subnets|, sdk.State());
      return;
    }
    if c.routed {
      ok, cidrs := RemoteNeutronSegmentsAndSubnets(sdk, c, cidrs);
      if !ok { return; }
    }
    assert cidrs == Tags(c);
    ok := sdk.Send(SetTags, true, PutTags(sdk.store, cidrs));
  }

  lemma DeadRemotes(c: Conf, n: nat, x: Exec)
    requires n <= |c.subnets| && !x.up
    ensures Remotes(c, n, x) == x
  {
  }

  /** A run whose first step dies does nothing more. */
  lemma DeadRun(c: Conf, x: Exec)
    requires !EnsureNetwork(c, x).up
    ensures Run(c, x) == EnsureNetwork(c, x)
  {
    DeadRemotes(c, |c.subnets|, EnsureNetwork(c, x));
  }
}
