/** Migrating a flat network to a routed one is safe over every history of complete and
    aborted runs. */
module CtlplaneMigration {
  import opened Sequences
  import opened Wrappers
  import opened Neutron
  import opened Ctlplane

  /** One run: its configuration, the calls that succeed before one raises, and the ids
      handed out to other clients before it starts. */
  datatype Try = Try(conf: Conf, budget: nat, skip: nat)

  function Begin(x: Exec, t: Try): Exec {
    Exec(x.store.(nextId := x.store.nextId + t.skip), t.budget, x.log, true)
  }

  /** Runs one after the other, from a cloud without the network. */
  function History(tries: seq<Try>): Exec {
    if tries == [] then Exec(EMPTY_STORE, 0, [], true) else
      var t := tries[|tries| - 1];
      Run(t.conf, Begin(History(tries[..|tries| - 1]), t))
  }

  /** What must not change from run to run: the physical network and the local CIDR. */
  predicate Keeps(c: Conf, physnet: string, cidr: string) {
    && c.physnet == physnet
    && (Lookup(c.subnets, c.local).Some? ==> Lookup(c.subnets, c.local).value.cidr == cidr)
  }

  /** The local subnet comes first, and while it has no segment it is alone with the
      implicit one. */
  predicate LocalFirst(st: Store, physnet: string, cidr: string) {
    && (st.network.None? ==> st.segments == [] && st.subnets == [])
    && (st.network.Some? ==> st.segments != [] && st.segments[0].physnet == physnet)
    && (st.subnets == [] ==> |st.segments| <= 1)
    && (st.subnets != [] ==> st.subnets[0].cidr == cidr)
    && (st.subnets != [] && st.subnets[0].segment.None? ==> |st.subnets| == 1 && |st.segments| == 1)
  }

  /** If the call is an association, it is for the only subnet, which is the local one and
      has no segment, with only the implicit segment there. */
  predicate SafeCall(call: Call, physnet: string, cidr: string) {
    call.Associate? ==>
      && |call.seen.segments| == 1 && |call.seen.subnets| == 1
      && call.seen.segments[0].physnet == physnet
      && call.seen.subnets[0].cidr == cidr
      && call.seen.subnets[0].id == call.target
      && call.seen.subnets[0].segment.None?
  }

  predicate Safe(x: Exec, physnet: string, cidr: string) {
    && LocalFirst(x.store, physnet, cidr)
    && forall call :: call in x.log ==> SafeCall(call, physnet, cidr)
  }

  lemma NewSubnetSafe(c: Conf, name: string, s: SubnetConf, segment: Option<Id>, x: Exec, physnet: string, cidr: string)
    requires Safe(x, physnet, cidr)
    requires x.up ==> x.store.network.Some?
    requires x.up ==> if x.store.subnets == [] then s.cidr == cidr else x.store.subnets[0].segment.Some?
    ensures Safe(NewSubnet(c, name, s, segment, x), physnet, cidr)
    ensures var y := NewSubnet(c, name, s, segment, x);
            y.up ==> y.store.network.Some? && y.store.subnets != [] &&
                     y.store.subnets[0].segment == if x.store.subnets == [] then segment else x.store.subnets[0].segment
  {
    var y := Issue(x, CreateSubnet(s.cidr), true,
                   AddSubnet(x.store, s.cidr, if IsV6(s.cidr) then Wanted(c, name, s).(routes := []) else Wanted(c, name, s), segment));
    assert Safe(y, physnet, cidr);
  }

  /** The local subnet is there and, if `linked`, on a segment. */
  predicate LocalThere(x: Exec, linked: bool) {
    x.up ==> x.store.network.Some? && x.store.subnets != [] && (linked ==> x.store.subnets[0].segment.Some?)
  }

  lemma LocalSubnetSafe(c: Conf, s: SubnetConf, x: Exec, physnet: string)
    requires Safe(x, physnet, s.cidr) && c.physnet == physnet && x.up && x.store.network.Some?
    ensures Safe(LocalSubnet(c, s, x), physnet, s.cidr) && LocalThere(LocalSubnet(c, s, x), c.routed)
  {
    var i := SubnetIndex(x.store.subnets, s.cidr);
    assert SegmentIndex(x.store.segments, c.physnet) == Some(0);
    if i.None? {
      var segment := if c.routed then Some(x.store.segments[0].id) else None;
      NewSubnetSafe(c, c.local, s, segment, x, physnet, s.cidr);
    } else {
      assert i == Some(0);
    }
  }

  lemma LocalSafe(c: Conf, x: Exec, physnet: string, cidr: string)
    requires Safe(x, physnet, cidr) && Keeps(c, physnet, cidr)
    requires x.up ==> x.store.network.Some?
    ensures Safe(Local(c, x), physnet, cidr) && LocalThere(Local(c, x), c.routed)
  {
    var conf := Lookup(c.subnets, c.local);
    if conf.Some? {
      var y := Listed(cidr, c.physnet, x);
      if y.up {
        LocalSubnetSafe(c, conf.value, y, physnet);
      }
    }
  }

  lemma RemoteSubnetSafe(c: Conf, name: string, s: SubnetConf, x: Exec, physnet: string, cidr: string)
    requires Safe(x, physnet, cidr) && LocalThere(x, true) && x.up
    ensures Safe(RemoteSubnet(c, name, s, x), physnet, cidr) && LocalThere(RemoteSubnet(c, name, s, x), true)
  {
    if SubnetIndex(x.store.subnets, s.cidr).None? {
      var k := SegmentIndex(x.store.segments, name);
      if k.Some? {
        var id := x.store.segments[k.value].id;
        NewSubnetSafe(c, name, s, Some(id), NameSegment(name, Some(id), x), physnet, cidr);
      } else {
        var z := Issue(x, CreateSegment(name), true, AddSegment(x.store, name, name));
        NewSubnetSafe(c, name, s, Some(x.store.nextId), z, physnet, cidr);
      }
    }
  }

  lemma TurnSafe(c: Conf, n: nat, x: Exec, physnet: string, cidr: string)
    requires n < |c.subnets| && Safe(x, physnet, cidr) && LocalThere(x, true)
    ensures Safe(Turn(c, n, x), physnet, cidr) && LocalThere(Turn(c, n, x), true)
  {
    var (name, s) := c.subnets[n];
    var y := Listed(s.cidr, name, x);
    if y.up {
      RemoteSubnetSafe(c, name, s, y, physnet, cidr);
    }
  }

  lemma RemotesSafe(c: Conf, x: Exec, physnet: string, cidr: string)
    requires Safe(x, physnet, cidr) && LocalThere(x, true)
    ensures Safe(Remotes(c, |c.subnets|, x), physnet, cidr) && LocalThere(Remotes(c, |c.subnets|, x), true)
  {
    forall k: nat, y | k < |c.subnets| && Safe(y, physnet, cidr) && LocalThere(y, true)
      ensures Safe(Turn(c, k, y), physnet, cidr) && LocalThere(Turn(c, k, y), true)
    {
      TurnSafe(c, k, y, physnet, cidr);
    }
    RemotesKeep(c, |c.subnets|, x, y => Safe(y, physnet, cidr) && LocalThere(y, true));
  }

  lemma RunSafe(c: Conf, x: Exec, physnet: string, cidr: string)
    requires Safe(x, physnet, cidr) && Keeps(c, physnet, cidr) && x.up
    ensures Safe(Run(c, x), physnet, cidr)
    ensures Run(c, x).up && c.routed ==>
              Run(c, x).store.subnets != [] && Run(c, x).store.subnets[0].segment.Some?
  {
    var y := EnsureNetwork(c, x);
    assert Safe(y, physnet, cidr);
    LocalSafe(c, y, physnet, cidr);
    if c.routed {
      RemotesSafe(c, Local(c, y), physnet, cidr);
    }
  }

  /** Over any history that keeps the physical network and the local CIDR, each association
      is made when Neutron accepts it, and a complete routed run ends with the local subnet
      on a segment. */
  lemma {:induction false} MigrationSafe(tries: seq<Try>, physnet: string, cidr: string)
    requires forall t :: t in tries ==> Keeps(t.conf, physnet, cidr)
    ensures forall call :: call in History(tries).log ==> SafeCall(call, physnet, cidr)
    ensures LocalFirst(History(tries).store, physnet, cidr)
    ensures tries != [] && tries[|tries| - 1].conf.routed && History(tries).up ==>
              History(tries).store.subnets != [] && History(tries).store.subnets[0].segment.Some?
  {
    if tries != [] {
      var before, t := tries[..|tries| - 1], tries[|tries| - 1];
      MigrationSafe(before, physnet, cidr);
      RunSafe(t.conf, Begin(History(before), t), physnet, cidr);
    }
  }
}
