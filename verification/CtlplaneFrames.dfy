/** What a run leaves alone: calls that do not create or associate keep all ids and links. */
module CtlplaneFrames {
  import opened Sequences
  import opened Wrappers
  import opened Neutron
  import opened Ctlplane
  import opened CtlplaneViews
  import opened CtlplaneRefinement

  /** The same ids, CIDRs and links. */
  predicate SameShape(st: Store, st': Store) {
    && |st'.segments| == |st.segments| && |st'.subnets| == |st.subnets|
    && (forall k :: 0 <= k < |st.segments| ==>
          st'.segments[k].id == st.segments[k].id && st'.segments[k].physnet == st.segments[k].physnet)
    && (forall i :: 0 <= i < |st.subnets| ==>
          && st'.subnets[i].id == st.subnets[i].id && st'.subnets[i].cidr == st.subnets[i].cidr
          && st'.subnets[i].segment == st.subnets[i].segment)
    && st'.routers == st.routers && st'.nextId == st.nextId
  }

  /** None of the calls that create a network, segment, subnet or router, attach one to
      another, or associate a subnet with a segment. */
  predicate OnlyListsOrUpdates(call: Call) {
    || call.ListNetworks? || call.ListSubnets? || call.ListSegments?
    || call.UpdateNetwork? || call.UpdateSegment? || call.UpdateSubnet? || call.SetTags?
  }

  /** Execution went on from `x` to `y`, and kept the shape if it created nothing. */
  predicate Framed(x: Exec, y: Exec) {
    && x.log <= y.log
    && Created(x.log) <= Created(y.log)
    && (Created(x.log) == Created(y.log) ==>
          SameShape(x.store, y.store) && forall i :: |x.log| <= i < |y.log| ==> OnlyListsOrUpdates(y.log[i]))
  }

  lemma FramedThen(x: Exec, y: Exec, z: Exec)
    requires Framed(x, y) && Framed(y, z)
    ensures Framed(x, z)
  {
  }

  lemma IssueFramed(x: Exec, call: Call, accepted: bool, after: Store)
    requires !call.Creates() ==> SameShape(x.store, after)
    ensures Framed(x, Issue(x, call, accepted, after))
  {
    assert (x.log + [call])[..|x.log|] == x.log;
  }

  lemma ListedFramed(cidr: string, physnet: string, x: Exec)
    ensures Framed(x, Listed(cidr, physnet, x))
  {
    var y := Issue(x, ListSubnets(cidr), true, x.store);
    IssueFramed(x, ListSubnets(cidr), true, x.store);
    IssueFramed(y, ListSegments(physnet), true, x.store);
    FramedThen(x, y, Listed(cidr, physnet, x));
  }

  lemma NewSubnetFramed(c: Conf, name: string, s: SubnetConf, segment: Option<Id>, x: Exec)
    ensures Framed(x, NewSubnet(c, name, s, segment, x))
  {
    var made := AddSubnet(x.store, s.cidr, Final(c, name, s), segment);
    var y := Issue(x, CreateSubnet(s.cidr), true, made);
    IssueFramed(x, CreateSubnet(s.cidr), true, made);
    if IsV6(s.cidr) {
      var z := Issue(y, CreateRouter(name), true, AddRouter(y.store, name));
      IssueFramed(y, CreateRouter(name), true, AddRouter(y.store, name));
      IssueFramed(z, AddInterface(y.store.nextId), true, AttachSubnet(z.store, y.store.nextId, x.store.nextId));
      FramedThen(x, y, z);
      FramedThen(x, z, NewSubnet(c, name, s, segment, x));
    }
  }

  lemma ExistingSubnetFramed(c: Conf, name: string, s: SubnetConf, id: Id, x: Exec)
    ensures Framed(x, ExistingSubnet(c, name, s, id, x))
  {
    IssueFramed(x, UpdateSubnet(id), true, SetAttrs(x.store, id, Wanted(c, name, s), !IsV6(s.cidr)));
  }

  lemma NameSegmentFramed(name: string, segment: Option<Id>, x: Exec)
    ensures Framed(x, NameSegment(name, segment, x))
  {
    IssueFramed(x, UpdateSegment(segment), segment.Some?, RenameSegment(x.store, segment, name));
  }

  lemma LocalSubnetFramed(c: Conf, s: SubnetConf, x: Exec)
    ensures Framed(x, LocalSubnet(c, s, x))
  {
    var i := SubnetIndex(x.store.subnets, s.cidr);
    var k := SegmentIndex(x.store.segments, c.physnet);
    if i.Some? {
      var id := x.store.subnets[i.value].id;
      ExistingSubnetFramed(c, c.local, s, id, x);
      if k.Some? {
        var z := Link(id, x.store.segments[k.value].id, x);
        IssueFramed(x, Associate(id, x.store), CanLink(x.store), LinkSubnet(x.store, id, x.store.segments[k.value].id));
        ExistingSubnetFramed(c, c.local, s, id, z);
        FramedThen(x, z, ExistingSubnet(c, c.local, s, id, z));
      }
    } else {
      NewSubnetFramed(c, c.local, s, None, x);
      if k.Some? {
        NewSubnetFramed(c, c.local, s, Some(x.store.segments[k.value].id), x);
      }
    }
  }

  lemma LocalFramed(c: Conf, x: Exec)
    ensures Framed(x, Local(c, x))
  {
    var conf := Lookup(c.subnets, c.local);
    if conf.Some? {
      var y := Listed(conf.value.cidr, c.physnet, x);
      ListedFramed(conf.value.cidr, c.physnet, x);
      LocalSubnetFramed(c, conf.value, y);
      FramedThen(x, y, LocalSubnet(c, conf.value, y));
    }
  }

  lemma RemoteSubnetFramed(c: Conf, name: string, s: SubnetConf, x: Exec)
    ensures Framed(x, RemoteSubnet(c, name, s, x))
  {
    var i := SubnetIndex(x.store.subnets, s.cidr);
    var k := SegmentIndex(x.store.segments, name);
    var y := RemoteSubnet(c, name, s, x);
    if i.Some? {
      var subnet := x.store.subnets[i.value];
      var z := NameSegment(name, subnet.segment, x);
      NameSegmentFramed(name, subnet.segment, x);
      ExistingSubnetFramed(c, name, s, subnet.id, z);
      FramedThen(x, z, y);
    } else if k.Some? {
      var id := Some(x.store.segments[k.value].id);
      var z := NameSegment(name, id, x);
      NameSegmentFramed(name, id, x);
      NewSubnetFramed(c, name, s, id, z);
      FramedThen(x, z, y);
    } else {
      var z := Issue(x, CreateSegment(name), true, AddSegment(x.store, name, name));
      IssueFramed(x, CreateSegment(name), true, AddSegment(x.store, name, name));
      NewSubnetFramed(c, name, s, Some(x.store.nextId), z);
      FramedThen(x, z, y);
    }
  }

  lemma TurnFramed(c: Conf, n: nat, x: Exec)
    requires n < |c.subnets|
    ensures Framed(x, Turn(c, n, x))
  {
    var (name, s) := c.subnets[n];
    if name != c.local {
      var y := Listed(s.cidr, name, x);
      ListedFramed(s.cidr, name, x);
      RemoteSubnetFramed(c, name, s, y);
      FramedThen(x, y, RemoteSubnet(c, name, s, y));
    }
  }

  lemma RemotesFramed(c: Conf, x: Exec)
    ensures Framed(x, Remotes(c, |c.subnets|, x))
  {
    forall k: nat, y | k < |c.subnets| && Framed(x, y)
      ensures Framed(x, Turn(c, k, y))
    {
      TurnFramed(c, k, y);
      FramedThen(x, y, Turn(c, k, y));
    }
    RemotesKeep(c, |c.subnets|, x, y => Framed(x, y));
  }

  lemma EnsureNetworkFramed(c: Conf, x: Exec)
    ensures Framed(x, EnsureNetwork(c, x))
  {
    var y := Issue(x, ListNetworks, true, x.store);
    IssueFramed(x, ListNetworks, true, x.store);
    if x.store.network.None? {
      IssueFramed(y, CreateNetwork, true, AddNetwork(y.store, c.mtu, c.physnet));
    } else {
      IssueFramed(y, UpdateNetwork, true, SetMtu(y.store, c.mtu));
    }
    FramedThen(x, y, EnsureNetwork(c, x));
  }

  lemma RunFramed(c: Conf, x: Exec)
    ensures Framed(x, Run(c, x))
  {
    var e := EnsureNetwork(c, x);
    EnsureNetworkFramed(c, x);
    var l := Local(c, e);
    LocalFramed(c, e);
    FramedThen(x, e, l);
    var r := if c.routed then Remotes(c, |c.subnets|, l) else l;
    if c.routed {
      RemotesFramed(c, l);
      FramedThen(x, l, r);
    }
    IssueFramed(r, SetTags, true, PutTags(r.store, Tags(c)));
    FramedThen(x, r, Run(c, x));
  }

  /** Shape and view determine the store. */
  lemma SameStore(st: Store, st': Store)
    requires Sound(st) && Sound(st') && SameShape(st, st') && ViewOf(st) == ViewOf(st')
    ensures st == st'
  {
    forall k | 0 <= k < |st.segments|
      ensures st'.segments[k] == st.segments[k]
    {
      NameIs(st, k);
      NameIs(st', k);
    }
    assert st'.segments == st.segments;
    forall i | 0 <= i < |st.subnets|
      ensures st'.subnets[i] == st.subnets[i]
    {
      EntryIs(st, i);
      EntryIs(st', i);
    }
    assert st'.subnets == st.subnets;
  }
}
