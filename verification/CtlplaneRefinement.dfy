/** The script on views: the same calls, aborts and refusals, but on a network without ids.
    Every run on a sound store is, seen without ids, the run on its view. */
module CtlplaneRefinement {
  import opened Sequences
  import opened Wrappers
  import opened Neutron
  import opened Ctlplane
  import opened CtlplaneMigration
  import opened CtlplaneViews

  /** An execution on views, which counts the calls that create or associate. */
  datatype Exec' = Exec'(view: View, budget: nat, created: nat, up: bool)

  function Crash'(x: Exec'): Exec' {
    x.(up := false)
  }

  function Issue'(x: Exec', creates: bool, accepted: bool, after: View): Exec' {
    var created := x.created + if creates then 1 else 0;
    if !x.up then x
    else if x.budget == 0 then Exec'(x.view, 0, created, false)
    else if !accepted then Exec'(x.view, x.budget - 1, created, false)
    else Exec'(after, x.budget - 1, created, true)
  }

  /** The attributes a subnet ends with: an IPv6 subnet has no routes. */
  function Final(c: Conf, name: string, s: SubnetConf): Attrs {
    if IsV6(s.cidr) then Wanted(c, name, s).(routes := []) else Wanted(c, name, s)
  }

  // ---------- updates of a view ----------

  function PutEntry(v: View, cidr: string, e: Entry): View {
    v.(entries := v.entries[cidr := e])
  }

  function PutAttrs(v: View, cidr: string, attrs: Attrs): View {
    if cidr in v.entries then PutEntry(v, cidr, v.entries[cidr].(attrs := attrs)) else v
  }

  function PutRouter(v: View, cidr: string, name: string): View {
    if cidr in v.entries then PutEntry(v, cidr, v.entries[cidr].(routers := v.entries[cidr].routers + {name})) else v
  }

  function PutLink(v: View, cidr: string, physnet: string): View {
    if cidr in v.entries then PutEntry(v, cidr, v.entries[cidr].(physnet := Some(physnet))) else v
  }

  function PutName(v: View, physnet: Option<string>, name: string): View {
    if physnet.Some? then v.(names := v.names[physnet.value := name]) else v
  }

  function PutMtu(v: View, mtu: nat): View {
    if v.network.Some? then v.(network := Some(v.network.value.(mtu := mtu))) else v
  }

  function NoteTags(v: View, tags: seq<string>): View {
    if v.network.Some? then v.(network := Some(v.network.value.(tags := tags))) else v
  }

  predicate Alone(v: View) {
    |v.names| == 1 && |v.entries| == 1
  }

  // ---------- the script ----------

  function EnsureNetwork'(c: Conf, x: Exec'): Exec' {
    var y := Issue'(x, false, true, x.view);
    if x.view.network.None? then
      Issue'(y, true, true, y.view.(network := Some(Network(c.mtu, [])), names := y.view.names[c.physnet := ""]))
    else
      Issue'(y, false, true, PutMtu(y.view, c.mtu))
  }

  function NewSubnet'(c: Conf, name: string, s: SubnetConf, physnet: Option<string>, x: Exec'): Exec' {
    var y := Issue'(x, true, true, PutEntry(x.view, s.cidr, Entry(Final(c, name, s), physnet, {})));
    if IsV6(s.cidr) then
      var z := Issue'(y, true, true, y.view);
      Issue'(z, true, true, PutRouter(z.view, s.cidr, name))
    else y
  }

  function ExistingSubnet'(c: Conf, name: string, s: SubnetConf, x: Exec'): Exec' {
    Issue'(x, false, true, PutAttrs(x.view, s.cidr, Final(c, name, s)))
  }

  function Listed'(x: Exec'): Exec' {
    Issue'(Issue'(x, false, true, x.view), false, true, x.view)
  }

  function Local'(c: Conf, x: Exec'): Exec' {
    var conf := Lookup(c.subnets, c.local);
    if conf.None? then Crash'(x) else
      var y := Listed'(x);
      if y.up then LocalSubnet'(c, conf.value, y) else y
  }

  function LocalSubnet'(c: Conf, s: SubnetConf, x: Exec'): Exec' {
    if s.cidr in x.view.entries then
      if c.routed && x.view.entries[s.cidr].physnet.None? then
        if c.physnet !in x.view.names then Crash'(x)
        else ExistingSubnet'(c, c.local, s, Issue'(x, true, Alone(x.view), PutLink(x.view, s.cidr, c.physnet)))
      else ExistingSubnet'(c, c.local, s, x)
    else if c.routed then
      if c.physnet !in x.view.names then Crash'(x) else NewSubnet'(c, c.local, s, Some(c.physnet), x)
    else NewSubnet'(c, c.local, s, None, x)
  }

  function Remote'(c: Conf, name: string, s: SubnetConf, x: Exec'): Exec' {
    var y := Listed'(x);
    if y.up then RemoteSubnet'(c, name, s, y) else y
  }

  function RemoteSubnet'(c: Conf, name: string, s: SubnetConf, x: Exec'): Exec' {
    if s.cidr in x.view.entries then
      var physnet := x.view.entries[s.cidr].physnet;
      ExistingSubnet'(c, name, s, Issue'(x, false, physnet.Some?, PutName(x.view, physnet, name)))
    else
      NewSubnet'(c, name, s, Some(name), Issue'(x, name !in x.view.names, true, PutName(x.view, Some(name), name)))
  }

  function Turn'(c: Conf, n: nat, x: Exec'): Exec'
    requires n < |c.subnets|
  {
    if c.subnets[n].0 == c.local then x else Remote'(c, c.subnets[n].0, c.subnets[n].1, x)
  }

  function Remotes'(c: Conf, n: nat, x: Exec'): Exec'
    requires n <= |c.subnets|
  {
    if n == 0 then x else Turn'(c, n - 1, Remotes'(c, n - 1, x))
  }

  function Run'(c: Conf, x: Exec'): Exec' {
    var y := Local'(c, EnsureNetwork'(c, x));
    var z := if c.routed then Remotes'(c, |c.subnets|, y) else y;
    Issue'(z, false, true, NoteTags(z.view, Tags(c)))
  }

  // ---------- an execution seen without ids ----------

  function Created(log: seq<Call>): nat {
    if log == [] then 0
    else Created(log[..|log| - 1]) + if log[|log| - 1].Creates() then 1 else 0
  }

  function Abs(x: Exec): Exec' {
    Exec'(ViewOf(x.store), x.budget, Created(x.log), x.up)
  }

  /** A call refines its counterpart when what it does, if it goes through, does. */
  lemma IssueRefines(x: Exec, call: Call, accepted: bool, after: Store, after': View)
    requires Sound(x.store)
    requires x.up && x.budget > 0 && accepted ==> Sound(after) && ViewOf(after) == after'
    ensures Sound(Issue(x, call, accepted, after).store)
    ensures Abs(Issue(x, call, accepted, after)) == Issue'(Abs(x), call.Creates(), accepted, after')
  {
    assert (x.log + [call])[..|x.log|] == x.log;
  }

  lemma SetMtuView(st: Store, mtu: nat)
    requires Sound(st) && st.network.Some?
    ensures Sound(SetMtu(st, mtu)) && ViewOf(SetMtu(st, mtu)) == PutMtu(ViewOf(st), mtu)
  {
    assert EntriesOf(SetMtu(st, mtu)) == EntriesOf(st);
  }

  lemma PutTagsView(st: Store, tags: seq<string>)
    requires Sound(st)
    ensures Sound(PutTags(st, tags)) && ViewOf(PutTags(st, tags)) == NoteTags(ViewOf(st), tags)
  {
    assert EntriesOf(PutTags(st, tags)) == EntriesOf(st);
  }

  lemma NewNetworkRefines(c: Conf, x: Exec)
    requires Sound(x.store) && x.store.network.None?
    ensures var y, v := Issue(x, CreateNetwork, true, AddNetwork(x.store, c.mtu, c.physnet)), ViewOf(x.store);
            && Sound(y.store)
            && Abs(y) == Issue'(Abs(x), true, true, v.(network := Some(Network(c.mtu, [])), names := v.names[c.physnet := ""]))
  {
    var v := ViewOf(x.store);
    AddNetworkView(x.store, c.mtu, c.physnet);
    IssueRefines(x, CreateNetwork, true, AddNetwork(x.store, c.mtu, c.physnet),
                 v.(network := Some(Network(c.mtu, [])), names := v.names[c.physnet := ""]));
  }

  lemma OldNetworkRefines(c: Conf, x: Exec)
    requires Sound(x.store) && x.store.network.Some?
    ensures var y := Issue(x, UpdateNetwork, true, SetMtu(x.store, c.mtu));
            Sound(y.store) && Abs(y) == Issue'(Abs(x), false, true, PutMtu(ViewOf(x.store), c.mtu))
  {
    SetMtuView(x.store, c.mtu);
    IssueRefines(x, UpdateNetwork, true, SetMtu(x.store, c.mtu), PutMtu(ViewOf(x.store), c.mtu));
  }

  lemma EnsureNetworkRefines(c: Conf, x: Exec)
    requires Sound(x.store)
    ensures Sound(EnsureNetwork(c, x).store) && Abs(EnsureNetwork(c, x)) == EnsureNetwork'(c, Abs(x))
    ensures EnsureNetwork(c, x).up ==> EnsureNetwork(c, x).store.network.Some?
  {
    var y := Issue(x, ListNetworks, true, x.store);
    IssueRefines(x, ListNetworks, true, x.store, ViewOf(x.store));
    if x.store.network.None? {
      NewNetworkRefines(c, y);
    } else {
      OldNetworkRefines(c, y);
    }
  }

  lemma NewSubnetRefines(c: Conf, name: string, s: SubnetConf, segment: Option<Id>, x: Exec)
    requires Sound(x.store)
    requires x.up ==> x.store.network.Some? && s.cidr !in ViewOf(x.store).entries
    requires x.up && segment.Some? ==> segment.value in SegmentIds(x.store.segments)
    ensures var y := NewSubnet(c, name, s, segment, x);
            && Sound(y.store)
            && Abs(y) == NewSubnet'(c, name, s, PhysnetOf(x.store.segments, segment), Abs(x))
  {
    var sent := Final(c, name, s);
    var made := AddSubnet(x.store, s.cidr, sent, segment);
    var y := Issue(x, CreateSubnet(s.cidr), true, made);
    if x.up {
      AddSubnetView(x.store, s.cidr, sent, segment);
    }
    IssueRefines(x, CreateSubnet(s.cidr), true, made,
                 PutEntry(ViewOf(x.store), s.cidr, Entry(sent, PhysnetOf(x.store.segments, segment), {})));
    if IsV6(s.cidr) {
      RouterRefines(name, s.cidr, x, y);
    }
  }

  /** The two router calls after the creation of an IPv6 subnet. */
  lemma RouterRefines(name: string, cidr: string, x: Exec, y: Exec)
    requires Sound(y.store)
    requires y.up ==> |y.store.subnets| > 0 && y.store.subnets[|y.store.subnets| - 1].cidr == cidr &&
                      y.store.subnets[|y.store.subnets| - 1].id == x.store.nextId
    ensures var z := Issue(y, CreateRouter(name), true, AddRouter(y.store, name));
            var w := Issue(z, AddInterface(y.store.nextId), true, AttachSubnet(z.store, y.store.nextId, x.store.nextId));
            var z' := Issue'(Abs(y), true, true, Abs(y).view);
            && Sound(w.store)
            && Abs(w) == Issue'(z', true, true, PutRouter(z'.view, cidr, name))
  {
    var z := Issue(y, CreateRouter(name), true, AddRouter(y.store, name));
    AddRouterView(y.store, name);
    IssueRefines(y, CreateRouter(name), true, AddRouter(y.store, name), ViewOf(y.store));
    if z.up {
      var r, i := |y.store.routers|, |y.store.subnets| - 1;
      assert z.store.routers[r].id == y.store.nextId;
      AttachSubnetView(z.store, r, i);
      EntryIs(z.store, i);
    }
    IssueRefines(z, AddInterface(y.store.nextId), true, AttachSubnet(z.store, y.store.nextId, x.store.nextId),
                 PutRouter(ViewOf(z.store), cidr, name));
  }

  lemma ExistingSubnetRefines(c: Conf, name: string, s: SubnetConf, i: nat, x: Exec)
    requires Sound(x.store) && i < |x.store.subnets| && x.store.subnets[i].cidr == s.cidr
    ensures var y := ExistingSubnet(c, name, s, x.store.subnets[i].id, x);
            Sound(y.store) && Abs(y) == ExistingSubnet'(c, name, s, Abs(x))
  {
    SetAttrsView(x.store, i, Wanted(c, name, s), !IsV6(s.cidr));
    EntryIs(x.store, i);
    IssueRefines(x, UpdateSubnet(x.store.subnets[i].id), true,
                 SetAttrs(x.store, x.store.subnets[i].id, Wanted(c, name, s), !IsV6(s.cidr)),
                 PutAttrs(ViewOf(x.store), s.cidr, Final(c, name, s)));
  }

  lemma ListedRefines(x: Exec, cidr: string, physnet: string)
    requires Sound(x.store)
    ensures Listed(cidr, physnet, x).store == x.store && Abs(Listed(cidr, physnet, x)) == Listed'(Abs(x))
  {
    IssueRefines(x, ListSubnets(cidr), true, x.store, ViewOf(x.store));
    IssueRefines(Issue(x, ListSubnets(cidr), true, x.store), ListSegments(physnet), true, x.store, ViewOf(x.store));
  }

  lemma LinkRefines(cidr: string, i: nat, k: nat, x: Exec)
    requires Sound(x.store) && i < |x.store.subnets| && k < |x.store.segments| && x.store.subnets[i].cidr == cidr
    ensures var y := Link(x.store.subnets[i].id, x.store.segments[k].id, x);
            && Sound(y.store)
            && Abs(y) == Issue'(Abs(x), true, Alone(Abs(x).view), PutLink(Abs(x).view, cidr, x.store.segments[k].physnet))
            && (y.up ==> i < |y.store.subnets| && y.store.subnets[i].cidr == cidr && y.store.subnets[i].id == x.store.subnets[i].id)
  {
    LinkSubnetView(x.store, i, k);
    EntryIs(x.store, i);
    CanLinkView(x.store);
    IssueRefines(x, Associate(x.store.subnets[i].id, x.store), CanLink(x.store),
                 LinkSubnet(x.store, x.store.subnets[i].id, x.store.segments[k].id),
                 PutLink(ViewOf(x.store), cidr, x.store.segments[k].physnet));
  }

  lemma LocalFoundRefines(c: Conf, s: SubnetConf, i: nat, y: Exec)
    requires Sound(y.store) && SubnetIndex(y.store.subnets, s.cidr) == Some(i) && y.up
    requires c.routed && y.store.subnets[i].segment.None?
    requires SegmentIndex(y.store.segments, c.physnet).Some?
    ensures var k := SegmentIndex(y.store.segments, c.physnet).value;
            var w := ExistingSubnet(c, c.local, s, y.store.subnets[i].id, Link(y.store.subnets[i].id, y.store.segments[k].id, y));
            var v := Abs(y).view;
            && Sound(w.store)
            && Abs(w) == ExistingSubnet'(c, c.local, s, Issue'(Abs(y), true, Alone(v), PutLink(v, s.cidr, c.physnet)))
  {
    var k := SegmentIndex(y.store.segments, c.physnet).value;
    LinkRefines(s.cidr, i, k, y);
    var z := Link(y.store.subnets[i].id, y.store.segments[k].id, y);
    if z.up {
      ExistingSubnetRefines(c, c.local, s, i, z);
    }
  }

  lemma LocalNewRefines(c: Conf, s: SubnetConf, k: nat, x: Exec)
    requires Sound(x.store) && x.up && x.store.network.Some? && s.cidr !in ViewOf(x.store).entries
    requires k < |x.store.segments| && x.store.segments[k].physnet == c.physnet
    ensures var y := NewSubnet(c, c.local, s, Some(x.store.segments[k].id), x);
            Sound(y.store) && Abs(y) == NewSubnet'(c, c.local, s, Some(c.physnet), Abs(x))
  {
    PhysnetIs(x.store, k);
    assert SegmentIds(x.store.segments)[k] == x.store.segments[k].id;
    NewSubnetRefines(c, c.local, s, Some(x.store.segments[k].id), x);
  }

  lemma LocalSubnetRefines(c: Conf, s: SubnetConf, x: Exec)
    requires Sound(x.store) && x.up && x.store.network.Some?
    ensures Sound(LocalSubnet(c, s, x).store) && Abs(LocalSubnet(c, s, x)) == LocalSubnet'(c, s, Abs(x))
  {
    EntryFound(x.store, s.cidr);
    NameFound(x.store, c.physnet);
    var i := SubnetIndex(x.store.subnets, s.cidr);
    var k := SegmentIndex(x.store.segments, c.physnet);
    if i.Some? && !(c.routed && x.store.subnets[i.value].segment.None?) {
      ExistingSubnetRefines(c, c.local, s, i.value, x);
    } else if i.Some? && k.Some? {
      LocalFoundRefines(c, s, i.value, x);
    } else if i.None? && !c.routed {
      NewSubnetRefines(c, c.local, s, None, x);
    } else if i.None? && k.Some? {
      LocalNewRefines(c, s, k.value, x);
    }
  }

  lemma LocalRefines(c: Conf, x: Exec)
    requires Sound(x.store) && (x.up ==> x.store.network.Some?)
    ensures Sound(Local(c, x).store) && Abs(Local(c, x)) == Local'(c, Abs(x))
    ensures Local(c, x).up ==> Local(c, x).store.network.Some?
  {
    var conf := Lookup(c.subnets, c.local);
    if conf.Some? {
      var y := Listed(conf.value.cidr, c.physnet, x);
      ListedRefines(x, conf.value.cidr, c.physnet);
      if y.up {
        LocalSubnetRefines(c, conf.value, y);
        LocalKeepsNetwork(c, conf.value, Abs(y));
        assert Abs(Local(c, x)).view.network == Local(c, x).store.network;
      }
    }
  }

  lemma LocalKeepsNetwork(c: Conf, s: SubnetConf, x: Exec')
    ensures LocalSubnet'(c, s, x).view.network == x.view.network
  {
  }

  lemma NameSegmentRefines(name: string, k: nat, x: Exec)
    requires Sound(x.store) && k < |x.store.segments|
    ensures var y := NameSegment(name, Some(x.store.segments[k].id), x);
            && Sound(y.store)
            && Abs(y) == Issue'(Abs(x), false, true, PutName(Abs(x).view, Some(x.store.segments[k].physnet), name))
            && y.store.subnets == x.store.subnets && y.store.network == x.store.network
            && SegmentIds(y.store.segments) == SegmentIds(x.store.segments)
            && Physnets(y.store.segments) == Physnets(x.store.segments)
  {
    RenameSegmentIs(x.store, k, name);
    RenameSegmentView(x.store, k, name);
    IssueRefines(x, UpdateSegment(Some(x.store.segments[k].id)), true,
                 RenameSegment(x.store, Some(x.store.segments[k].id), name),
                 PutName(ViewOf(x.store), Some(x.store.segments[k].physnet), name));
  }

  lemma LinkedRenameRefines(name: string, i: nat, x: Exec)
    requires Sound(x.store) && i < |x.store.subnets|
    ensures var y := NameSegment(name, x.store.subnets[i].segment, x);
            var physnet := EntryAt(x.store, i).physnet;
            && Sound(y.store) && y.store.subnets == x.store.subnets
            && Abs(y) == Issue'(Abs(x), false, physnet.Some?, PutName(Abs(x).view, physnet, name))
  {
    var segment := x.store.subnets[i].segment;
    if segment.Some? {
      var k := IndexOf(SegmentIds(x.store.segments), segment.value).value;
      assert SegmentIds(x.store.segments)[k] == x.store.segments[k].id;
      NameSegmentRefines(name, k, x);
    } else {
      IssueRefines(x, UpdateSegment(segment), false, RenameSegment(x.store, segment, name), ViewOf(x.store));
    }
  }

  lemma RemoteFoundRefines(c: Conf, name: string, s: SubnetConf, i: nat, x: Exec)
    requires Sound(x.store) && SubnetIndex(x.store.subnets, s.cidr) == Some(i)
    ensures var y := ExistingSubnet(c, name, s, x.store.subnets[i].id, NameSegment(name, x.store.subnets[i].segment, x));
            var physnet := EntryAt(x.store, i).physnet;
            && Sound(y.store)
            && Abs(y) == ExistingSubnet'(c, name, s, Issue'(Abs(x), false, physnet.Some?, PutName(Abs(x).view, physnet, name)))
  {
    LinkedRenameRefines(name, i, x);
    ExistingSubnetRefines(c, name, s, i, NameSegment(name, x.store.subnets[i].segment, x));
  }

  lemma RemoteNamedRefines(c: Conf, name: string, s: SubnetConf, k: nat, x: Exec)
    requires Sound(x.store) && (x.up ==> x.store.network.Some?) && s.cidr !in ViewOf(x.store).entries
    requires SegmentIndex(x.store.segments, name) == Some(k)
    ensures var id := Some(x.store.segments[k].id);
            var y := NewSubnet(c, name, s, id, NameSegment(name, id, x));
            && Sound(y.store)
            && Abs(y) == NewSubnet'(c, name, s, Some(name), Issue'(Abs(x), false, true, PutName(Abs(x).view, Some(name), name)))
  {
    var id := x.store.segments[k].id;
    var z := NameSegment(name, Some(id), x);
    NameSegmentRefines(name, k, x);
    PhysnetIs(x.store, k);
    SamePhysnet(x.store.segments, z.store.segments, Some(id));
    assert SegmentIds(x.store.segments)[k] == id;
    NewSubnetRefines(c, name, s, Some(id), z);
  }

  lemma RemoteFreshRefines(c: Conf, name: string, s: SubnetConf, x: Exec)
    requires Sound(x.store) && (x.up ==> x.store.network.Some?) && s.cidr !in ViewOf(x.store).entries
    requires name !in ViewOf(x.store).names
    ensures var z := Issue(x, CreateSegment(name), true, AddSegment(x.store, name, name));
            var y := NewSubnet(c, name, s, Some(x.store.nextId), z);
            && Sound(y.store)
            && (x.up ==> Abs(y) == NewSubnet'(c, name, s, Some(name), Issue'(Abs(x), true, true, PutName(Abs(x).view, Some(name), name))))
  {
    var st' := AddSegment(x.store, name, name);
    var z := Issue(x, CreateSegment(name), true, st');
    var k := |x.store.segments|;
    if x.up {
      AddSegmentView(x.store, name, name);
    }
    IssueRefines(x, CreateSegment(name), true, st', PutName(ViewOf(x.store), Some(name), name));
    if z.up {
      PhysnetIs(st', k);
      assert SegmentIds(st'.segments)[k] == x.store.nextId;
    }
    NewSubnetRefines(c, name, s, Some(x.store.nextId), z);
    if !z.up {
      DeadNewSubnet(c, name, s, Some(name), PhysnetOf(z.store.segments, Some(x.store.nextId)), Abs(z));
    }
  }

  /** A script that has died creates no subnet anywhere. */
  lemma DeadNewSubnet(c: Conf, name: string, s: SubnetConf, physnet: Option<string>, other: Option<string>, x: Exec')
    requires !x.up
    ensures NewSubnet'(c, name, s, physnet, x) == x == NewSubnet'(c, name, s, other, x)
  {
  }

  lemma RemoteSubnetRefines(c: Conf, name: string, s: SubnetConf, x: Exec)
    requires Sound(x.store) && x.up && x.store.network.Some?
    ensures Sound(RemoteSubnet(c, name, s, x).store)
    ensures Abs(RemoteSubnet(c, name, s, x)) == RemoteSubnet'(c, name, s, Abs(x))
  {
    EntryFound(x.store, s.cidr);
    NameFound(x.store, name);
    var i := SubnetIndex(x.store.subnets, s.cidr);
    var k := SegmentIndex(x.store.segments, name);
    if i.Some? {
      RemoteFoundRefines(c, name, s, i.value, x);
    } else if k.Some? {
      RemoteNamedRefines(c, name, s, k.value, x);
    } else {
      RemoteFreshRefines(c, name, s, x);
    }
  }

  lemma RemoteRefines(c: Conf, name: string, s: SubnetConf, x: Exec)
    requires Sound(x.store) && (x.up ==> x.store.network.Some?)
    ensures Sound(Remote(c, name, s, x).store) && Abs(Remote(c, name, s, x)) == Remote'(c, name, s, Abs(x))
  {
    ListedRefines(x, s.cidr, name);
    var y := Listed(s.cidr, name, x);
    if y.up {
      RemoteSubnetRefines(c, name, s, y);
    }
  }

  lemma RemoteKeepsNetwork(c: Conf, name: string, s: SubnetConf, x: Exec')
    ensures Remote'(c, name, s, x).view.network == x.view.network
    ensures Remote'(c, name, s, x).up ==> x.up
  {
  }

  lemma {:induction false} RemotesRefine(c: Conf, n: nat, x: Exec)
    requires n <= |c.subnets| && Sound(x.store) && (x.up ==> x.store.network.Some?)
    ensures Sound(Remotes(c, n, x).store) && Abs(Remotes(c, n, x)) == Remotes'(c, n, Abs(x))
    ensures Remotes(c, n, x).up ==> Remotes(c, n, x).store.network.Some?
  {
    if n > 0 {
      RemotesRefine(c, n - 1, x);
      var y := Remotes(c, n - 1, x);
      if c.subnets[n - 1].0 != c.local {
        RemoteRefines(c, c.subnets[n - 1].0, c.subnets[n - 1].1, y);
        RemoteKeepsNetwork(c, c.subnets[n - 1].0, c.subnets[n - 1].1, Abs(y));
        assert Abs(Remotes(c, n, x)).view.network == Remotes(c, n, x).store.network;
      }
    }
  }

  /** Refinement: with any configuration and any number of calls before one raises, a run on
      a sound store is the run on its view, and leaves a sound store. */
  lemma RunRefines(c: Conf, x: Exec)
    requires Sound(x.store)
    ensures Sound(Run(c, x).store) && Abs(Run(c, x)) == Run'(c, Abs(x))
  {
    var e := EnsureNetwork(c, x);
    EnsureNetworkRefines(c, x);
    var l := Local(c, e);
    LocalRefines(c, e);
    var r := if c.routed then Remotes(c, |c.subnets|, l) else l;
    if c.routed {
      RemotesRefine(c, |c.subnets|, l);
    }
    PutTagsView(r.store, Tags(c));
    IssueRefines(r, SetTags, true, PutTags(r.store, Tags(c)), NoteTags(ViewOf(r.store), Tags(c)));
  }

  // ---------- histories ----------

  lemma BeginRefines(x: Exec, t: Try)
    requires Sound(x.store)
    ensures Sound(Begin(x, t).store) && ViewOf(Begin(x, t).store) == ViewOf(x.store)
  {
    SameView(x.store, Begin(x, t).store);
  }

  /** Whatever the configurations and wherever the runs were aborted, the store is sound: in
      particular no CIDR has two subnets and no physical network two segments. */
  lemma {:induction false} HistorySound(tries: seq<Try>)
    ensures Sound(History(tries).store)
    ensures NoDuplicates(History(tries).store)
  {
    if tries != [] {
      var before, t := tries[..|tries| - 1], tries[|tries| - 1];
      HistorySound(before);
      BeginRefines(History(before), t);
      RunRefines(t.conf, Begin(History(before), t));
    }
  }
}
