/** The part of Neutron that the undercloud script talks to: one network named `ctlplane`,
    its segments and subnets in creation order, and routers.  Every API call may raise,
    which ends the script at that point; `budget` is the number of calls that succeed
    before one raises. */
module Neutron {
  import opened Sequences
  import opened Wrappers

  type Id = nat

  datatype Route = Route(destination: string, nexthop: string)
  datatype Pool = Pool(start: string, end: string)
  datatype Network = Network(mtu: nat, tags: seq<string>)
  datatype Segment = Segment(id: Id, name: string, physnet: string)
  datatype Attrs = Attrs(name: string, gateway: string, routes: seq<Route>, pools: Option<seq<Pool>>, dns: seq<string>)
  datatype Subnet = Subnet(id: Id, cidr: string, attrs: Attrs, segment: Option<Id>)
  datatype Router = Router(id: Id, name: string, subnets: seq<Id>)

  datatype Store = Store(network: Option<Network>, segments: seq<Segment>, subnets: seq<Subnet>,
                         routers: seq<Router>, nextId: Id)

  const EMPTY_STORE := Store(None, [], [], [], 0)

  /** A call as the API sees it.  An association also records the store it was made in. */
  datatype Call =
    | ListNetworks
    | ListSubnets(cidr: string)
    | ListSegments(physnet: string)
    | CreateNetwork
    | UpdateNetwork
    | CreateSegment(name: string)
    | UpdateSegment(segment: Option<Id>)
    | CreateSubnet(subnetCidr: string)
    | UpdateSubnet(subnet: Id)
    | Associate(target: Id, seen: Store)
    | CreateRouter(routerName: string)
    | AddInterface(router: Id)
    | SetTags
  {
    predicate Creates() {
      CreateNetwork? || CreateSegment? || CreateSubnet? || CreateRouter? || AddInterface? || Associate?
    }
  }

  /** A script in execution: the store, the calls left before one raises, the calls made so
      far, and whether the script is still running. */
  datatype Exec = Exec(store: Store, budget: nat, log: seq<Call>, up: bool)

  /** An uncaught exception in the script itself. */
  function Crash(x: Exec): Exec {
    x.(up := false)
  }

  /** One API call: a no-op once the script has died, fatal when the budget is spent or the
      server refuses, otherwise the store becomes `after`. */
  function Issue(x: Exec, call: Call, accepted: bool, after: Store): Exec {
    if !x.up then x
    else if x.budget == 0 then Exec(x.store, 0, x.log + [call], false)
    else if !accepted then Exec(x.store, x.budget - 1, x.log + [call], false)
    else Exec(after, x.budget - 1, x.log + [call], true)
  }

  function Cidrs(subnets: seq<Subnet>): seq<string> {
    seq(|subnets|, i requires 0 <= i < |subnets| => subnets[i].cidr)
  }

  function Physnets(segments: seq<Segment>): seq<string> {
    seq(|segments|, k requires 0 <= k < |segments| => segments[k].physnet)
  }

  /** Position of the first subnet with this CIDR. */
  function SubnetIndex(subnets: seq<Subnet>, cidr: string): (r: Option<nat>)
    ensures r.Some? ==> r.value < |subnets| && subnets[r.value].cidr == cidr
    ensures forall i :: 0 <= i < (if r.Some? then r.value else |subnets|) ==> subnets[i].cidr != cidr
  {
    var cidrs := Cidrs(subnets);
    assert forall i :: 0 <= i < |subnets| ==> cidrs[i] == subnets[i].cidr;
    IndexOf(cidrs, cidr)
  }

  /** Position of the first segment on this physical network. */
  function SegmentIndex(segments: seq<Segment>, physnet: string): (r: Option<nat>)
    ensures r.Some? ==> r.value < |segments| && segments[r.value].physnet == physnet
    ensures forall k :: 0 <= k < (if r.Some? then r.value else |segments|) ==> segments[k].physnet != physnet
  {
    var physnets := Physnets(segments);
    assert forall k :: 0 <= k < |segments| ==> physnets[k] == segments[k].physnet;
    IndexOf(physnets, physnet)
  }

  /** Creating the network also creates an unnamed segment for its physical network. */
  function AddNetwork(st: Store, mtu: nat, physnet: string): Store {
    st.(network := Some(Network(mtu, [])),
        segments := st.segments + [Segment(st.nextId, "", physnet)],
        nextId := st.nextId + 1)
  }

  function SetMtu(st: Store, mtu: nat): Store {
    if st.network.Some? then st.(network := Some(st.network.value.(mtu := mtu))) else st
  }

  function PutTags(st: Store, tags: seq<string>): Store {
    if st.network.Some? then st.(network := Some(st.network.value.(tags := tags))) else st
  }

  function AddSegment(st: Store, name: string, physnet: string): Store {
    st.(segments := st.segments + [Segment(st.nextId, name, physnet)], nextId := st.nextId + 1)
  }

  function RenameSegment(st: Store, id: Option<Id>, name: string): Store {
    st.(segments := seq(|st.segments|, i requires 0 <= i < |st.segments| =>
      if Some(st.segments[i].id) == id then st.segments[i].(name := name) else st.segments[i]))
  }

  function AddSubnet(st: Store, cidr: string, attrs: Attrs, segment: Option<Id>): Store {
    st.(subnets := st.subnets + [Subnet(st.nextId, cidr, attrs, segment)], nextId := st.nextId + 1)
  }

  /** An update leaves the routes alone unless it names new ones. */
  function Overwrite(was: Attrs, attrs: Attrs, withRoutes: bool): Attrs {
    if withRoutes then attrs else attrs.(routes := was.routes)
  }

  function SetAttrs(st: Store, id: Id, attrs: Attrs, withRoutes: bool): Store {
    st.(subnets := seq(|st.subnets|, i requires 0 <= i < |st.subnets| =>
      var s := st.subnets[i];
      if s.id == id then s.(attrs := Overwrite(s.attrs, attrs, withRoutes)) else s))
  }

  function LinkSubnet(st: Store, id: Id, segment: Id): Store {
    st.(subnets := seq(|st.subnets|, i requires 0 <= i < |st.subnets| =>
      var s := st.subnets[i];
      if s.id == id then s.(segment := Some(segment)) else s))
  }

  /** A segment can be given to an existing subnet only while the network has one of each. */
  predicate CanLink(st: Store) {
    |st.segments| == 1 && |st.subnets| == 1
  }

  function AddRouter(st: Store, name: string): Store {
    st.(routers := st.routers + [Router(st.nextId, name, [])], nextId := st.nextId + 1)
  }

  function AttachSubnet(st: Store, router: Id, subnet: Id): Store {
    st.(routers := seq(|st.routers|, i requires 0 <= i < |st.routers| =>
      var r := st.routers[i];
      if r.id == router then r.(subnets := r.subnets + [subnet]) else r))
  }

  /** A connection to the cloud.  Each method is one API call and says whether it returned. */
  class Connection {
    var store: Store
    var budget: nat
    var log: seq<Call>
    var up: bool

    constructor (x: Exec)
      ensures State() == x
    {
      store, budget, log, up := x.store, x.budget, x.log, x.up;
    }

    function State(): Exec
      reads this
    {
      Exec(store, budget, log, up)
    }

    method Fail()
      modifies this
      ensures State() == Crash(old(State()))
    {
      up := false;
    }

    /** The common part of every call: the call is noted, and goes through or raises. */
    method Send(call: Call, accepted: bool, after: Store) returns (ok: bool)
      requires up
      modifies this
      ensures State() == Issue(old(State()), call, accepted, after)
      ensures ok == up
    {
      log := log + [call];
      if budget == 0 {
        up := false;
      } else {
        budget := budget - 1;
        if accepted {
          store := after;
        } else {
          up := false;
        }
      }
      ok := up;
    }

    method Networks() returns (ok: bool, network: Option<Network>)
      requires up
      modifies this
      ensures State() == Issue(old(State()), ListNetworks, true, old(store))
      ensures ok == up && network == old(store.network)
    {
      network := store.network;
      ok := Send(ListNetworks, true, store);
    }

    method Subnets(cidr: string) returns (ok: bool, first: Option<Subnet>)
      requires up
      modifies this
      ensures State() == Issue(old(State()), ListSubnets(cidr), true, old(store))
      ensures ok == up
      ensures first == (var i := SubnetIndex(old(store.subnets), cidr);
                        if i.Some? then Some(old(store.subnets)[i.value]) else None)
    {
      var i := SubnetIndex(store.subnets, cidr);
      first := if i.Some? then Some(store.subnets[i.value]) else None;
      ok := Send(ListSubnets(cidr), true, store);
    }

    method Segments(physnet: string) returns (ok: bool, first: Option<Segment>)
      requires up
      modifies this
      ensures State() == Issue(old(State()), ListSegments(physnet), true, old(store))
      ensures ok == up
      ensures first == (var i := SegmentIndex(old(store.segments), physnet);
                        if i.Some? then Some(old(store.segments)[i.value]) else None)
    {
      var i := SegmentIndex(store.segments, physnet);
      first := if i.Some? then Some(store.segments[i.value]) else None;
      ok := Send(ListSegments(physnet), true, store);
    }
  }
}
