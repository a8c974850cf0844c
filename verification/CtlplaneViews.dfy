/** The network as it looks without ids: which CIDRs it has, with what attributes, on which
    physical network and with which routers, and the names of the segments.  Every store
    operation of the script is an update of this view. */
module CtlplaneViews {
  import opened Sequences
  import opened Wrappers
  import opened Neutron
  import opened Ctlplane

  /** A subnet as it looks from outside. */
  datatype Entry = Entry(attrs: Attrs, physnet: Option<string>, routers: set<string>)

  /** Segment names by physical network, and subnets by CIDR. */
  datatype View = View(network: Option<Network>, names: map<string, string>, entries: map<string, Entry>)

  const NOTHING := View(None, map[], map[])

  function SegmentIds(segments: seq<Segment>): seq<Id> {
    seq(|segments|, k requires 0 <= k < |segments| => segments[k].id)
  }

  function PhysnetOf(segments: seq<Segment>, id: Option<Id>): Option<string> {
    if id.None? then None else
      var k := IndexOf(SegmentIds(segments), id.value);
      if k.None? then None else Some(segments[k.value].physnet)
  }

  /** The names of the routers that a subnet is attached to. */
  function RoutersOf(routers: seq<Router>, subnet: Id): set<string> {
    set r | r in routers && subnet in r.subnets :: r.name
  }

  function EntryAt(st: Store, i: nat): Entry
    requires i < |st.subnets|
  {
    Entry(st.subnets[i].attrs, PhysnetOf(st.segments, st.subnets[i].segment), RoutersOf(st.routers, st.subnets[i].id))
  }

  function NamesOf(segments: seq<Segment>): map<string, string> {
    map p | p in Physnets(segments) :: segments[SegmentIndex(segments, p).value].name
  }

  function EntriesOf(st: Store): map<string, Entry> {
    map cidr | cidr in Cidrs(st.subnets) :: EntryAt(st, SubnetIndex(st.subnets, cidr).value)
  }

  function ViewOf(st: Store): View {
    View(st.network, NamesOf(st.segments), EntriesOf(st))
  }

  // ---------- sound stores ----------

  /** No physical network has two segments and no CIDR two subnets. */
  predicate NoDuplicates(st: Store) {
    NoRepeats(Physnets(st.segments)) && NoRepeats(Cidrs(st.subnets))
  }

  predicate GoodIds(st: Store) {
    && (forall i, j :: 0 <= i < j < |st.segments| ==> st.segments[i].id < st.segments[j].id)
    && (forall i :: 0 <= i < |st.segments| ==> st.segments[i].id < st.nextId)
    && (forall i, j :: 0 <= i < j < |st.subnets| ==> st.subnets[i].id < st.subnets[j].id)
    && (forall i :: 0 <= i < |st.subnets| ==> st.subnets[i].id < st.nextId)
  }

  predicate GoodRouters(st: Store) {
    && (forall i, j :: 0 <= i < j < |st.routers| ==> st.routers[i].id < st.routers[j].id)
    && (forall i :: 0 <= i < |st.routers| ==> st.routers[i].id < st.nextId)
    && (forall k, id :: 0 <= k < |st.routers| && id in st.routers[k].subnets ==> id < st.nextId)
  }

  /** What holds in every store that runs can leave, whatever their configurations: besides
      the uniqueness of CIDRs, physical networks and ids, no link dangles, an IPv6 subnet has
      no routes, and without the network there is nothing. */
  predicate Sound(st: Store) {
    && NoDuplicates(st) && GoodIds(st) && GoodRouters(st)
    && (forall i :: 0 <= i < |st.subnets| && st.subnets[i].segment.Some? ==>
          st.subnets[i].segment.value in SegmentIds(st.segments))
    && (forall i :: 0 <= i < |st.subnets| && IsV6(st.subnets[i].cidr) ==> st.subnets[i].attrs.routes == [])
    && (st.network.None? ==> st.segments == [] && st.subnets == [])
  }

  // ---------- reading the view ----------

  lemma EntryIs(st: Store, i: nat)
    requires Sound(st) && i < |st.subnets|
    ensures SubnetIndex(st.subnets, st.subnets[i].cidr) == Some(i)
    ensures st.subnets[i].cidr in EntriesOf(st) && EntriesOf(st)[st.subnets[i].cidr] == EntryAt(st, i)
  {
    var cidrs := Cidrs(st.subnets);
    assert cidrs[i] == st.subnets[i].cidr;
    var j := SubnetIndex(st.subnets, st.subnets[i].cidr).value;
    assert cidrs[j] == cidrs[i];
  }

  lemma NameIs(st: Store, k: nat)
    requires NoRepeats(Physnets(st.segments)) && k < |st.segments|
    ensures SegmentIndex(st.segments, st.segments[k].physnet) == Some(k)
    ensures st.segments[k].physnet in NamesOf(st.segments)
    ensures NamesOf(st.segments)[st.segments[k].physnet] == st.segments[k].name
  {
    var physnets := Physnets(st.segments);
    assert physnets[k] == st.segments[k].physnet;
    var j := SegmentIndex(st.segments, st.segments[k].physnet).value;
    assert physnets[j] == physnets[k];
  }

  lemma PhysnetIs(st: Store, k: nat)
    requires GoodIds(st) && k < |st.segments|
    ensures PhysnetOf(st.segments, Some(st.segments[k].id)) == Some(st.segments[k].physnet)
  {
    var ids := SegmentIds(st.segments);
    assert ids[k] == st.segments[k].id;
    var j := IndexOf(ids, st.segments[k].id).value;
    assert ids[j] == ids[k];
  }

  /** The view finds what the script finds. */
  lemma EntryFound(st: Store, cidr: string)
    requires Sound(st)
    ensures var i := SubnetIndex(st.subnets, cidr);
            && (cidr in EntriesOf(st) <==> i.Some?)
            && (i.Some? ==> EntriesOf(st)[cidr] == EntryAt(st, i.value))
            && (i.Some? ==> (EntryAt(st, i.value).physnet.Some? <==> st.subnets[i.value].segment.Some?))
  {
    var i := SubnetIndex(st.subnets, cidr);
    if i.Some? {
      EntryIs(st, i.value);
    }
  }

  lemma NameFound(st: Store, physnet: string)
    requires Sound(st)
    ensures physnet in NamesOf(st.segments) <==> SegmentIndex(st.segments, physnet).Some?
  {
    var k := SegmentIndex(st.segments, physnet);
    if k.Some? {
      NameIs(st, k.value);
    }
  }

  /** Two maps from CIDRs agree with two stores when they do so position by position. */
  lemma EntriesAre(st: Store, entries: map<string, Entry>)
    requires Sound(st) && forall cidr :: cidr in entries <==> cidr in Cidrs(st.subnets)
    requires forall i :: 0 <= i < |st.subnets| ==> st.subnets[i].cidr in entries && entries[st.subnets[i].cidr] == EntryAt(st, i)
    ensures EntriesOf(st) == entries
  {
    forall cidr | cidr in entries
      ensures cidr in EntriesOf(st) && EntriesOf(st)[cidr] == entries[cidr]
    {
      EntryFound(st, cidr);
    }
    assert forall cidr :: cidr in EntriesOf(st) ==> cidr in entries;
  }

  lemma NamesAre(st: Store, names: map<string, string>)
    requires NoRepeats(Physnets(st.segments)) && forall p :: p in names <==> p in Physnets(st.segments)
    requires forall k :: 0 <= k < |st.segments| ==> st.segments[k].physnet in names && names[st.segments[k].physnet] == st.segments[k].name
    ensures NamesOf(st.segments) == names
  {
    forall p | p in names
      ensures p in NamesOf(st.segments) && NamesOf(st.segments)[p] == names[p]
    {
      var k :| 0 <= k < |st.segments| && Physnets(st.segments)[k] == p;
      NameIs(st, k);
    }
    assert forall p :: p in NamesOf(st.segments) ==> p in names;
  }

  // ---------- the store operations on the view ----------

  lemma AddNetworkView(st: Store, mtu: nat, physnet: string)
    requires Sound(st) && st.network.None?
    ensures Sound(AddNetwork(st, mtu, physnet))
    ensures ViewOf(AddNetwork(st, mtu, physnet)) ==
              ViewOf(st).(network := Some(Network(mtu, [])), names := ViewOf(st).names[physnet := ""])
  {
    var st' := AddNetwork(st, mtu, physnet);
    assert st'.segments == [Segment(st.nextId, "", physnet)];
    OneSegment(Segment(st.nextId, "", physnet));
    assert NamesOf(st.segments) == map[];
    assert EntriesOf(st') == EntriesOf(st) == map[];
  }

  lemma OneSegment(s: Segment)
    ensures NoRepeats(Physnets([s])) && NamesOf([s]) == map[s.physnet := s.name]
  {
    assert Physnets([s]) == [s.physnet];
  }

  /** Only the network, the segments, the subnets and who is attached matter. */
  lemma SameView(st: Store, st': Store)
    requires st'.segments == st.segments && st'.subnets == st.subnets && st'.network == st.network
    requires forall i :: 0 <= i < |st.subnets| ==>
               RoutersOf(st'.routers, st.subnets[i].id) == RoutersOf(st.routers, st.subnets[i].id)
    ensures ViewOf(st') == ViewOf(st)
  {
    assert EntriesOf(st') == EntriesOf(st);
  }

  lemma LinksStay(segments: seq<Segment>, s: Segment, id: Option<Id>)
    requires id.Some? ==> id.value in SegmentIds(segments)
    ensures PhysnetOf(segments + [s], id) == PhysnetOf(segments, id)
    ensures id.Some? ==> id.value in SegmentIds(segments + [s])
  {
    assert SegmentIds(segments + [s]) == SegmentIds(segments) + [s.id];
    if id.Some? {
      var ids, ids' := SegmentIds(segments), SegmentIds(segments + [s]);
      var i := IndexOf(ids, id.value).value;
      assert ids'[i] == id.value;
      var j := IndexOf(ids', id.value).value;
      assert j <= i;
      assert ids[j] == id.value;
    }
  }

  lemma AddSegmentSound(st: Store, name: string, physnet: string)
    requires Sound(st) && st.network.Some? && physnet !in NamesOf(st.segments)
    ensures var st' := AddSegment(st, name, physnet);
            Sound(st') && Physnets(st'.segments) == Physnets(st.segments) + [physnet] && EntriesOf(st') == EntriesOf(st)
  {
    var st' := AddSegment(st, name, physnet);
    NameFound(st, physnet);
    assert Physnets(st'.segments) == Physnets(st.segments) + [physnet];
    forall i | 0 <= i < |st.subnets|
      ensures EntryAt(st', i) == EntryAt(st, i)
      ensures st.subnets[i].segment.Some? ==> st.subnets[i].segment.value in SegmentIds(st'.segments)
    {
      LinksStay(st.segments, Segment(st.nextId, name, physnet), st.subnets[i].segment);
    }
    assert EntriesOf(st') == EntriesOf(st);
  }

  lemma AddSegmentView(st: Store, name: string, physnet: string)
    requires Sound(st) && st.network.Some? && physnet !in NamesOf(st.segments)
    ensures Sound(AddSegment(st, name, physnet))
    ensures ViewOf(AddSegment(st, name, physnet)) == ViewOf(st).(names := ViewOf(st).names[physnet := name])
  {
    var st' := AddSegment(st, name, physnet);
    var names := NamesOf(st.segments)[physnet := name];
    AddSegmentSound(st, name, physnet);
    forall k | 0 <= k < |st'.segments|
      ensures st'.segments[k].physnet in names && names[st'.segments[k].physnet] == st'.segments[k].name
    {
      if k < |st.segments| {
        NameIs(st, k);
        assert st'.segments[k] == st.segments[k];
      }
    }
    NamesAre(st', names);
  }

  lemma RenameSegmentIs(st: Store, k: nat, name: string)
    requires Sound(st) && k < |st.segments|
    ensures var st' := RenameSegment(st, Some(st.segments[k].id), name);
            && st'.segments == st.segments[k := st.segments[k].(name := name)]
            && Physnets(st'.segments) == Physnets(st.segments) && SegmentIds(st'.segments) == SegmentIds(st.segments)
            && Sound(st')
  {
    assert forall j :: 0 <= j < |st.segments| && j != k ==> st.segments[j].id != st.segments[k].id;
    var st' := RenameSegment(st, Some(st.segments[k].id), name);
    assert st'.segments == st.segments[k := st.segments[k].(name := name)];
    assert Physnets(st'.segments) == Physnets(st.segments);
    assert SegmentIds(st'.segments) == SegmentIds(st.segments);
  }

  /** Where a segment is does not depend on its name. */
  lemma SamePhysnet(segments: seq<Segment>, segments': seq<Segment>, id: Option<Id>)
    requires SegmentIds(segments) == SegmentIds(segments') && Physnets(segments) == Physnets(segments')
    ensures PhysnetOf(segments, id) == PhysnetOf(segments', id)
  {
    if PhysnetOf(segments, id).Some? {
      var k := IndexOf(SegmentIds(segments), id.value).value;
      assert Physnets(segments)[k] == Physnets(segments')[k];
    }
  }

  lemma RenamedNames(st: Store, k: nat, name: string)
    requires Sound(st) && k < |st.segments|
    ensures NamesOf(st.segments[k := st.segments[k].(name := name)]) == NamesOf(st.segments)[st.segments[k].physnet := name]
  {
    var st' := st.(segments := st.segments[k := st.segments[k].(name := name)]);
    var names := NamesOf(st.segments)[st.segments[k].physnet := name];
    var physnets := Physnets(st.segments);
    assert Physnets(st'.segments) == physnets;
    assert physnets[k] == st.segments[k].physnet;
    forall j | 0 <= j < |st.segments|
      ensures st'.segments[j].physnet in names && names[st'.segments[j].physnet] == st'.segments[j].name
    {
      NameIs(st, j);
      assert physnets[j] == st.segments[j].physnet;
    }
    NamesAre(st', names);
  }

  lemma RenameSegmentView(st: Store, k: nat, name: string)
    requires Sound(st) && k < |st.segments|
    ensures var st' := RenameSegment(st, Some(st.segments[k].id), name);
            Sound(st') && ViewOf(st') == ViewOf(st).(names := ViewOf(st).names[st.segments[k].physnet := name])
  {
    var st' := RenameSegment(st, Some(st.segments[k].id), name);
    RenameSegmentIs(st, k, name);
    RenamedNames(st, k, name);
    forall i | 0 <= i < |st.subnets|
      ensures EntryAt(st', i) == EntryAt(st, i)
    {
      SamePhysnet(st.segments, st'.segments, st.subnets[i].segment);
    }
    assert EntriesOf(st') == EntriesOf(st);
  }

  lemma AddSubnetSound(st: Store, cidr: string, attrs: Attrs, segment: Option<Id>)
    requires Sound(st) && st.network.Some? && cidr !in EntriesOf(st)
    requires segment.Some? ==> segment.value in SegmentIds(st.segments)
    requires IsV6(cidr) ==> attrs.routes == []
    ensures var st' := AddSubnet(st, cidr, attrs, segment);
            Sound(st') && Cidrs(st'.subnets) == Cidrs(st.subnets) + [cidr]
  {
    EntryFound(st, cidr);
    assert Cidrs(AddSubnet(st, cidr, attrs, segment).subnets) == Cidrs(st.subnets) + [cidr];
  }

  lemma NotAttachedYet(st: Store, id: Id)
    requires GoodRouters(st) && id >= st.nextId
    ensures RoutersOf(st.routers, id) == {}
  {
    forall r | r in st.routers
      ensures id !in r.subnets
    {
      var k :| 0 <= k < |st.routers| && st.routers[k] == r;
    }
  }

  lemma AddSubnetView(st: Store, cidr: string, attrs: Attrs, segment: Option<Id>)
    requires Sound(st) && st.network.Some? && cidr !in EntriesOf(st)
    requires segment.Some? ==> segment.value in SegmentIds(st.segments)
    requires IsV6(cidr) ==> attrs.routes == []
    ensures var st' := AddSubnet(st, cidr, attrs, segment);
            && Sound(st')
            && ViewOf(st') == ViewOf(st).(entries :=
                 ViewOf(st).entries[cidr := Entry(attrs, PhysnetOf(st.segments, segment), {})])
  {
    var st' := AddSubnet(st, cidr, attrs, segment);
    var entries := EntriesOf(st)[cidr := Entry(attrs, PhysnetOf(st.segments, segment), {})];
    AddSubnetSound(st, cidr, attrs, segment);
    NotAttachedYet(st, st.nextId);
    forall i | 0 <= i < |st'.subnets|
      ensures st'.subnets[i].cidr in entries && entries[st'.subnets[i].cidr] == EntryAt(st', i)
    {
      if i < |st.subnets| {
        EntryIs(st, i);
        assert st'.subnets[i] == st.subnets[i];
      }
    }
    EntriesAre(st', entries);
  }

  /** Changing one subnet, but not its id or CIDR, changes its entry. */
  lemma OneSubnetView(st: Store, st': Store, i: nat)
    requires Sound(st) && Sound(st') && i < |st.subnets| == |st'.subnets|
    requires st'.network == st.network && st'.segments == st.segments
    requires Cidrs(st'.subnets) == Cidrs(st.subnets)
    requires forall j :: 0 <= j < |st.subnets| && j != i ==> EntryAt(st', j) == EntryAt(st, j)
    ensures ViewOf(st') == ViewOf(st).(entries := ViewOf(st).entries[st.subnets[i].cidr := EntryAt(st', i)])
  {
    var entries := EntriesOf(st)[st.subnets[i].cidr := EntryAt(st', i)];
    var cidrs := Cidrs(st.subnets);
    assert cidrs[i] == st.subnets[i].cidr;
    forall j | 0 <= j < |st.subnets|
      ensures st'.subnets[j].cidr in entries && entries[st'.subnets[j].cidr] == EntryAt(st', j)
    {
      EntryIs(st, j);
      assert cidrs[j] == st.subnets[j].cidr && Cidrs(st'.subnets)[j] == st'.subnets[j].cidr;
    }
    EntriesAre(st', entries);
  }

  lemma SetAttrsView(st: Store, i: nat, attrs: Attrs, withRoutes: bool)
    requires Sound(st) && i < |st.subnets| && (IsV6(st.subnets[i].cidr) ==> !withRoutes)
    ensures var st', s := SetAttrs(st, st.subnets[i].id, attrs, withRoutes), st.subnets[i];
            && Sound(st')
            && ViewOf(st') == ViewOf(st).(entries :=
                 ViewOf(st).entries[s.cidr := EntryAt(st, i).(attrs := Overwrite(s.attrs, attrs, withRoutes))])
  {
    var st' := SetAttrs(st, st.subnets[i].id, attrs, withRoutes);
    assert forall j :: 0 <= j < |st.subnets| && j != i ==> st.subnets[j].id != st.subnets[i].id;
    assert forall j :: 0 <= j < |st.subnets| && j != i ==> st'.subnets[j] == st.subnets[j];
    assert Cidrs(st'.subnets) == Cidrs(st.subnets);
    OneSubnetView(st, st', i);
  }

  lemma LinkSubnetView(st: Store, i: nat, k: nat)
    requires Sound(st) && i < |st.subnets| && k < |st.segments|
    ensures var st' := LinkSubnet(st, st.subnets[i].id, st.segments[k].id);
            && Sound(st')
            && ViewOf(st') == ViewOf(st).(entries :=
                 ViewOf(st).entries[st.subnets[i].cidr := EntryAt(st, i).(physnet := Some(st.segments[k].physnet))])
  {
    var st' := LinkSubnet(st, st.subnets[i].id, st.segments[k].id);
    assert forall j :: 0 <= j < |st.subnets| && j != i ==> st.subnets[j].id != st.subnets[i].id;
    assert forall j :: 0 <= j < |st.subnets| && j != i ==> st'.subnets[j] == st.subnets[j];
    assert Cidrs(st'.subnets) == Cidrs(st.subnets);
    assert SegmentIds(st.segments)[k] == st.segments[k].id;
    PhysnetIs(st, k);
    OneSubnetView(st, st', i);
  }

  lemma AddRouterView(st: Store, name: string)
    requires Sound(st)
    ensures Sound(AddRouter(st, name)) && ViewOf(AddRouter(st, name)) == ViewOf(st)
  {
    var st' := AddRouter(st, name);
    var r := Router(st.nextId, name, []);
    assert forall k :: 0 <= k < |st.routers| ==> st'.routers[k] == st.routers[k];
    forall i | 0 <= i < |st.subnets|
      ensures RoutersOf(st'.routers, st.subnets[i].id) == RoutersOf(st.routers, st.subnets[i].id)
    {
      assert forall x :: x in st'.routers <==> x in st.routers || x == r;
    }
    SameView(st, st');
  }

  lemma AttachSubnetSound(st: Store, r: nat, id: Id)
    requires Sound(st) && r < |st.routers| && id < st.nextId
    ensures Sound(AttachSubnet(st, st.routers[r].id, id))
  {
  }

  lemma AttachSubnetIs(st: Store, r: nat, id: Id, other: Id)
    requires Sound(st) && r < |st.routers|
    ensures RoutersOf(AttachSubnet(st, st.routers[r].id, id).routers, other) ==
              RoutersOf(st.routers, other) + if other == id then {st.routers[r].name} else {}
  {
    var rs, rs' := st.routers, AttachSubnet(st, st.routers[r].id, id).routers;
    assert rs'[r] == rs[r].(subnets := rs[r].subnets + [id]);
    assert forall k :: 0 <= k < |rs| && k != r ==> rs'[k] == rs[k];
    forall name
      ensures name in RoutersOf(rs', other) <==> name in RoutersOf(rs, other) || (other == id && name == rs[r].name)
    {
      if name in RoutersOf(rs, other) {
        var x :| x in rs && other in x.subnets && x.name == name;
        var k :| 0 <= k < |rs| && rs[k] == x;
        assert rs'[k] in rs' && other in rs'[k].subnets && rs'[k].name == name;
      }
      if name in RoutersOf(rs', other) {
        var x :| x in rs' && other in x.subnets && x.name == name;
        var k :| 0 <= k < |rs'| && rs'[k] == x;
        assert rs[k] in rs && rs[k].name == name;
      }
      if other == id && name == rs[r].name {
        assert rs'[r] in rs' && other in rs'[r].subnets;
      }
    }
  }

  lemma AttachSubnetView(st: Store, r: nat, i: nat)
    requires Sound(st) && r < |st.routers| && i < |st.subnets|
    ensures var st', e := AttachSubnet(st, st.routers[r].id, st.subnets[i].id), EntryAt(st, i);
            && Sound(st')
            && ViewOf(st') == ViewOf(st).(entries :=
                 ViewOf(st).entries[st.subnets[i].cidr := e.(routers := e.routers + {st.routers[r].name})])
  {
    AttachSubnetSound(st, r, st.subnets[i].id);
    assert forall j :: 0 <= j < |st.subnets| && j != i ==> st.subnets[j].id != st.subnets[i].id;
    forall j | 0 <= j < |st.subnets| {
      AttachSubnetIs(st, r, st.subnets[i].id, st.subnets[j].id);
    }
    OneSubnetView(st, AttachSubnet(st, st.routers[r].id, st.subnets[i].id), i);
  }

  lemma CanLinkView(st: Store)
    requires Sound(st)
    ensures CanLink(st) <==> |ViewOf(st).names| == 1 && |ViewOf(st).entries| == 1
  {
    CountsAsSet(Physnets(st.segments), NamesOf(st.segments).Keys);
    CountsAsSet(Cidrs(st.subnets), EntriesOf(st).Keys);
  }
}
