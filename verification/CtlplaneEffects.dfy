/** What a run does to the network: exactly, when it completes, from any network whatever,
    and within bounds when it is aborted. */
module CtlplaneEffects {
  import opened Sequences
  import opened Wrappers
  import opened Neutron
  import opened Ctlplane
  import opened CtlplaneMigration
  import opened CtlplaneViews
  import opened CtlplaneRefinement

  // ---------- who writes what ----------

  predicate IsRemote(c: Conf, i: nat) {
    i < |c.subnets| && c.subnets[i].0 != c.local
  }

  /** The last of the first `n` configured subnets that is remote and has this CIDR. */
  function LastRemote(c: Conf, cidr: string, n: nat): (r: Option<nat>)
    requires n <= |c.subnets|
    ensures r.Some? ==> r.value < n && IsRemote(c, r.value) && c.subnets[r.value].1.cidr == cidr
    ensures forall i :: (if r.Some? then r.value + 1 else 0) <= i < n && IsRemote(c, i) ==> c.subnets[i].1.cidr != cidr
  {
    if n == 0 then None
    else if IsRemote(c, n - 1) && c.subnets[n - 1].1.cidr == cidr then Some(n - 1)
    else LastRemote(c, cidr, n - 1)
  }

  /** The first one. */
  function FirstRemote(c: Conf, cidr: string, n: nat): (r: Option<nat>)
    requires n <= |c.subnets|
    ensures r.Some? ==> r.value < n && IsRemote(c, r.value) && c.subnets[r.value].1.cidr == cidr
    ensures forall i :: 0 <= i < (if r.Some? then r.value else n) && IsRemote(c, i) ==> c.subnets[i].1.cidr != cidr
  {
    if n == 0 then None
    else
      var before := FirstRemote(c, cidr, n - 1);
      if before.Some? then before
      else if IsRemote(c, n - 1) && c.subnets[n - 1].1.cidr == cidr then Some(n - 1)
      else None
  }

  function LocalCidr(c: Conf): Option<string> {
    var conf := Lookup(c.subnets, c.local);
    if conf.Some? then Some(conf.value.cidr) else None
  }

  predicate Configured(c: Conf, cidr: string) {
    Some(cidr) == LocalCidr(c) || LastRemote(c, cidr, Turns(c)).Some?
  }

  /** The physical network that the subnet with this CIDR is on after a run from `v`: where it
      was; for a local subnet that was nowhere, the local one if the network is routed; for a
      remote subnet that did not exist, the one named like the first subnet with its CIDR. */
  function Home(c: Conf, v: View, cidr: string): Option<string> {
    if cidr in v.entries && (v.entries[cidr].physnet.Some? || Some(cidr) != LocalCidr(c)) then v.entries[cidr].physnet
    else if Some(cidr) == LocalCidr(c) then (if c.routed then Some(c.physnet) else None)
    else
      var i := FirstRemote(c, cidr, |c.subnets|);
      if c.routed && i.Some? then Some(c.subnets[i.value].0) else None
  }

  /** The routers of a subnet when it has been created: one of its name, if it is IPv6. */
  function NewRouters(name: string, s: SubnetConf): set<string> {
    if IsV6(s.cidr) then {name} else {}
  }

  /** The name under which a subnet with this CIDR is created: the local one's, or that of the
      first remote one with the CIDR. */
  function Creator(c: Conf, cidr: string): string {
    var i := FirstRemote(c, cidr, |c.subnets|);
    if Some(cidr) != LocalCidr(c) && i.Some? then c.subnets[i.value].0 else c.local
  }

  /** The names of a subnet's routers after a complete run from `v`. */
  function RoutersAfter(c: Conf, v: View, cidr: string): set<string> {
    if cidr in v.entries then v.entries[cidr].routers
    else if IsV6(cidr) then {Creator(c, cidr)} else {}
  }

  /** Remote subnet `i` gives its name to the segment on `p`. */
  predicate Names(c: Conf, v: View, i: nat, p: string) {
    IsRemote(c, i) && Home(c, v, c.subnets[i].1.cidr) == Some(p)
  }

  /** The last of the first `n` configured subnets that names the segment on `p`. */
  function LastNaming(c: Conf, v: View, p: string, n: nat): (r: Option<nat>)
    requires n <= |c.subnets|
    ensures r.Some? ==> r.value < n && Names(c, v, r.value, p)
    ensures forall i :: (if r.Some? then r.value + 1 else 0) <= i < n ==> !Names(c, v, i, p)
  {
    if n == 0 then None
    else if Names(c, v, n - 1, p) then Some(n - 1)
    else LastNaming(c, v, p, n - 1)
  }

  /** The attributes that subnet `i` of the configuration is given. */
  function FinalAt(c: Conf, i: nat): Attrs
    requires i < |c.subnets|
  {
    Final(c, c.subnets[i].0, c.subnets[i].1)
  }

  // ---------- the network after a complete run ----------

  /** The subnet with this CIDR after `n` turns of the loop: its attributes are those of the
      last configured subnet with the CIDR; it is at its home; it has the routers it had, or if
      it is new and IPv6 one of its own. */
  function TurnsEntry(c: Conf, v: View, cidr: string, n: nat): Option<Entry>
    requires n <= |c.subnets|
  {
    var i := LastRemote(c, cidr, n);
    if i.Some? then Some(Entry(FinalAt(c, i.value), Home(c, v, cidr), RoutersAfter(c, v, cidr)))
    else if Some(cidr) == LocalCidr(c) then
      Some(Entry(Final(c, c.local, Lookup(c.subnets, c.local).value), Home(c, v, cidr), RoutersAfter(c, v, cidr)))
    else At(v.entries, cidr)
  }

  function TurnsName(c: Conf, v: View, p: string, n: nat): Option<string>
    requires n <= |c.subnets|
  {
    var i := LastNaming(c, v, p, n);
    if i.Some? then Some(c.subnets[i.value].0)
    else if v.network.None? && p == c.physnet then Some("")
    else At(v.names, p)
  }

  /** The loop is only entered if the network is routed. */
  function Turns(c: Conf): (n: nat)
    ensures n <= |c.subnets|
  {
    if c.routed then |c.subnets| else 0
  }

  /** The first `n` remote subnets have homes: the script dies on a subnet without one. */
  ghost predicate Homes(c: Conf, v: View, n: nat)
    requires n <= |c.subnets|
  {
    forall i: nat :: i < n && IsRemote(c, i) ==> Home(c, v, c.subnets[i].1.cidr).Some?
  }

  /** `y` is what a complete run of `c` makes of `v`. */
  ghost predicate IsGoal(c: Conf, v: View, y: View) {
    && Homes(c, v, Turns(c))
    && y.network == Some(Network(c.mtu, Tags(c)))
    && (forall cidr :: At(y.entries, cidr) == TurnsEntry(c, v, cidr, Turns(c)))
    && (forall p :: At(y.names, p) == TurnsName(c, v, p, Turns(c)))
  }

  /** A network is determined by what is at each CIDR and physical network. */
  lemma SameAt<V>(m: map<string, V>, m': map<string, V>)
    requires forall key :: At(m, key) == At(m', key)
    ensures m == m'
  {
    assert forall key :: key in m <==> At(m, key).Some?;
    assert forall key :: key in m' <==> At(m', key).Some?;
    assert forall key :: key in m ==> m[key] == At(m, key).value;
    assert forall key :: key in m' ==> m'[key] == At(m', key).value;
  }

  // ---------- the network after any run ----------

  /** Attributes that the configuration gives to this CIDR. */
  ghost predicate Given(c: Conf, cidr: string, attrs: Attrs) {
    || (Some(cidr) == LocalCidr(c) && attrs == Final(c, c.local, Lookup(c.subnets, c.local).value))
    || exists i: nat :: IsRemote(c, i) && c.routed && c.subnets[i].1.cidr == cidr && attrs == FinalAt(c, i)
  }

  /** An entry that a run of `c` from `v` may leave. */
  ghost predicate EntryBetween(c: Conf, v: View, cidr: string, e: Entry) {
    && (e.physnet == Home(c, v, cidr) || (cidr in v.entries && e.physnet == v.entries[cidr].physnet))
    && (Given(c, cidr, e.attrs) || (cidr in v.entries && e.attrs == v.entries[cidr].attrs))
    && (e.routers == RoutersAfter(c, v, cidr) || (cidr !in v.entries && e.routers == {}))
  }

  ghost predicate NameBetween(c: Conf, v: View, p: string, name: string) {
    || At(v.names, p) == Some(name)
    || (v.network.None? && p == c.physnet && name == "")
    || (c.routed && exists i: nat :: Names(c, v, i, p) && name == c.subnets[i].0)
  }

  /** `y` lies between `v` and what a complete run of `c` would make of it: nothing is lost,
      each subnet is where it was or at its home with attributes that are old or configured,
      and each segment has its old name or that of a remote subnet at home there. */
  ghost predicate Between(c: Conf, v: View, y: View) {
    && (forall cidr :: cidr in v.entries ==> cidr in y.entries)
    && (forall cidr :: cidr in y.entries ==> cidr in v.entries || Configured(c, cidr))
    && (forall cidr :: cidr in y.entries ==> EntryBetween(c, v, cidr, y.entries[cidr]))
    && (forall p :: p in v.names ==> p in y.names)
    && (forall p :: p in y.names ==> NameBetween(c, v, p, y.names[p]))
    && (y.network.None? ==> y == v)
    && (y.network.Some? && v.network.None? ==> c.physnet in y.names)
  }

  lemma BetweenSelf(c: Conf, v: View)
    ensures Between(c, v, v)
  {
    assert forall p :: p in v.names ==> At(v.names, p) == Some(v.names[p]);
  }

  lemma BetweenEntry(c: Conf, v: View, y: View, cidr: string, e: Entry)
    requires Between(c, v, y) && EntryBetween(c, v, cidr, e) && Configured(c, cidr) && y.network.Some?
    ensures Between(c, v, PutEntry(y, cidr, e))
  {
  }

  lemma BetweenName(c: Conf, v: View, y: View, i: nat, p: string)
    requires Between(c, v, y) && Names(c, v, i, p) && c.routed && y.network.Some?
    ensures Between(c, v, PutName(y, Some(p), c.subnets[i].0))
  {
    assert NameBetween(c, v, p, c.subnets[i].0);
  }

  // ---------- the local subnet ----------

  ghost predicate AfterNetwork(c: Conf, v: View, w: View) {
    && w.network.Some? && w.network.value.mtu == c.mtu
    && w.entries == v.entries
    && (forall p :: At(w.names, p) == if v.network.None? && p == c.physnet then Some("") else At(v.names, p))
  }

  lemma NetworkEffect(c: Conf, x: Exec')
    ensures var y := EnsureNetwork'(c, x);
            && Between(c, x.view, y.view)
            && (y.up ==> AfterNetwork(c, x.view, y.view))
  {
    BetweenSelf(c, x.view);
    var y := EnsureNetwork'(c, x);
    assert forall p :: p in y.view.names && p in x.view.names ==>
      NameBetween(c, x.view, p, x.view.names[p]);
  }

  /** The network when it is the remote subnets' turn. */
  ghost predicate AfterLocal(c: Conf, v: View, w: View)
    requires LocalCidr(c).Some?
  {
    var s := Lookup(c.subnets, c.local).value;
    && w.network.Some? && w.network.value.mtu == c.mtu
    && (forall p :: At(w.names, p) == if v.network.None? && p == c.physnet then Some("") else At(v.names, p))
    && (forall cidr :: At(w.entries, cidr) ==
          if cidr == s.cidr then Some(Entry(Final(c, c.local, s), Home(c, v, cidr), RoutersAfter(c, v, cidr))) else At(v.entries, cidr))
  }

  lemma NewSubnetEffect(c: Conf, v: View, name: string, s: SubnetConf, physnet: Option<string>, x: Exec')
    requires Between(c, v, x.view)
    requires x.up ==>
               && x.view.network.Some? && Configured(c, s.cidr) && s.cidr !in v.entries
               && EntryBetween(c, v, s.cidr, Entry(Final(c, name, s), physnet, NewRouters(name, s)))
    ensures var y := NewSubnet'(c, name, s, physnet, x);
            && Between(c, v, y.view)
            && (y.up ==> x.up && y.view == PutEntry(x.view, s.cidr, Entry(Final(c, name, s), physnet, NewRouters(name, s))))
  {
    if x.up {
      var bare, e := Entry(Final(c, name, s), physnet, {}), Entry(Final(c, name, s), physnet, NewRouters(name, s));
      BetweenEntry(c, v, x.view, s.cidr, bare);
      BetweenEntry(c, v, x.view, s.cidr, e);
      RouterPut(x.view, s.cidr, bare, name);
      NewSubnetStages(c, name, s, physnet, x);
    }
  }

  lemma RouterPut(v: View, cidr: string, e: Entry, name: string)
    requires e.routers == {}
    ensures PutRouter(PutEntry(v, cidr, e), cidr, name) == PutEntry(v, cidr, e.(routers := {name}))
  {
    assert {} + {name} == {name};
    PutTwice(v, cidr, e, e.(routers := {name}));
  }

  /** The stages of creating a subnet: nothing, the bare subnet, and all of it. */
  lemma NewSubnetStages(c: Conf, name: string, s: SubnetConf, physnet: Option<string>, x: Exec')
    requires x.up
    ensures var y, bare := NewSubnet'(c, name, s, physnet, x), PutEntry(x.view, s.cidr, Entry(Final(c, name, s), physnet, {}));
            var whole := if IsV6(s.cidr) then PutRouter(bare, s.cidr, name) else bare;
            y.view in {x.view, bare, whole} && (y.up ==> y.view == whole)
  {
  }

  lemma PutTwice(v: View, cidr: string, e: Entry, e': Entry)
    ensures PutEntry(PutEntry(v, cidr, e), cidr, e') == PutEntry(v, cidr, e')
  {
  }

  lemma ExistingSubnetEffect(c: Conf, v: View, name: string, s: SubnetConf, x: Exec')
    requires Between(c, v, x.view) && s.cidr in x.view.entries
    requires x.up ==>
               && x.view.network.Some? && Configured(c, s.cidr)
               && EntryBetween(c, v, s.cidr, x.view.entries[s.cidr].(attrs := Final(c, name, s)))
    ensures var y := ExistingSubnet'(c, name, s, x);
            && Between(c, v, y.view)
            && (y.up ==> x.up && y.view == PutEntry(x.view, s.cidr, x.view.entries[s.cidr].(attrs := Final(c, name, s))))
  {
    if x.up {
      BetweenEntry(c, v, x.view, s.cidr, x.view.entries[s.cidr].(attrs := Final(c, name, s)));
    }
  }

  lemma LocalLinkEffect(c: Conf, v: View, s: SubnetConf, x: Exec')
    requires Lookup(c.subnets, c.local) == Some(s) && x.up && c.routed
    requires Between(c, v, x.view) && AfterNetwork(c, v, x.view)
    requires s.cidr in v.entries && v.entries[s.cidr].physnet.None?
    ensures var y := ExistingSubnet'(c, c.local, s, Issue'(x, true, Alone(x.view), PutLink(x.view, s.cidr, c.physnet)));
            Between(c, v, y.view) && (y.up ==> AfterLocal(c, v, y.view))
  {
    BetweenEntry(c, v, x.view, s.cidr, v.entries[s.cidr].(physnet := Some(c.physnet)));
    ExistingSubnetEffect(c, v, c.local, s, Issue'(x, true, Alone(x.view), PutLink(x.view, s.cidr, c.physnet)));
  }

  lemma LocalFoundEffect(c: Conf, v: View, s: SubnetConf, x: Exec')
    requires Lookup(c.subnets, c.local) == Some(s) && x.up
    requires Between(c, v, x.view) && AfterNetwork(c, v, x.view)
    requires s.cidr in v.entries && (c.routed ==> v.entries[s.cidr].physnet.Some?)
    ensures var y := ExistingSubnet'(c, c.local, s, x);
            Between(c, v, y.view) && (y.up ==> AfterLocal(c, v, y.view))
  {
    ExistingSubnetEffect(c, v, c.local, s, x);
  }

  lemma LocalNewEffect(c: Conf, v: View, s: SubnetConf, x: Exec')
    requires Lookup(c.subnets, c.local) == Some(s) && x.up
    requires Between(c, v, x.view) && AfterNetwork(c, v, x.view) && s.cidr !in v.entries
    ensures var y := NewSubnet'(c, c.local, s, if c.routed then Some(c.physnet) else None, x);
            Between(c, v, y.view) && (y.up ==> AfterLocal(c, v, y.view))
  {
    NewSubnetEffect(c, v, c.local, s, if c.routed then Some(c.physnet) else None, x);
  }

  lemma LocalSubnetEffect(c: Conf, v: View, s: SubnetConf, x: Exec')
    requires Lookup(c.subnets, c.local) == Some(s) && x.up
    requires Between(c, v, x.view) && AfterNetwork(c, v, x.view)
    ensures var y := LocalSubnet'(c, s, x);
            Between(c, v, y.view) && (y.up ==> AfterLocal(c, v, y.view))
  {
    if s.cidr !in v.entries {
      LocalNewEffect(c, v, s, x);
    } else if c.routed && v.entries[s.cidr].physnet.None? {
      LocalLinkEffect(c, v, s, x);
    } else {
      LocalFoundEffect(c, v, s, x);
    }
  }

  lemma LocalEffect(c: Conf, v: View, x: Exec')
    requires Between(c, v, x.view) && (x.up ==> AfterNetwork(c, v, x.view))
    ensures var y := Local'(c, x);
            Between(c, v, y.view) && (y.up ==> LocalCidr(c).Some? && AfterLocal(c, v, y.view))
  {
    var conf := Lookup(c.subnets, c.local);
    if conf.Some? && Listed'(x).up {
      LocalSubnetEffect(c, v, conf.value, Listed'(x));
    }
  }

  // ---------- the remote subnets ----------

  /** The network after `n` turns of the loop. */
  ghost predicate AfterTurns(c: Conf, v: View, n: nat, y: View)
    requires n <= |c.subnets|
  {
    && Homes(c, v, n)
    && y.network.Some? && y.network.value.mtu == c.mtu
    && (forall cidr :: At(y.entries, cidr) == TurnsEntry(c, v, cidr, n))
    && (forall p :: At(y.names, p) == TurnsName(c, v, p, n))
  }

  lemma AfterNoTurns(c: Conf, v: View, y: View)
    requires LocalCidr(c).Some? && AfterLocal(c, v, y)
    ensures AfterTurns(c, v, 0, y)
  {
  }

  /** Everything is at home already. */
  lemma TurnsAtHome(c: Conf, v: View, n: nat, y: View, cidr: string)
    requires n <= |c.subnets| && AfterTurns(c, v, n, y) && cidr in y.entries
    ensures y.entries[cidr].physnet == Home(c, v, cidr)
    ensures y.entries[cidr].routers == RoutersAfter(c, v, cidr)
  {
    assert At(y.entries, cidr) == TurnsEntry(c, v, cidr, n);
  }

  /** A remote subnet that is not there yet is the first with its CIDR. */
  lemma NewAtHome(c: Conf, v: View, n: nat, y: View)
    requires IsRemote(c, n) && c.routed && AfterTurns(c, v, n, y)
    requires c.subnets[n].1.cidr !in y.entries
    ensures c.subnets[n].1.cidr !in v.entries
    ensures Home(c, v, c.subnets[n].1.cidr) == Some(c.subnets[n].0) && Creator(c, c.subnets[n].1.cidr) == c.subnets[n].0
  {
    var cidr := c.subnets[n].1.cidr;
    assert At(y.entries, cidr) == TurnsEntry(c, v, cidr, n);
    FirstIs(c, n, |c.subnets|);
  }

  lemma {:induction false} FirstIs(c: Conf, i: nat, n: nat)
    requires i < n <= |c.subnets| && IsRemote(c, i) && LastRemote(c, c.subnets[i].1.cidr, i).None?
    ensures FirstRemote(c, c.subnets[i].1.cidr, n) == Some(i)
  {
    var f := FirstRemote(c, c.subnets[i].1.cidr, n);
    assert f.Some? && f.value <= i;
  }

  /** One turn more. */
  lemma AfterTurn(c: Conf, v: View, n: nat, y: View, z: View)
    requires IsRemote(c, n) && c.routed && AfterTurns(c, v, n, y)
    requires var (name, s) := c.subnets[n];
             && Home(c, v, s.cidr).Some?
             && z == PutEntry(PutName(y, Home(c, v, s.cidr), name), s.cidr, Entry(FinalAt(c, n), Home(c, v, s.cidr), RoutersAfter(c, v, s.cidr)))
    ensures AfterTurns(c, v, n + 1, z)
  {
    var s := c.subnets[n].1;
    forall cidr
      ensures At(z.entries, cidr) == TurnsEntry(c, v, cidr, n + 1)
    {
      assert At(y.entries, cidr) == TurnsEntry(c, v, cidr, n);
    }
    forall p
      ensures At(z.names, p) == TurnsName(c, v, p, n + 1)
    {
      assert At(y.names, p) == TurnsName(c, v, p, n);
      assert Names(c, v, n, p) <==> Home(c, v, s.cidr) == Some(p);
    }
  }

  lemma SkippedTurn(c: Conf, v: View, n: nat, y: View)
    requires n < |c.subnets| && !IsRemote(c, n) && AfterTurns(c, v, n, y)
    ensures AfterTurns(c, v, n + 1, y)
  {
    forall cidr
      ensures TurnsEntry(c, v, cidr, n + 1) == TurnsEntry(c, v, cidr, n)
    {
    }
    forall p
      ensures TurnsName(c, v, p, n + 1) == TurnsName(c, v, p, n)
    {
    }
  }

  lemma RemoteIsConfigured(c: Conf, i: nat)
    requires IsRemote(c, i) && c.routed
    ensures Configured(c, c.subnets[i].1.cidr) && Given(c, c.subnets[i].1.cidr, FinalAt(c, i))
  {
    assert LastRemote(c, c.subnets[i].1.cidr, |c.subnets|).Some?;
  }

  lemma RemoteFoundEffect(c: Conf, v: View, n: nat, x: Exec')
    requires IsRemote(c, n) && c.routed && x.up
    requires Between(c, v, x.view) && AfterTurns(c, v, n, x.view) && c.subnets[n].1.cidr in x.view.entries
    ensures var y := RemoteSubnet'(c, c.subnets[n].0, c.subnets[n].1, x);
            Between(c, v, y.view) && (y.up ==> AfterTurns(c, v, n + 1, y.view))
  {
    var (name, s) := c.subnets[n];
    var home := x.view.entries[s.cidr].physnet;
    TurnsAtHome(c, v, n, x.view, s.cidr);
    RemoteIsConfigured(c, n);
    var named := PutName(x.view, home, name);
    if home.Some? {
      BetweenName(c, v, x.view, n, home.value);
      var z := Issue'(x, false, true, named);
      ExistingSubnetEffect(c, v, name, s, z);
      AfterTurn(c, v, n, x.view, PutEntry(named, s.cidr, x.view.entries[s.cidr].(attrs := FinalAt(c, n))));
    }
  }

  lemma RemoteNewEffect(c: Conf, v: View, n: nat, x: Exec')
    requires IsRemote(c, n) && c.routed && x.up
    requires Between(c, v, x.view) && AfterTurns(c, v, n, x.view) && c.subnets[n].1.cidr !in x.view.entries
    ensures var y := RemoteSubnet'(c, c.subnets[n].0, c.subnets[n].1, x);
            Between(c, v, y.view) && (y.up ==> AfterTurns(c, v, n + 1, y.view))
  {
    var (name, s) := c.subnets[n];
    NewAtHome(c, v, n, x.view);
    RemoteIsConfigured(c, n);
    BetweenName(c, v, x.view, n, name);
    var named := PutName(x.view, Some(name), name);
    var z := Issue'(x, name !in x.view.names, true, named);
    NewSubnetEffect(c, v, name, s, Some(name), z);
    AfterTurn(c, v, n, x.view, PutEntry(named, s.cidr, Entry(FinalAt(c, n), Some(name), NewRouters(name, s))));
  }

  lemma TurnEffect(c: Conf, v: View, n: nat, x: Exec')
    requires n < |c.subnets| && c.routed
    requires Between(c, v, x.view) && (x.up ==> AfterTurns(c, v, n, x.view))
    ensures var y := Turn'(c, n, x);
            Between(c, v, y.view) && (y.up ==> x.up && AfterTurns(c, v, n + 1, y.view))
  {
    if !IsRemote(c, n) {
      if x.up {
        SkippedTurn(c, v, n, x.view);
      }
    } else if Listed'(x).up {
      if c.subnets[n].1.cidr in x.view.entries {
        RemoteFoundEffect(c, v, n, Listed'(x));
      } else {
        RemoteNewEffect(c, v, n, Listed'(x));
      }
    }
  }

  /** What each turn keeps, the loop keeps. */
  lemma {:induction false} TurnsKeep(c: Conf, n: nat, x: Exec', inv: (nat, Exec') -> bool)
    requires n <= |c.subnets| && inv(0, x)
    requires forall k: nat, y :: k < |c.subnets| && inv(k, y) ==> inv(k + 1, Turn'(c, k, y))
    ensures inv(n, Remotes'(c, n, x))
  {
    if n > 0 {
      TurnsKeep(c, n - 1, x, inv);
    }
  }

  ghost predicate OnTurn(c: Conf, v: View, n: nat, x: Exec') {
    n <= |c.subnets| && Between(c, v, x.view) && (x.up ==> AfterTurns(c, v, n, x.view))
  }

  lemma TurnsEffect(c: Conf, v: View, x: Exec')
    requires c.routed && OnTurn(c, v, 0, x)
    ensures OnTurn(c, v, |c.subnets|, Remotes'(c, |c.subnets|, x))
  {
    forall k: nat, y | k < |c.subnets| && OnTurn(c, v, k, y)
      ensures OnTurn(c, v, k + 1, Turn'(c, k, y))
    {
      TurnEffect(c, v, k, y);
    }
    TurnsKeep(c, |c.subnets|, x, (k: nat, y) => OnTurn(c, v, k, y));
  }

  /** A script that has died stays dead. */
  lemma {:induction false} TurnsStayDown(c: Conf, n: nat, x: Exec')
    requires n <= |c.subnets| && !x.up
    ensures Remotes'(c, n, x) == x
  {
    if n > 0 {
      TurnsStayDown(c, n - 1, x);
    }
  }

  // ---------- the whole run ----------

  /** The effect of a run from any network whatever: aborted anywhere, it leaves something
      between the old and the new network; complete, it leaves exactly the new one. */
  lemma RunEffect(c: Conf, x: Exec')
    requires x.up
    ensures var y := Run'(c, x);
            && Between(c, x.view, y.view)
            && (y.up ==> LocalCidr(c).Some? && IsGoal(c, x.view, y.view))
  {
    var v := x.view;
    var e := EnsureNetwork'(c, x);
    NetworkEffect(c, x);
    var l := Local'(c, e);
    LocalEffect(c, v, e);
    if l.up {
      AfterNoTurns(c, v, l.view);
    }
    var r := if c.routed then Remotes'(c, |c.subnets|, l) else l;
    if c.routed {
      TurnsEffect(c, v, l);
      if !l.up {
        TurnsStayDown(c, |c.subnets|, l);
      }
    }
    TagsEffect(c, v, r);
    if Run'(c, x).up {
      Arrived(c, v, r.view);
    }
  }

  lemma TagsEffect(c: Conf, v: View, r: Exec')
    requires Between(c, v, r.view) && (r.up ==> r.view.network.Some?)
    ensures Between(c, v, Issue'(r, false, true, NoteTags(r.view, Tags(c))).view)
  {
  }

  lemma Arrived(c: Conf, v: View, r: View)
    requires AfterTurns(c, v, Turns(c), r)
    ensures IsGoal(c, v, NoteTags(r, Tags(c)))
  {
  }
}
