/** Which segments the subnets are on after a complete run, and who else is there. */
module CtlplaneOwnership {
  import opened Sequences
  import opened Wrappers
  import opened Neutron
  import opened Ctlplane
  import opened CtlplaneMigration
  import opened CtlplaneViews
  import opened CtlplaneRefinement
  import opened CtlplaneEffects
  import opened CtlplaneTheorems
  import opened CtlplaneIdempotence
  import opened CtlplaneRepeats

  /** The physical network of the subnet with this CIDR, if there is one and it has one. */
  function PlaceOf(v: View, cidr: string): Option<string> {
    if cidr in v.entries then v.entries[cidr].physnet else None
  }

  // ---------- for every history ----------

  lemma OnlyRemote(c: Conf, i: nat)
    requires IsRemote(c, i) && DistinctCidrs(c)
    ensures LastRemote(c, c.subnets[i].1.cidr, |c.subnets|) == FirstRemote(c, c.subnets[i].1.cidr, |c.subnets|) == Some(i)
  {
    var last, first := LastRemote(c, c.subnets[i].1.cidr, |c.subnets|), FirstRemote(c, c.subnets[i].1.cidr, |c.subnets|);
    assert last.Some? && last.value >= i;
    assert first.Some? && first.value <= i;
  }

  /** Where a complete routed run leaves a remote subnet: where it was, if its CIDR existed,
      and on the physical network of its name if not. */
  lemma RemotePlace(tries: seq<Try>, last: Try, i: nat)
    requires After(tries, last).up && last.conf.routed && DistinctCidrs(last.conf) && IsRemote(last.conf, i)
    ensures var (name, s) := last.conf.subnets[i];
            var was, y := Left(tries), ViewOf(After(tries, last).store);
            && s.cidr in y.entries
            && PlaceOf(y, s.cidr) == (if s.cidr in was.entries then PlaceOf(was, s.cidr) else Some(name))
            && PlaceOf(y, s.cidr).Some?
  {
    var c, y := last.conf, ViewOf(After(tries, last).store);
    AfterEffect(tries, last);
    OnlyRemote(c, i);
    assert At(y.entries, c.subnets[i].1.cidr) == TurnsEntry(c, Left(tries), c.subnets[i].1.cidr, Turns(c));
  }

  /** A remote subnet ends on the segment of its own name exactly when it is new or was there
      already. */
  lemma OwnSegmentIff(tries: seq<Try>, last: Try, i: nat)
    requires After(tries, last).up && last.conf.routed && DistinctCidrs(last.conf) && IsRemote(last.conf, i)
    ensures var (name, s) := last.conf.subnets[i];
            PlaceOf(ViewOf(After(tries, last).store), s.cidr) == Some(name) <==>
              s.cidr !in Left(tries).entries || PlaceOf(Left(tries), s.cidr) == Some(name)
  {
    RemotePlace(tries, last, i);
  }

  /** Two remote subnets end on one segment exactly when they were on one, or one of them is
      new and the other was on the physical network of its name. */
  lemma SharedSegmentIff(tries: seq<Try>, last: Try, i: nat, j: nat)
    requires After(tries, last).up && last.conf.routed && DistinctCidrs(last.conf)
    requires IsRemote(last.conf, i) && IsRemote(last.conf, j) && last.conf.subnets[i].0 != last.conf.subnets[j].0
    ensures var (a, sa), (b, sb) := last.conf.subnets[i], last.conf.subnets[j];
            var was, y := Left(tries), ViewOf(After(tries, last).store);
            var oldA, oldB := sa.cidr in was.entries, sb.cidr in was.entries;
            PlaceOf(y, sa.cidr) == PlaceOf(y, sb.cidr) <==>
              || (oldA && oldB && PlaceOf(was, sa.cidr) == PlaceOf(was, sb.cidr))
              || (oldA && !oldB && PlaceOf(was, sa.cidr) == Some(b))
              || (oldB && !oldA && PlaceOf(was, sb.cidr) == Some(a))
  {
    RemotePlace(tries, last, i);
    RemotePlace(tries, last, j);
  }

  lemma LocalPlace(c: Conf, v: View, y: View)
    requires IsGoal(c, v, y) && c.routed && LocalCidr(c).Some?
    ensures var cidr := LocalCidr(c).value;
            PlaceOf(y, cidr) == if PlaceOf(v, cidr).Some? then PlaceOf(v, cidr) else Some(c.physnet)
  {
    assert At(y.entries, LocalCidr(c).value) == TurnsEntry(c, v, LocalCidr(c).value, Turns(c));
  }

  /** The local subnet ends on the configured physical network exactly when it was not on
      another one. */
  lemma LocalPlaceIff(tries: seq<Try>, last: Try)
    requires After(tries, last).up && last.conf.routed
    ensures LocalCidr(last.conf).Some?
    ensures var c, cidr := last.conf, LocalCidr(last.conf).value;
            PlaceOf(ViewOf(After(tries, last).store), cidr) == Some(c.physnet) <==>
              PlaceOf(Left(tries), cidr).None? || PlaceOf(Left(tries), cidr) == Some(c.physnet)
  {
    AfterEffect(tries, last);
    LocalPlace(last.conf, Left(tries), ViewOf(After(tries, last).store));
  }

  // ---------- a rename ----------

  /** One run with remote subnet `a`, and one in which it is called `b` and the name `a` goes
      to a new subnet. */
  predicate IsRename(first: Conf, second: Conf, local: SubnetConf, x: SubnetConf, y: SubnetConf, a: string, b: string) {
    && first.routed && second.routed && second.physnet == first.physnet && second.local == first.local
    && first.subnets == [(first.local, local), (a, x)]
    && second.subnets == [(first.local, local), (b, x), (a, y)]
    && first.local != a && first.local != b && a != b && first.physnet != a && first.physnet != b
    && local.cidr != x.cidr && local.cidr != y.cidr && x.cidr != y.cidr
  }

  lemma RenameLocal(first: Conf, second: Conf, local: SubnetConf, x: SubnetConf, y: SubnetConf, a: string, b: string)
    requires IsRename(first, second, local, x, y, a, b)
    ensures Lookup(first.subnets, first.local) == Some(local) && Lookup(second.subnets, second.local) == Some(local)
    ensures DistinctCidrs(first) && DistinctCidrs(second)
  {
    assert Firsts(first.subnets)[0] == first.local && Firsts(second.subnets)[0] == second.local;
  }

  /** After the first run. */
  lemma BeforeRename(first: Conf, second: Conf, local: SubnetConf, x: SubnetConf, y: SubnetConf, a: string, b: string, mid: View)
    requires IsRename(first, second, local, x, y, a, b) && IsGoal(first, NOTHING, mid)
    ensures x.cidr in mid.entries && PlaceOf(mid, x.cidr) == Some(a)
    ensures y.cidr !in mid.entries && b !in mid.names && mid.network.Some?
  {
    RenameLocal(first, second, local, x, y, a, b);
    OnlyRemote(first, 1);
    assert At(mid.entries, x.cidr) == TurnsEntry(first, NOTHING, x.cidr, Turns(first));
    assert At(mid.entries, y.cidr) == TurnsEntry(first, NOTHING, y.cidr, Turns(first));
    assert At(mid.names, b) == TurnsName(first, NOTHING, b, Turns(first));
    NotNamed(first, NOTHING, b, 2);
  }

  /** A segment is not named when no remote subnet is at home on it. */
  lemma NotNamed(c: Conf, v: View, p: string, n: nat)
    requires n <= |c.subnets|
    requires forall i: nat :: i < n && IsRemote(c, i) ==> Home(c, v, c.subnets[i].1.cidr) != Some(p)
    ensures LastNaming(c, v, p, n).None?
  {
  }

  lemma AfterRename(first: Conf, second: Conf, local: SubnetConf, x: SubnetConf, y: SubnetConf, a: string, b: string,
                    v: View, z: View)
    requires IsRename(first, second, local, x, y, a, b) && IsGoal(second, v, z)
    requires x.cidr in v.entries && PlaceOf(v, x.cidr) == Some(a) && y.cidr !in v.entries
    requires b !in v.names && v.network.Some?
    ensures b !in z.names
  {
    RenameLocal(first, second, local, x, y, a, b);
    OnlyRemote(second, 2);
    assert Home(second, v, x.cidr) == Some(a) == Home(second, v, y.cidr);
    NotNamed(second, v, b, 3);
    assert At(z.names, b) == TurnsName(second, v, b, Turns(second));
  }

  lemma RenameCompletes(first: Try, second: Try, local: SubnetConf, x: SubnetConf, y: SubnetConf, a: string, b: string)
    requires IsRename(first.conf, second.conf, local, x, y, a, b) && first.budget > 20 && second.budget > 26
    ensures After([], first).up && After([first], second).up
  {
    RenameLocal(first.conf, second.conf, local, x, y, a, b);
    RunCompletes([], first, first.conf.physnet, local.cidr);
    RunCompletes([first], second, first.conf.physnet, local.cidr);
  }

  /** The failing case: after both runs the renamed subnet is still on `a`, where the new one
      has joined it, and there is no segment for `b`. */
  lemma RenamedSubnetIsJoined(first: Try, second: Try, local: SubnetConf, x: SubnetConf, y: SubnetConf, a: string, b: string)
    requires IsRename(first.conf, second.conf, local, x, y, a, b) && first.budget > 20 && second.budget > 26
    ensures After([first], second).up
    ensures var z := ViewOf(After([first], second).store);
            PlaceOf(z, x.cidr) == PlaceOf(z, y.cidr) == Some(a) && b !in z.names
  {
    RenameCompletes(first, second, local, x, y, a, b);
    RenameLocal(first.conf, second.conf, local, x, y, a, b);
    AfterEffect([], first);
    assert Left([]) == NOTHING;
    BeforeRename(first.conf, second.conf, local, x, y, a, b, ViewOf(After([], first).store));
    LastRun([first]);
    assert [first][..0] == [];
    RemotePlace([first], second, 1);
    RemotePlace([first], second, 2);
    AfterEffect([first], second);
    AfterRename(first.conf, second.conf, local, x, y, a, b, Left([first]), ViewOf(After([first], second).store));
  }

  // ---------- under a naming discipline ----------

  /** Remote names and CIDRs go together as in `names`; remote CIDRs are never local ones, and
      remote names never a physical network. */
  ghost predicate Disciplined(names: map<string, string>, c: Conf) {
    && (forall a, b :: a in names && b in names && a != b ==> names[a] != names[b])
    && (forall i: nat :: IsRemote(c, i) ==> c.subnets[i].0 in names && names[c.subnets[i].0] == c.subnets[i].1.cidr)
    && (LocalCidr(c).Some? ==> LocalCidr(c).value !in names.Values)
    && c.physnet !in names
  }

  /** The subnets on the physical networks of the discipline are those that belong there. */
  ghost predicate Owned(names: map<string, string>, v: View) {
    forall cidr, name :: cidr in v.entries && name in names ==>
      (v.entries[cidr].physnet == Some(name) <==> names[name] == cidr)
  }

  lemma DisciplinedHome(names: map<string, string>, c: Conf, v: View, cidr: string, name: string)
    requires Disciplined(names, c) && Owned(names, v) && name in names && (cidr in v.entries || Configured(c, cidr))
    ensures Home(c, v, cidr) == Some(name) <==> names[name] == cidr
  {
    if cidr !in v.entries && Some(cidr) != LocalCidr(c) {
      var i := FirstRemote(c, cidr, |c.subnets|);
      assert LastRemote(c, cidr, Turns(c)).Some?;
      assert i.Some? && names[c.subnets[i.value].0] == cidr;
    }
  }

  lemma OwnedKept(names: map<string, string>, c: Conf, v: View, y: View)
    requires Disciplined(names, c) && Owned(names, v) && Between(c, v, y)
    ensures Owned(names, y)
  {
    forall cidr, name | cidr in y.entries && name in names
      ensures y.entries[cidr].physnet == Some(name) <==> names[name] == cidr
    {
      DisciplinedHome(names, c, v, cidr, name);
      assert EntryBetween(c, v, cidr, y.entries[cidr]);
    }
  }

  lemma OwnedHistory(names: map<string, string>, tries: seq<Try>)
    requires forall t :: t in tries ==> Disciplined(names, t.conf)
    ensures Owned(names, Left(tries))
  {
    forall t, v, y | t in tries && Owned(names, v) && Between(t.conf, v, y)
      ensures Owned(names, y)
    {
      OwnedKept(names, t.conf, v, y);
    }
    HistoryKeeps(tries, v => Owned(names, v));
  }

  /** Segment ownership: after any history of complete and aborted runs that keep to the
      discipline, a complete routed run leaves each configured remote subnet on the segment
      bearing its name and physical network, which no other subnet is on. */
  lemma SegmentOwnership(names: map<string, string>, tries: seq<Try>, last: Try, i: nat)
    requires (forall t :: t in tries ==> Disciplined(names, t.conf)) && Disciplined(names, last.conf)
    requires last.conf.routed && After(tries, last).up && IsRemote(last.conf, i)
    ensures var (name, s) := last.conf.subnets[i];
            var y := ViewOf(After(tries, last).store);
            && s.cidr in y.entries
            && (forall cidr :: cidr in y.entries ==> (y.entries[cidr].physnet == Some(name) <==> cidr == s.cidr))
            && At(y.names, name) == Some(name)
  {
    var c, v, y := last.conf, Left(tries), ViewOf(After(tries, last).store);
    var (name, s) := c.subnets[i];
    OwnedHistory(names, tries);
    AfterEffect(tries, last);
    OwnedKept(names, c, v, y);
    RemoteIsConfigured(c, i);
    assert At(y.entries, s.cidr) == TurnsEntry(c, v, s.cidr, Turns(c));
    OwnName(names, c, v, y, i);
  }

  lemma OwnName(names: map<string, string>, c: Conf, v: View, y: View, i: nat)
    requires Disciplined(names, c) && Owned(names, v) && c.routed && IsRemote(c, i) && IsGoal(c, v, y)
    ensures At(y.names, c.subnets[i].0) == Some(c.subnets[i].0)
  {
    var (name, s) := c.subnets[i];
    RemoteIsConfigured(c, i);
    DisciplinedHome(names, c, v, s.cidr, name);
    assert Names(c, v, i, name);
    var j := LastNaming(c, v, name, |c.subnets|).value;
    RemoteIsConfigured(c, j);
    DisciplinedHome(names, c, v, c.subnets[j].1.cidr, name);
    assert At(y.names, name) == TurnsName(c, v, name, Turns(c));
  }

  lemma DisciplinedCidrs(names: map<string, string>, c: Conf)
    requires Disciplined(names, c) && NoRepeats(Firsts(c.subnets))
    ensures DistinctCidrs(c)
  {
    var firsts := Firsts(c.subnets);
    forall i: nat, j: nat | i < j < |c.subnets| && IsRemote(c, i) && IsRemote(c, j)
      ensures c.subnets[i].1.cidr != c.subnets[j].1.cidr
    {
      assert firsts[i] == c.subnets[i].0 && firsts[j] == c.subnets[j].0;
    }
  }

  lemma DisciplinedSettled(names: map<string, string>, c: Conf, v: View, y: View)
    requires Disciplined(names, c) && NoRepeats(Firsts(c.subnets)) && c.routed && Covered(c, y) && IsGoal(c, v, y)
    requires Owned(names, v) && Owned(names, y)
    ensures Settled(c, y)
  {
    DisciplinedCidrs(names, c);
    forall i: nat | IsRemote(c, i)
      ensures SettledAt(c, y, i)
    {
      OwnName(names, c, v, y, i);
      OnlyRemote(c, i);
      assert At(y.entries, c.subnets[i].1.cidr) == TurnsEntry(c, v, c.subnets[i].1.cidr, Turns(c));
    }
    assert At(y.entries, LocalCidr(c).value) == TurnsEntry(c, v, LocalCidr(c).value, Turns(c));
  }

  /** Under the discipline, repeating a complete routed run leaves the store as it is even
      when the repeat is aborted. */
  lemma DisciplinedRepeat(names: map<string, string>, tries: seq<Try>, last: Try)
    requires (forall t :: t in tries ==> Disciplined(names, t.conf)) && Disciplined(names, last.conf)
    requires NoRepeats(Firsts(last.conf.subnets)) && last.conf.routed && After(tries, last).up
    ensures StoreStays(tries, last)
  {
    var v, y := Left(tries), ViewOf(After(tries, last).store);
    AbortedRepeatIff(tries, last);
    AfterEffect(tries, last);
    OwnedHistory(names, tries);
    OwnedKept(names, last.conf, v, y);
    DisciplinedSettled(names, last.conf, v, y);
  }
}
