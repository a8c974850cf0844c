/** Repeating a complete run and being aborted. */
module CtlplaneRepeats {
  import opened Sequences
  import opened Wrappers
  import opened Neutron
  import opened Ctlplane
  import opened CtlplaneMigration
  import opened CtlplaneViews
  import opened CtlplaneRefinement
  import opened CtlplaneEffects
  import opened CtlplaneFrames
  import opened CtlplaneTheorems
  import opened CtlplaneIdempotence

  /** The last to write is the only one: each configured subnet finds its attributes, and
      each remote one its name on the segment that it is on. */
  ghost predicate Settled(c: Conf, v: View)
    requires Covered(c, v)
  {
    && v.entries[LocalCidr(c).value].attrs == Final(c, c.local, Lookup(c.subnets, c.local).value)
    && (c.routed ==> forall i: nat :: IsRemote(c, i) ==> SettledAt(c, v, i))
  }

  ghost predicate SettledAt(c: Conf, v: View, i: nat)
    requires IsRemote(c, i)
  {
    var (name, s) := c.subnets[i];
    && s.cidr in v.entries && v.entries[s.cidr].physnet.Some?
    && v.entries[s.cidr].attrs == FinalAt(c, i)
    && At(v.names, v.entries[s.cidr].physnet.value) == Some(name)
  }

  lemma TurnIdle(c: Conf, v: View, n: nat, x: Exec')
    requires n < |c.subnets| && x.view == v && (IsRemote(c, n) ==> SettledAt(c, v, n))
    ensures Turn'(c, n, x).view == v
  {
    if IsRemote(c, n) {
      var (name, s) := c.subnets[n];
      assert PutName(v, v.entries[s.cidr].physnet, name) == v;
      assert PutAttrs(v, s.cidr, Final(c, name, s)) == v;
    }
  }

  lemma LocalIdle(c: Conf, v: View, x: Exec')
    requires x.view == v && Covered(c, v) && Settled(c, v)
    ensures Local'(c, x).view == v
  {
    assert PutAttrs(v, LocalCidr(c).value, Final(c, c.local, Lookup(c.subnets, c.local).value)) == v;
  }

  lemma RunIdle(c: Conf, v: View, x: Exec')
    requires x.view == v && Covered(c, v) && Settled(c, v)
    requires v.network == Some(Network(c.mtu, Tags(c)))
    ensures Run'(c, x).view == v
  {
    var e := EnsureNetwork'(c, x);
    assert e.view == v;
    LocalIdle(c, v, e);
    var l := Local'(c, e);
    if c.routed {
      forall k: nat, y: Exec' | k < |c.subnets| && y.view == v
        ensures Turn'(c, k, y).view == v
      {
        TurnIdle(c, v, k, y);
      }
      TurnsKeep(c, |c.subnets|, l, (k: nat, y: Exec') => y.view == v);
    }
  }

  /** The remote subnets among the first `n`. */
  function Count(c: Conf, n: nat): nat
    requires n <= |c.subnets|
  {
    if n == 0 then 0 else Count(c, n - 1) + if IsRemote(c, n - 1) then 1 else 0
  }

  /** Each remote subnet is there and on a segment, so that a turn takes four calls. */
  ghost predicate Linked(c: Conf, v: View) {
    forall i: nat :: IsRemote(c, i) ==>
      c.subnets[i].1.cidr in v.entries && v.entries[c.subnets[i].1.cidr].physnet.Some?
  }

  lemma TurnTakesFour(c: Conf, n: nat, x: Exec')
    requires n < |c.subnets| && x.up && Linked(c, x.view) && x.budget >= if IsRemote(c, n) then 4 else 0
    ensures var y := Turn'(c, n, x);
            y.up && Linked(c, y.view) && y.budget == x.budget - if IsRemote(c, n) then 4 else 0
  {
  }

  lemma {:induction false} TurnsTakeFour(c: Conf, n: nat, x: Exec', left: nat)
    requires n <= |c.subnets| && x.up && Linked(c, x.view) && x.budget == 4 * Count(c, n) + left
    ensures var y := Remotes'(c, n, x);
            y.up && Linked(c, y.view) && y.budget == left
  {
    if n > 0 {
      TurnsTakeFour(c, n - 1, x, left + if IsRemote(c, n - 1) then 4 else 0);
      TurnTakesFour(c, n - 1, Remotes'(c, n - 1, x));
    }
  }

  /** Without calls left, nothing changes any more. */
  lemma {:induction false} TurnsSpent(c: Conf, n: nat, m: nat, x: Exec')
    requires n <= m <= |c.subnets| && Remotes'(c, n, x).budget == 0
    ensures Remotes'(c, m, x).budget == 0 && Remotes'(c, m, x).view == Remotes'(c, n, x).view
  {
    if n < m {
      TurnsSpent(c, n, m - 1, x);
    }
  }

  /** The first five calls of a repeat write the local subnet's attributes. */
  lemma FirstFive(c: Conf, v: View, x: Exec')
    requires x.up && x.view == v && x.budget >= 5 && Covered(c, v) && v.network == Some(Network(c.mtu, Tags(c)))
    ensures var l := Local'(c, EnsureNetwork'(c, x));
            && l.up && l.budget == x.budget - 5
            && l.view == PutAttrs(v, LocalCidr(c).value, Final(c, c.local, Lookup(c.subnets, c.local).value))
  {
    assert EnsureNetwork'(c, x).view == v;
  }

  /** A repeat with no call left after the local subnet and `n` turns, or in turn `n`. */
  lemma CutOff(c: Conf, v: View, n: nat, x: Exec', left: nat)
    requires c.routed && x.up && x.view == v && Covered(c, v) && v.network == Some(Network(c.mtu, Tags(c)))
    requires n <= |c.subnets| && x.budget == 5 + 4 * Count(c, n) + left
    requires Linked(c, v)
    ensures var l := Local'(c, EnsureNetwork'(c, x));
            var r := Remotes'(c, n, l);
            && r.up && r.budget == left && Linked(c, r.view)
            && (left == 0 ==> Run'(c, x).view == r.view)
            && (n < |c.subnets| && Turn'(c, n, r).budget == 0 ==> Run'(c, x).view == Turn'(c, n, r).view)
  {
    FirstFive(c, v, x);
    var l := Local'(c, EnsureNetwork'(c, x));
    TurnsTakeFour(c, n, l, left);
    if left == 0 {
      TurnsSpent(c, n, |c.subnets|, l);
    }
    if n < |c.subnets| && Turn'(c, n, Remotes'(c, n, l)).budget == 0 {
      TurnsSpent(c, n + 1, |c.subnets|, l);
    }
  }

  function Repeat(v: View, budget: nat, created: nat): Exec' {
    Exec'(v, budget, created, true)
  }

  /** A repeat, wherever it is aborted, does not change the network. */
  ghost predicate IdleRepeats(c: Conf, v: View, created: nat) {
    forall budget :: Run'(c, Repeat(v, budget, created)).view == v
  }

  /** While it lives, what the loop does does not depend on the calls left. */
  lemma {:induction false} SameTurns(c: Conf, n: nat, x: Exec', y: Exec')
    requires n <= |c.subnets| && x.view == y.view && Remotes'(c, n, x).up && Remotes'(c, n, y).up
    ensures Remotes'(c, n, x).view == Remotes'(c, n, y).view
  {
    if n > 0 {
      TurnNeedsLife(c, n - 1, Remotes'(c, n - 1, x));
      TurnNeedsLife(c, n - 1, Remotes'(c, n - 1, y));
      SameTurns(c, n - 1, x, y);
      SameTurn(c, n - 1, Remotes'(c, n - 1, x), Remotes'(c, n - 1, y));
    }
  }

  lemma TurnNeedsLife(c: Conf, n: nat, x: Exec')
    requires n < |c.subnets|
    ensures Turn'(c, n, x).up ==> x.up
  {
  }

  lemma SameTurn(c: Conf, n: nat, x: Exec', y: Exec')
    requires n < |c.subnets| && x.view == y.view && Turn'(c, n, x).up && Turn'(c, n, y).up
    ensures Turn'(c, n, x).view == Turn'(c, n, y).view
  {
  }

  /** After a complete run: the network, the local subnet and the remote ones are there. */
  ghost predicate Complete(c: Conf, v: View) {
    v.network == Some(Network(c.mtu, Tags(c))) && Covered(c, v) && (c.routed ==> Linked(c, v))
  }

  lemma LocalMustSettle(c: Conf, v: View, created: nat)
    requires IdleRepeats(c, v, created) && c.routed && Complete(c, v)
    ensures v.entries[LocalCidr(c).value].attrs == Final(c, c.local, Lookup(c.subnets, c.local).value)
  {
    var x := Repeat(v, 5, created);
    CutOff(c, v, 0, x, 0);
    FirstFive(c, v, x);
    assert Run'(c, x).view == v;
  }

  /** Where a repeat is after `n` turns, with some calls left. */
  lemma AtTurn(c: Conf, v: View, n: nat, left: nat, created: nat) returns (r: Exec')
    requires IdleRepeats(c, v, created) && c.routed && Complete(c, v) && n <= |c.subnets|
    ensures r == Repeat(v, left, created)
    ensures n < |c.subnets| && Turn'(c, n, r).budget == 0 ==> Turn'(c, n, r).view == v
  {
    var x0, x := Repeat(v, 5 + 4 * Count(c, n), created), Repeat(v, 5 + 4 * Count(c, n) + left, created);
    CutOff(c, v, n, x0, 0);
    CutOff(c, v, n, x, left);
    FirstFive(c, v, x0);
    FirstFive(c, v, x);
    SameTurns(c, n, Local'(c, EnsureNetwork'(c, x0)), Local'(c, EnsureNetwork'(c, x)));
    assert Run'(c, x0).view == v && Run'(c, x).view == v;
    r := Remotes'(c, n, Local'(c, EnsureNetwork'(c, x)));
    CountIsNone(c, n, x);
  }

  lemma CountIsNone(c: Conf, n: nat, x: Exec')
    requires n <= |c.subnets| && Covered(c, x.view) && c.routed
    ensures Remotes'(c, n, Local'(c, EnsureNetwork'(c, x))).created == x.created
  {
    var l := Local'(c, EnsureNetwork'(c, x));
    assert StaysCovered(c, x, EnsureNetwork'(c, x));
    LocalCovered(c, EnsureNetwork'(c, x));
    forall k: nat, y | k < |c.subnets| && StaysCovered(c, l, y)
      ensures StaysCovered(c, l, Turn'(c, k, y))
    {
      TurnCovered(c, k, y);
    }
    TurnsKeep(c, n, l, (k: nat, y: Exec') => StaysCovered(c, l, y));
  }

  lemma RemoteMustSettle(c: Conf, v: View, n: nat, created: nat)
    requires IdleRepeats(c, v, created) && c.routed && Complete(c, v) && IsRemote(c, n)
    ensures SettledAt(c, v, n)
  {
    var (name, s) := c.subnets[n];
    var r3 := AtTurn(c, v, n, 3, created);
    var r4 := AtTurn(c, v, n, 4, created);
    var physnet := v.entries[s.cidr].physnet;
    assert Turn'(c, n, r3).view == PutName(v, physnet, name);
    assert Turn'(c, n, r4).view == PutAttrs(PutName(v, physnet, name), s.cidr, FinalAt(c, n));
    assert v.names == v.names[physnet.value := name];
    assert v.entries == v.entries[s.cidr := v.entries[s.cidr].(attrs := FinalAt(c, n))];
  }

  lemma GoalIsComplete(c: Conf, v: View, y: View)
    requires IsGoal(c, v, y) && LocalCidr(c).Some?
    ensures Complete(c, y)
    ensures !c.routed ==> Settled(c, y)
  {
    GoalIsCovered(c, v, y);
    var cidr := LocalCidr(c).value;
    assert At(y.entries, cidr) == TurnsEntry(c, v, cidr, Turns(c));
    if c.routed {
      forall i: nat | IsRemote(c, i)
        ensures c.subnets[i].1.cidr in y.entries && y.entries[c.subnets[i].1.cidr].physnet.Some?
      {
        assert At(y.entries, c.subnets[i].1.cidr) == TurnsEntry(c, v, c.subnets[i].1.cidr, Turns(c));
      }
    }
  }

  lemma IdleIff(c: Conf, v: View, created: nat)
    requires Complete(c, v) && (!c.routed ==> Settled(c, v))
    ensures IdleRepeats(c, v, created) <==> Settled(c, v)
  {
    if Settled(c, v) {
      forall budget
        ensures Run'(c, Repeat(v, budget, created)).view == v
      {
        RunIdle(c, v, Repeat(v, budget, created));
      }
    } else if IdleRepeats(c, v, created) {
      LocalMustSettle(c, v, created);
      forall i: nat | IsRemote(c, i)
        ensures SettledAt(c, v, i)
      {
        RemoteMustSettle(c, v, i, created);
      }
    }
  }

  /** No repeat of the last run, however many calls succeed before one raises, changes the
      store. */
  ghost predicate StoreStays(tries: seq<Try>, last: Try) {
    forall again: Try :: again.conf == last.conf ==>
      Run(again.conf, Again(tries, last, again)).store == Again(tries, last, again).store
  }

  /** An aborted repeat leaves the store as it is, wherever it is aborted, if and only if each
      configured subnet finds its own attributes and each remote one its own name on its
      segment, that is, if no other configured subnet has written over them. */
  lemma AbortedRepeatIff(tries: seq<Try>, last: Try)
    requires After(tries, last).up
    ensures Covered(last.conf, ViewOf(After(tries, last).store))
    ensures StoreStays(tries, last) <==> Settled(last.conf, ViewOf(After(tries, last).store))
  {
    var c, v := last.conf, ViewOf(After(tries, last).store);
    AfterEffect(tries, last);
    GoalIsComplete(c, Left(tries), v);
    IdleIff(c, v, Created(After(tries, last).log));
    StoreStaysIff(tries, last);
  }

  lemma StoreStaysIff(tries: seq<Try>, last: Try)
    requires After(tries, last).up
    ensures StoreStays(tries, last) <==>
              IdleRepeats(last.conf, ViewOf(After(tries, last).store), Created(After(tries, last).log))
  {
    var c, v, created := last.conf, ViewOf(After(tries, last).store), Created(After(tries, last).log);
    if IdleRepeats(c, v, created) {
      forall again: Try | again.conf == c
        ensures Run(c, Again(tries, last, again)).store == Again(tries, last, again).store
      {
        IdleStore(tries, last, again);
      }
    }
    if StoreStays(tries, last) {
      forall budget
        ensures Run'(c, Repeat(v, budget, created)).view == v
      {
        var again := Try(c, budget, 0);
        RepeatRefines(tries, last, again);
        assert Run(again.conf, Again(tries, last, again)).store == Again(tries, last, again).store;
      }
    }
  }

  lemma IdleStore(tries: seq<Try>, last: Try, again: Try)
    requires After(tries, last).up && again.conf == last.conf
    requires IdleRepeats(last.conf, ViewOf(After(tries, last).store), Created(After(tries, last).log))
    ensures Run(again.conf, Again(tries, last, again)).store == Again(tries, last, again).store
  {
    Idempotence(tries, last, again);
    RepeatRefines(tries, last, again);
    var x := Again(tries, last, again);
    assert Abs(x) == Repeat(ViewOf(After(tries, last).store), again.budget, Created(After(tries, last).log));
    SameStore(x.store, Run(again.conf, x).store);
  }
}
