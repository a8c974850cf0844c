/** Searching sequences, and sequences without repetitions. */
module Sequences {
  import opened Wrappers

  /** The first position of a key, if any. */
  function IndexOf<K(==)>(keys: seq<K>, key: K, from: nat := 0): (r: Option<nat>)
    requires from <= |keys|
    ensures r.Some? ==> from <= r.value < |keys| && keys[r.value] == key
    ensures forall i :: from <= i < (if r.Some? then r.value else |keys|) ==> keys[i] != key
    decreases |keys| - from
  {
    if from == |keys| then None
    else if keys[from] == key then Some(from)
    else IndexOf(keys, key, from + 1)
  }

  function Firsts<V>(pairs: seq<(string, V)>): seq<string> {
    seq(|pairs|, i requires 0 <= i < |pairs| => pairs[i].0)
  }

  /** The value of the first pair with this name. */
  function Lookup<V>(pairs: seq<(string, V)>, name: string): Option<V> {
    var i := IndexOf(Firsts(pairs), name);
    if i.Some? then Some(pairs[i.value].1) else None
  }

  predicate NoRepeats<T(==)>(s: seq<T>) {
    forall i, j :: 0 <= i < j < |s| ==> s[i] != s[j]
  }

  lemma LookupAt<V>(pairs: seq<(string, V)>, i: nat)
    requires i < |pairs| && NoRepeats(Firsts(pairs))
    ensures Lookup(pairs, pairs[i].0) == Some(pairs[i].1)
  {
    assert Firsts(pairs)[i] == pairs[i].0;
  }

  lemma LookupFinds<V>(pairs: seq<(string, V)>, name: string) returns (i: nat)
    requires Lookup(pairs, name).Some?
    ensures i < |pairs| && pairs[i] == (name, Lookup(pairs, name).value)
  {
    i := IndexOf(Firsts(pairs), name).value;
    assert Firsts(pairs)[i] == pairs[i].0;
  }

  lemma NoRepeatsInBoth<T>(a: seq<T>, z: seq<T>)
    requires NoRepeats(a) && NoRepeats(z) && forall x :: x in a ==> x !in z
    ensures NoRepeats(a + z)
  {
    forall i, j | 0 <= i < j < |a + z|
      ensures (a + z)[i] != (a + z)[j]
    {
      if i < |a| <= j {
        assert a[i] in a && z[j - |a|] in z;
      }
    }
  }

  lemma {:induction false} CountsAsSet<T>(s: seq<T>, all: set<T>)
    requires NoRepeats(s) && forall x :: x in s <==> x in all
    ensures |s| == |all|
  {
    if s == [] {
      assert all == {};
    } else {
      var rest := s[1..];
      assert s == [s[0]] + rest;
      assert s[0] !in rest;
      CountsAsSet(rest, all - {s[0]});
    }
  }
}
