/** The search with callbacks over nested data, and the MySQL check built on it. */
module MysqlValidator {
  import opened Sequences
  import opened Wrappers
  import opened NestedData

  /** What a callback answers; testing membership in a number or a null raises. */
  datatype Verdict = Yes | No | Raise

  /** `search`: true at the first item or entry that a callback accepts. */
  function Search(item: Data, checkItem: Data -> Verdict, checkKey: (string, Data) -> Verdict): Verdict
    decreases item, |Children(item)| + 1
  {
    var v := checkItem(item);
    if v != No then v else SearchFrom(item, checkItem, checkKey, 0)
  }

  function SearchFrom(item: Data, checkItem: Data -> Verdict, checkKey: (string, Data) -> Verdict, n: nat): Verdict
    requires n <= |Children(item)|
    decreases item, |Children(item)| - n
  {
    if n == |Children(item)| then No else
      var (step, child) := Children(item)[n];
      var atKey := if step.Key? then checkKey(step.name, child) else No;
      if atKey != No then atKey else
        var inside := Search(child, checkItem, checkKey);
        if inside != No then inside else SearchFrom(item, checkItem, checkKey, n + 1)
  }

  // ---------- the order of the callbacks ----------

  datatype Visit = Item(d: Data) | Entry(key: string, value: Data)

  function Visits(item: Data): seq<Visit>
    decreases item, |Children(item)| + 1
  {
    [Item(item)] + VisitsFrom(item, 0)
  }

  function VisitsFrom(item: Data, n: nat): seq<Visit>
    requires n <= |Children(item)|
    decreases item, |Children(item)| - n
  {
    if n == |Children(item)| then [] else
      var (step, child) := Children(item)[n];
      (if step.Key? then [Entry(step.name, child)] else []) + Visits(child) + VisitsFrom(item, n + 1)
  }

  function Ask(v: Visit, checkItem: Data -> Verdict, checkKey: (string, Data) -> Verdict): Verdict {
    match v
    case Item(d) => checkItem(d)
    case Entry(key, value) => checkKey(key, value)
  }

  /** The first answer that is not `No`. */
  function First(visits: seq<Visit>, checkItem: Data -> Verdict, checkKey: (string, Data) -> Verdict): Verdict {
    if visits == [] then No else
      var v := Ask(visits[0], checkItem, checkKey);
      if v != No then v else First(visits[1..], checkItem, checkKey)
  }

  lemma {:induction false} FirstInTwo(a: seq<Visit>, z: seq<Visit>, checkItem: Data -> Verdict, checkKey: (string, Data) -> Verdict)
    ensures First(a + z, checkItem, checkKey) ==
              (var v := First(a, checkItem, checkKey); if v != No then v else First(z, checkItem, checkKey))
  {
    if a == [] {
      assert a + z == z;
    } else {
      assert (a + z)[1..] == a[1..] + z;
      FirstInTwo(a[1..], z, checkItem, checkKey);
    }
  }

  /** The recursive search is the first decisive answer in visiting order. */
  lemma {:induction false} SearchIsFirst(item: Data, checkItem: Data -> Verdict, checkKey: (string, Data) -> Verdict)
    ensures Search(item, checkItem, checkKey) == First(Visits(item), checkItem, checkKey)
    decreases item, |Children(item)| + 1
  {
    FirstInTwo([Item(item)], VisitsFrom(item, 0), checkItem, checkKey);
    SearchFromIsFirst(item, checkItem, checkKey, 0);
    assert [Item(item)][1..] == [];
  }

  lemma {:induction false} SearchFromIsFirst(item: Data, checkItem: Data -> Verdict, checkKey: (string, Data) -> Verdict, n: nat)
    requires n <= |Children(item)|
    ensures SearchFrom(item, checkItem, checkKey, n) == First(VisitsFrom(item, n), checkItem, checkKey)
    decreases item, |Children(item)| - n
  {
    if n < |Children(item)| {
      var (step, child) := Children(item)[n];
      var key := if step.Key? then [Entry(step.name, child)] else [];
      FirstInTwo(key + Visits(child), VisitsFrom(item, n + 1), checkItem, checkKey);
      FirstInTwo(key, Visits(child), checkItem, checkKey);
      SearchIsFirst(child, checkItem, checkKey);
      SearchFromIsFirst(item, checkItem, checkKey, n + 1);
      assert key != [] ==> key[1..] == [];
    }
  }

  /** The first answer is the one that only refusals precede. */
  lemma {:induction false} FirstAt(visits: seq<Visit>, checkItem: Data -> Verdict, checkKey: (string, Data) -> Verdict, i: nat)
    requires i < |visits| && Ask(visits[i], checkItem, checkKey) != No
    requires forall j :: 0 <= j < i ==> Ask(visits[j], checkItem, checkKey) == No
    ensures First(visits, checkItem, checkKey) == Ask(visits[i], checkItem, checkKey)
  {
    if i > 0 {
      var rest := visits[1..];
      assert forall j :: 0 <= j < i ==> rest[j] == visits[j + 1];
      FirstAt(rest, checkItem, checkKey, i - 1);
    }
  }

  // ---------- what is visited ----------

  /** `x` is `d` or occurs somewhere inside it. */
  predicate Inside(x: Data, d: Data)
    decreases d
  {
    x == d || exists i :: 0 <= i < |Children(d)| && Inside(x, Children(d)[i].1)
  }

  /** Some mapping inside `d` has this entry. */
  predicate EntryInside(key: string, value: Data, d: Data)
    decreases d
  {
    || (d.Dict? && (key, value) in d.entries)
    || exists i :: 0 <= i < |Children(d)| && EntryInside(key, value, Children(d)[i].1)
  }

  lemma {:induction false} VisitsItems(d: Data, x: Data)
    ensures Item(x) in Visits(d) <==> Inside(x, d)
    decreases d, |Children(d)| + 1
  {
    VisitsItemsFrom(d, x, 0);
  }

  lemma {:induction false} VisitsItemsFrom(d: Data, x: Data, n: nat)
    requires n <= |Children(d)|
    ensures Item(x) in VisitsFrom(d, n) <==> exists i :: n <= i < |Children(d)| && Inside(x, Children(d)[i].1)
    decreases d, |Children(d)| - n
  {
    if n < |Children(d)| {
      var (step, child) := Children(d)[n];
      var key, rest := if step.Key? then [Entry(step.name, child)] else [], VisitsFrom(d, n + 1);
      VisitsItems(child, x);
      VisitsItemsFrom(d, x, n + 1);
      InThree(Item(x), key, Visits(child), rest);
      assert Item(x) !in key;
      assert Inside(x, child) == Inside(x, Children(d)[n].1);
    }
  }

  lemma InThree(v: Visit, a: seq<Visit>, b: seq<Visit>, c: seq<Visit>)
    ensures v in a + b + c <==> v in a || v in b || v in c
  {
  }

  lemma {:induction false} VisitsEntries(d: Data, key: string, value: Data)
    ensures Entry(key, value) in Visits(d) <==> EntryInside(key, value, d)
    decreases d, |Children(d)| + 1
  {
    VisitsEntriesFrom(d, key, value, 0);
    if EntryInside(key, value, d) {
      if d.Dict? && (key, value) in d.entries {
        var i :| 0 <= i < |d.entries| && d.entries[i] == (key, value);
        assert EntryAt(key, value, d, i);
      } else {
        var i :| 0 <= i < |Children(d)| && EntryInside(key, value, Children(d)[i].1);
        assert EntryAt(key, value, d, i);
      }
    }
    if i :| 0 <= i < |Children(d)| && EntryAt(key, value, d, i) {
      assert Children(d)[i] == (Key(key), value) ==> d.Dict? && d.entries[i] == (key, value);
    }
  }

  /** The entry is at this child or inside it. */
  predicate EntryAt(key: string, value: Data, d: Data, i: nat)
    requires i < |Children(d)|
  {
    Children(d)[i] == (Key(key), value) || EntryInside(key, value, Children(d)[i].1)
  }

  lemma {:induction false} VisitsEntriesFrom(d: Data, key: string, value: Data, n: nat)
    requires n <= |Children(d)|
    ensures Entry(key, value) in VisitsFrom(d, n) <==> exists i :: n <= i < |Children(d)| && EntryAt(key, value, d, i)
    decreases d, |Children(d)| - n
  {
    if n < |Children(d)| {
      var (step, child) := Children(d)[n];
      var here, rest := if step.Key? then [Entry(step.name, child)] else [], VisitsFrom(d, n + 1);
      VisitsEntries(child, key, value);
      VisitsEntriesFrom(d, key, value, n + 1);
      InThree(Entry(key, value), here, Visits(child), rest);
      assert EntryAt(key, value, d, n) <==> Entry(key, value) in here || Entry(key, value) in Visits(child);
    }
  }

  // ---------- the callbacks of the check ----------

  predicate EndsWith(s: string, suffix: string) {
    |suffix| <= |s| && s[|s| - |suffix|..] == suffix
  }

  predicate Substring(part: string, s: string) {
    exists i :: 0 <= i <= |s| && part <= s[i..]
  }

  /** The `in` operator with a string on its left. */
  function In(s: string, d: Data): Verdict {
    match d
    case Text(t) => if Substring(s, t) then Yes else No
    case List(items) => if Text(s) in items then Yes else No
    case Dict(entries) => if Lookup(entries, s).Some? then Yes else No
    case Other(_) => Raise
  }

  const PROTOCOL := List([Text("EndpointMap"), Text("MysqlInternal"), Text("protocol")])

  function MysqlProtocol(d: Data): Verdict {
    if d == PROTOCOL then Yes else No
  }

  function ClientBindAddress(d: Data): Verdict {
    var file := In("read_default_file", d);
    if file != Yes then file else In("read_default_group", d)
  }

  function NoOpKey(key: string, value: Data): Verdict {
    No
  }

  // ---------- what the check is for ----------

  /** A node mentions a name: a text as a part of it, a list as an item, a mapping as a key. */
  ghost predicate Mentions(x: Data, name: string) {
    match x
    case Text(t) => exists before, after :: t == before + name + after
    case List(items) => exists i :: 0 <= i < |items| && items[i] == Text(name)
    case Dict(entries) => exists i :: 0 <= i < |entries| && entries[i].0 == name
    case Other(_) => false
  }

  ghost predicate MentionsBoth(x: Data) {
    Mentions(x, "read_default_file") && Mentions(x, "read_default_group")
  }

  /** An entry is a MySQL connection: its key ends in that word, and the list that looks up
      the MySQL protocol in the endpoint map is somewhere in its value. */
  ghost predicate Connects(key: string, value: Data) {
    && (exists before :: key == before + "connection")
    && Inside(List([Text("EndpointMap"), Text("MysqlInternal"), Text("protocol")]), value)
  }

  /** An entry is to be reported: a MySQL connection with no node mentioning both options. */
  ghost predicate Bad(key: string, value: Data) {
    Connects(key, value) && forall x :: Inside(x, value) ==> !MentionsBoth(x)
  }

  /** An entry makes the check raise: a MySQL connection where a number or null is visited
      before any node mentioning both options. */
  ghost predicate Breaks(key: string, value: Data) {
    Connects(key, value) && exists i :: BreaksAt(Visits(value), i)
  }

  ghost predicate BreaksAt(visits: seq<Visit>, i: int) {
    && 0 <= i < |visits| && visits[i].Item? && visits[i].d.Other?
    && forall j :: 0 <= j < i && visits[j].Item? ==> !visits[j].d.Other? && !MentionsBoth(visits[j].d)
  }

  lemma EndsWithIs(s: string, suffix: string)
    ensures EndsWith(s, suffix) <==> exists before :: s == before + suffix
  {
    if EndsWith(s, suffix) {
      assert s == s[..|s| - |suffix|] + suffix;
    }
    if before :| s == before + suffix {
      assert s[|before|..] == suffix;
    }
  }

  lemma SubstringIs(part: string, s: string)
    ensures Substring(part, s) <==> exists before, after :: s == before + part + after
  {
    if i :| 0 <= i <= |s| && part <= s[i..] {
      assert s == s[..i] + part + s[i + |part|..];
    }
    if before, after :| s == before + part + after {
      assert s[|before|..] == part + after;
    }
  }

  lemma InIs(name: string, d: Data)
    ensures In(name, d) == if d.Other? then Raise else if Mentions(d, name) then Yes else No
  {
    match d
    case Text(t) => SubstringIs(name, t);
    case List(items) =>
    case Dict(entries) =>
      var i := IndexOf(Firsts(entries), name);
      assert forall k :: 0 <= k < |entries| ==> Firsts(entries)[k] == entries[k].0;
    case Other(_) =>
  }

  /** The second callback asks for both options, and raises on a number or null. */
  lemma AsksForBoth(d: Data)
    ensures ClientBindAddress(d) == if d.Other? then Raise else if MentionsBoth(d) then Yes else No
  {
    InIs("read_default_file", d);
    InIs("read_default_group", d);
  }

  lemma ProtocolFound(value: Data)
    ensures Search(value, MysqlProtocol, NoOpKey) ==
              if Inside(List([Text("EndpointMap"), Text("MysqlInternal"), Text("protocol")]), value) then Yes else No
  {
    var visits := Visits(value);
    SearchIsFirst(value, MysqlProtocol, NoOpKey);
    VisitsItems(value, PROTOCOL);
    NeverRaises(visits);
    if Inside(PROTOCOL, value) {
      var i :| 0 <= i < |visits| && visits[i] == Item(PROTOCOL);
      SomeAnswer(visits, MysqlProtocol, NoOpKey, i);
    } else if First(visits, MysqlProtocol, NoOpKey) != No {
      var i := FirstDecides(visits, MysqlProtocol, NoOpKey);
    }
  }

  lemma {:induction false} NeverRaises(visits: seq<Visit>)
    ensures First(visits, MysqlProtocol, NoOpKey) != Raise
  {
    if visits != [] {
      NeverRaises(visits[1..]);
    }
  }

  lemma {:induction false} SomeAnswer(visits: seq<Visit>, checkItem: Data -> Verdict, checkKey: (string, Data) -> Verdict, i: nat)
    requires i < |visits| && Ask(visits[i], checkItem, checkKey) != No
    ensures First(visits, checkItem, checkKey) != No
  {
    if i > 0 {
      SomeAnswer(visits[1..], checkItem, checkKey, i - 1);
    }
  }

  lemma {:induction false} FirstDecides(visits: seq<Visit>, checkItem: Data -> Verdict, checkKey: (string, Data) -> Verdict) returns (i: nat)
    requires First(visits, checkItem, checkKey) != No
    ensures i < |visits| && Ask(visits[i], checkItem, checkKey) == First(visits, checkItem, checkKey)
    ensures forall j :: 0 <= j < i ==> Ask(visits[j], checkItem, checkKey) == No
  {
    if Ask(visits[0], checkItem, checkKey) != No {
      i := 0;
    } else {
      var k := FirstDecides(visits[1..], checkItem, checkKey);
      i := k + 1;
      assert forall j :: 0 < j < i ==> visits[j] == visits[1..][j - 1];
    }
  }

  /** The second search raises exactly for the entries that break, and otherwise fails to
      find the options exactly for the bad ones. */
  lemma BindAddressFound(key: string, value: Data)
    requires Connects(key, value)
    ensures var v := Search(value, ClientBindAddress, NoOpKey);
            && (v == Raise <==> Breaks(key, value))
            && (v != Raise ==> (v == No <==> Bad(key, value)))
  {
    BindAddressRaises(key, value);
    BindAddressMissing(value);
  }

  lemma BindAddressRaises(key: string, value: Data)
    requires Connects(key, value)
    ensures Search(value, ClientBindAddress, NoOpKey) == Raise <==> Breaks(key, value)
  {
    if Search(value, ClientBindAddress, NoOpKey) == Raise {
      RaisesIfBreaks(key, value);
    }
    if Breaks(key, value) {
      BreaksIfRaises(key, value);
    }
  }

  lemma RaisesIfBreaks(key: string, value: Data)
    requires Connects(key, value) && Search(value, ClientBindAddress, NoOpKey) == Raise
    ensures Breaks(key, value)
  {
    var visits := Visits(value);
    SearchIsFirst(value, ClientBindAddress, NoOpKey);
    var i := FirstDecides(visits, ClientBindAddress, NoOpKey);
    AsksForBoth(visits[i].d);
    forall j | 0 <= j < i && visits[j].Item?
      ensures !visits[j].d.Other? && !MentionsBoth(visits[j].d)
    {
      assert Ask(visits[j], ClientBindAddress, NoOpKey) == No;
      AsksForBoth(visits[j].d);
    }
    assert BreaksAt(visits, i);
  }

  lemma BreaksIfRaises(key: string, value: Data)
    requires Breaks(key, value)
    ensures Search(value, ClientBindAddress, NoOpKey) == Raise
  {
    var visits := Visits(value);
    SearchIsFirst(value, ClientBindAddress, NoOpKey);
    var i :| BreaksAt(visits, i);
    AsksForBoth(visits[i].d);
    forall j | 0 <= j < i
      ensures Ask(visits[j], ClientBindAddress, NoOpKey) == No
    {
      if visits[j].Item? {
        AsksForBoth(visits[j].d);
      }
    }
    FirstAt(visits, ClientBindAddress, NoOpKey, i);
  }

  lemma BindAddressMissing(value: Data)
    ensures var v := Search(value, ClientBindAddress, NoOpKey);
            && (v == No ==> forall x :: Inside(x, value) ==> !MentionsBoth(x))
            && (v == Yes ==> exists x :: Inside(x, value) && MentionsBoth(x))
  {
    var visits := Visits(value);
    var v := Search(value, ClientBindAddress, NoOpKey);
    SearchIsFirst(value, ClientBindAddress, NoOpKey);
    if v == Yes {
      var i := FirstDecides(visits, ClientBindAddress, NoOpKey);
      assert visits[i] in visits;
      VisitsItems(value, visits[i].d);
      AsksForBoth(visits[i].d);
    } else if v == No {
      forall x | Inside(x, value)
        ensures !MentionsBoth(x)
      {
        VisitsItems(value, x);
        var i :| 0 <= i < |visits| && visits[i] == Item(x);
        AsksForBoth(x);
        if ClientBindAddress(x) != No {
          SomeAnswer(visits, ClientBindAddress, NoOpKey, i);
        }
      }
    }
  }

  // ---------- the check ----------

  class Validator {
    var errorStatus: nat

    constructor ()
      ensures errorStatus == 0
    {
      errorStatus := 0;
    }

    /** The callback on entries: it answers no, and notes an error on the side. */
    method ValidateMysqlUri(key: string, items: Data) returns (ok: bool)
      modifies this
      ensures ok <==> !Breaks(key, items)
      ensures ok ==> errorStatus == if Bad(key, items) then 1 else old(errorStatus)
    {
      ok := true;
      ProtocolFound(items);
      EndsWithIs(key, "connection");
      if EndsWith(key, "connection") && Search(items, MysqlProtocol, NoOpKey) == Yes {
        BindAddressFound(key, items);
        var found := Search(items, ClientBindAddress, NoOpKey);
        if found == Raise {
          ok := false;
        } else if found == No {
          errorStatus := 1;
        }
      }
    }

    /** The outer search.  Its callbacks never accept, so it visits every entry. */
    method SearchSettings(item: Data) returns (ok: bool)
      modifies this
      ensures ok <==> !SomeBreaks(Visits(item))
      ensures ok ==> errorStatus == if SomeBad(Visits(item)) then 1 else old(errorStatus)
      decreases item
    {
      ok := true;
      var children := Children(item);
      SomeInTwo([Item(item)], VisitsFrom(item, 0));
      SomeOfOne(item, Index(0), item);
      for n := 0 to |children|
        invariant ok
        invariant SomeBreaks(Visits(item)) <==> SomeBreaks(VisitsFrom(item, n))
        invariant (if SomeBad(Visits(item)) then 1 else old(errorStatus)) ==
                  if SomeBad(VisitsFrom(item, n)) then 1 else errorStatus
      {
        var (step, child) := children[n];
        ghost var here := if step.Key? then [Entry(step.name, child)] else [];
        SomeInTwo(here + Visits(child), VisitsFrom(item, n + 1));
        SomeInTwo(here, Visits(child));
        SomeOfOne(item, step, child);
        if step.Key? {
          ok := ValidateMysqlUri(step.name, child);
          if !ok { return; }
        }
        ok := SearchSettings(child);
        if !ok { return; }
      }
    }
  }

  ghost predicate SomeBad(visits: seq<Visit>) {
    exists key, value :: Entry(key, value) in visits && Bad(key, value)
  }

  ghost predicate SomeBreaks(visits: seq<Visit>) {
    exists key, value :: Entry(key, value) in visits && Breaks(key, value)
  }

  lemma SomeInTwo(a: seq<Visit>, z: seq<Visit>)
    ensures SomeBad(a + z) <==> SomeBad(a) || SomeBad(z)
    ensures SomeBreaks(a + z) <==> SomeBreaks(a) || SomeBreaks(z)
  {
    assert forall v :: v in a + z <==> v in a || v in z;
  }

  lemma SomeOfOne(item: Data, step: Step, child: Data)
    ensures !SomeBad([Item(item)]) && !SomeBreaks([Item(item)])
    ensures var here := if step.Key? then [Entry(step.name, child)] else [];
            && (SomeBad(here) <==> step.Key? && Bad(step.name, child))
            && (SomeBreaks(here) <==> step.Key? && Breaks(step.name, child))
  {
    if step.Key? {
      assert Entry(step.name, child) in [Entry(step.name, child)];
    }
  }

  lemma SomeInside(settings: Data)
    ensures SomeBad(Visits(settings)) <==> exists key, value :: EntryInside(key, value, settings) && Bad(key, value)
    ensures SomeBreaks(Visits(settings)) <==> exists key, value :: EntryInside(key, value, settings) && Breaks(key, value)
  {
    forall key, value
      ensures Entry(key, value) in Visits(settings) <==> EntryInside(key, value, settings)
    {
      VisitsEntries(settings, key, value);
    }
  }

  /** The check decides its specification: it raises exactly when some entry breaks it, and
      otherwise returns 1 exactly when some entry at any depth is bad. */
  method ValidateMysqlConnection(settings: Data) returns (r: Option<nat>)
    ensures r.None? <==> exists key, value :: EntryInside(key, value, settings) && Breaks(key, value)
    ensures r.Some? ==> r.value == if exists key, value :: EntryInside(key, value, settings) && Bad(key, value) then 1 else 0
  {
    SomeInside(settings);
    var validator := new Validator();
    var ok := validator.SearchSettings(settings);
    r := if ok then Some(validator.errorStatus) else None;
  }

  /** Settings without numbers and nulls never raise. */
  predicate AllText(d: Data)
    decreases d
  {
    !d.Other? && forall i :: 0 <= i < |Children(d)| ==> AllText(Children(d)[i].1)
  }

  lemma {:induction false} InsideAllText(x: Data, d: Data)
    requires AllText(d) && Inside(x, d)
    ensures AllText(x)
    decreases d
  {
    if x != d {
      var i :| 0 <= i < |Children(d)| && Inside(x, Children(d)[i].1);
      InsideAllText(x, Children(d)[i].1);
    }
  }

  lemma {:induction false} EntryAllText(key: string, value: Data, d: Data)
    requires AllText(d) && EntryInside(key, value, d)
    ensures AllText(value)
    decreases d
  {
    if d.Dict? && (key, value) in d.entries {
      var i :| 0 <= i < |d.entries| && d.entries[i] == (key, value);
      assert Children(d)[i] == (Key(key), value);
    } else {
      var i :| 0 <= i < |Children(d)| && EntryInside(key, value, Children(d)[i].1);
      EntryAllText(key, value, Children(d)[i].1);
    }
  }

  lemma TextNeverBreaks(settings: Data, key: string, value: Data)
    requires AllText(settings) && EntryInside(key, value, settings)
    ensures !Breaks(key, value)
  {
    EntryAllText(key, value, settings);
    if Breaks(key, value) {
      var visits := Visits(value);
      var i :| BreaksAt(visits, i);
      assert visits[i] in visits;
      VisitsItems(value, visits[i].d);
      InsideAllText(visits[i].d, value);
    }
  }
}
