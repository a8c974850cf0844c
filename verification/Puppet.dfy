/** Merging the puppet services that share a config volume, and the hash of the configuration
    that a container mounts. */
module Puppet {
  import opened Text
  import opened Wrappers

  /** A service in its mapping form; a key that is absent or null is `None`. */
  datatype Service = Service(configVolume: Option<string>, puppetTags: Option<string>, stepConfig: Option<string>,
                             configImage: Option<string>, volumes: seq<string>, privileged: bool)

  /** A service as it is kept: only a list with the values, of which the tags may be null. */
  datatype Row = Row(tags: Option<string>, manifest: string, image: string, volumes: seq<string>, privileged: bool)

  function OrEmpty(s: Option<string>): string {
    if s.Some? then s.value else ""
  }

  /** Formatting a value that may be null. */
  function Shown(s: Option<string>): string {
    if s.Some? then s.value else "None"
  }

  function KeyOf(s: Service): string {
    OrEmpty(s.configVolume)
  }

  predicate Usable(s: Option<Service>) {
    s.Some? && OrEmpty(s.value.stepConfig) != "" && OrEmpty(s.value.configImage) != ""
  }

  function FirstRow(s: Service): Row {
    Row(s.puppetTags, OrEmpty(s.stepConfig), OrEmpty(s.configImage), s.volumes, s.privileged)
  }

  function AddTo(row: Row, s: Service): Row {
    row.(tags := if OrEmpty(s.puppetTags) == "" then row.tags else Some(Shown(row.tags) + "," + OrEmpty(s.puppetTags)),
         manifest := row.manifest + "\n" + OrEmpty(s.stepConfig),
         volumes := row.volumes + s.volumes)
  }

  /** The volume filter lets a new volume in. */
  predicate Admits(only: Option<string>, volume: string) {
    OrEmpty(only) == "" || only == Some(volume)
  }

  // ---------- grouping ----------

  /** The usable services of a config volume, in order. */
  function Group(services: seq<Option<Service>>, volume: string): (g: seq<Service>)
    ensures forall i :: 0 <= i < |g| ==> Usable(Some(g[i])) && KeyOf(g[i]) == volume
  {
    if services == [] then []
    else
      var s, before := services[|services| - 1], Group(services[..|services| - 1], volume);
      if Usable(s) && KeyOf(s.value) == volume then before + [s.value] else before
  }

  function Manifests(g: seq<Service>): seq<string> {
    seq(|g|, i requires 0 <= i < |g| => OrEmpty(g[i].stepConfig))
  }

  function AllVolumes(g: seq<Service>): seq<string> {
    if g == [] then [] else AllVolumes(g[..|g| - 1]) + g[|g| - 1].volumes
  }

  /** The tags that are not empty, in order. */
  function TagsOf(g: seq<Service>): seq<string> {
    if g == [] then [] else
      var t := OrEmpty(g[|g| - 1].puppetTags);
      TagsOf(g[..|g| - 1]) + (if t == "" then [] else [t])
  }

  /** The tags of a group: those of the first service as they are, and the others after
      commas. */
  function MergedTags(g: seq<Service>): Option<string>
    requires g != []
  {
    var first, others := g[0].puppetTags, TagsOf(g[1..]);
    if others == [] then first else Some(Shown(first) + "," + Join(",", others))
  }

  /** What a group is merged to. */
  function RowOf(g: seq<Service>): Row
    requires g != []
  {
    Row(MergedTags(g), Join("\n", Manifests(g)), OrEmpty(g[0].configImage), AllVolumes(g), g[0].privileged)
  }

  function Volumes(services: seq<Option<Service>>): set<string> {
    set s | s in services && Usable(s) :: KeyOf(s.value)
  }

  function GroupBy(services: seq<Option<Service>>, only: Option<string>): map<string, Row> {
    map v | v in Volumes(services) && Admits(only, v) ::
      if Group(services, v) == [] then Row(None, "", "", [], false) else RowOf(Group(services, v))
  }

  // ---------- the loop ----------

  method MergeServices(services: seq<Option<Service>>, only: Option<string>) returns (configs: map<string, Row>)
    ensures configs == GroupBy(services, only)
  {
    configs := map[];
    for n := 0 to |services|
      invariant configs == GroupBy(services[..n], only)
    {
      GroupByGrows(services[..n], services[n], only);
      assert services[..n + 1] == services[..n] + [services[n]];
      if Usable(services[n]) {
        var service := services[n].value;
        var volume := KeyOf(service);
        if volume in configs {
          configs := configs[volume := AddTo(configs[volume], service)];
        } else if Admits(only, volume) {
          configs := configs[volume := FirstRow(service)];
        }
      }
    }
    assert services[..|services|] == services;
  }

  lemma {:induction false} InVolumes(services: seq<Option<Service>>, volume: string)
    ensures volume in Volumes(services) <==> Group(services, volume) != []
  {
    if services != [] {
      var before, s := services[..|services| - 1], services[|services| - 1];
      InVolumes(before, volume);
      assert services == before + [s];
    }
  }

  lemma TagsAdded(g: seq<Service>, s: Service)
    requires g != []
    ensures MergedTags(g + [s]) ==
              if OrEmpty(s.puppetTags) == "" then MergedTags(g) else Some(Shown(MergedTags(g)) + "," + OrEmpty(s.puppetTags))
  {
    var others, t := TagsOf(g[1..]), OrEmpty(s.puppetTags);
    assert (g + [s])[1..] == g[1..] + [s];
    assert (g[1..] + [s])[..|g| - 1] == g[1..];
    assert TagsOf(g[1..] + [s]) == others + if t == "" then [] else [t];
    if t == "" {
      assert others + [] == others;
    } else if others == [] {
      assert others + [t] == [t];
    } else {
      assert (others + [t])[..|others|] == others;
      assert Shown(g[0].puppetTags) + "," + (Join(",", others) + "," + t) ==
             Shown(g[0].puppetTags) + "," + Join(",", others) + "," + t;
    }
  }

  /** A service added to a group is added to its row. */
  lemma RowGrows(g: seq<Service>, s: Service)
    requires g != []
    ensures RowOf(g + [s]) == AddTo(RowOf(g), s)
  {
    var z := g + [s];
    TagsAdded(g, s);
    assert Manifests(z)[..|g|] == Manifests(g);
    assert z[..|z| - 1] == g;
  }

  lemma RowOfOne(s: Service)
    ensures RowOf([s]) == FirstRow(s)
  {
    assert [s][1..] == [] && [s][..0] == [];
    assert Manifests([s]) == [OrEmpty(s.stepConfig)];
    assert AllVolumes([s]) == [] + s.volumes == s.volumes;
    assert TagsOf([]) == [];
  }

  lemma GroupGrows(services: seq<Option<Service>>, s: Option<Service>, volume: string)
    ensures Usable(s) && KeyOf(s.value) == volume ==>
              Group(services + [s], volume) == Group(services, volume) + [s.value]
    ensures !(Usable(s) && KeyOf(s.value) == volume) ==> Group(services + [s], volume) == Group(services, volume)
  {
    assert (services + [s])[..|services|] == services;
  }

  lemma RowAfter(g: seq<Service>, s: Service)
    ensures RowOf(g + [s]) == if g == [] then FirstRow(s) else AddTo(RowOf(g), s)
  {
    if g == [] {
      assert g + [s] == [s];
      RowOfOne(s);
    } else {
      RowGrows(g, s);
    }
  }

  /** The row of a volume, if it has one. */
  function RowFor(services: seq<Option<Service>>, only: Option<string>, volume: string): Option<Row> {
    if Group(services, volume) != [] && Admits(only, volume) then Some(RowOf(Group(services, volume))) else None
  }

  lemma GroupByAt(services: seq<Option<Service>>, only: Option<string>, volume: string)
    ensures volume in GroupBy(services, only) <==> RowFor(services, only, volume).Some?
    ensures volume in GroupBy(services, only) ==> GroupBy(services, only)[volume] == RowFor(services, only, volume).value
  {
    InVolumes(services, volume);
  }

  lemma RowForGrows(services: seq<Option<Service>>, s: Option<Service>, only: Option<string>, volume: string)
    ensures RowFor(services + [s], only, volume) ==
              var was := RowFor(services, only, volume);
              if !Usable(s) || KeyOf(s.value) != volume then was
              else if was.Some? then Some(AddTo(was.value, s.value))
              else if Admits(only, volume) then Some(FirstRow(s.value)) else None
  {
    var g := Group(services, volume);
    GroupGrows(services, s, volume);
    if Usable(s) && KeyOf(s.value) == volume {
      RowAfter(g, s.value);
      assert g + [s.value] != [];
    }
  }

  /** One key of the map, before and after. */
  lemma GroupByPoint(services: seq<Option<Service>>, s: Option<Service>, only: Option<string>, v: string)
    ensures var was, now := GroupBy(services, only), GroupBy(services + [s], only);
            var here := Usable(s) && KeyOf(s.value) == v;
            && (v in now <==> v in was || (here && Admits(only, v)))
            && (v in now ==> now[v] == if !here then was[v] else if v in was then AddTo(was[v], s.value) else FirstRow(s.value))
  {
    GroupByAt(services, only, v);
    GroupByAt(services + [s], only, v);
    RowForGrows(services, s, only, v);
  }

  /** What a service does to the rows so far. */
  function Merge(rows: map<string, Row>, s: Option<Service>, only: Option<string>): map<string, Row> {
    if !Usable(s) then rows
    else if KeyOf(s.value) in rows then rows[KeyOf(s.value) := AddTo(rows[KeyOf(s.value)], s.value)]
    else if Admits(only, KeyOf(s.value)) then rows[KeyOf(s.value) := FirstRow(s.value)]
    else rows
  }

  lemma MergePoint(was: map<string, Row>, now: map<string, Row>, s: Option<Service>, only: Option<string>)
    requires forall v :: v in now <==> v in was || (Usable(s) && KeyOf(s.value) == v && Admits(only, v))
    requires forall v :: v in now ==>
               now[v] == if !(Usable(s) && KeyOf(s.value) == v) then was[v] else if v in was then AddTo(was[v], s.value) else FirstRow(s.value)
    ensures now == Merge(was, s, only)
  {
    var then' := Merge(was, s, only);
    assert forall v :: v in now <==> v in then';
    assert forall v :: v in now ==> now[v] == then'[v];
  }

  lemma GroupByGrows(services: seq<Option<Service>>, s: Option<Service>, only: Option<string>)
    ensures GroupBy(services + [s], only) == Merge(GroupBy(services, only), s, only)
  {
    var was, now := GroupBy(services, only), GroupBy(services + [s], only);
    forall v
      ensures v in now <==> v in was || (Usable(s) && KeyOf(s.value) == v && Admits(only, v))
      ensures v in now ==>
                now[v] == if !(Usable(s) && KeyOf(s.value) == v) then was[v] else if v in was then AddTo(was[v], s.value) else FirstRow(s.value)
    {
      GroupByPoint(services, s, only, v);
    }
    MergePoint(was, now, s, only);
  }

  // ---------- what the merge means ----------

  /** Some positions hold services that are not null. */
  ghost predicate AreServices(services: seq<Option<Service>>, at: seq<nat>) {
    forall i :: 0 <= i < |at| ==> at[i] < |services| && services[at[i]].Some?
  }

  /** The services at some positions. */
  ghost function Picked(services: seq<Option<Service>>, at: seq<nat>): seq<Service>
    requires AreServices(services, at)
  {
    seq(|at|, i requires 0 <= i < |at| => services[at[i]].value)
  }

  /** A service takes part in the merge of a volume: it is there, it has a manifest and an
      image, neither of them empty, and it names the volume, where no name is an empty one. */
  ghost predicate TakesPart(s: Option<Service>, volume: string) {
    && s.Some?
    && s.value.stepConfig.Some? && s.value.stepConfig.value != ""
    && s.value.configImage.Some? && s.value.configImage.value != ""
    && (s.value.configVolume == Some(volume) || (s.value.configVolume == None && volume == ""))
  }

  /** All positions of services that take part in the merge of a volume, in order. */
  ghost predicate AllOf(services: seq<Option<Service>>, volume: string, at: seq<nat>) {
    && (forall i, j :: 0 <= i < j < |at| ==> at[i] < at[j])
    && (forall n :: n in at <==> 0 <= n < |services| && TakesPart(services[n], volume))
  }

  lemma AllOfGrows(services: seq<Option<Service>>, s: Option<Service>, volume: string, at: seq<nat>)
    requires AllOf(services, volume, at)
    ensures AllOf(services + [s], volume, if Usable(s) && KeyOf(s.value) == volume then at + [|services|] else at)
  {
    assert forall i :: 0 <= i < |at| ==> at[i] in at;
    assert forall n :: 0 <= n < |services| ==> (services + [s])[n] == services[n];
  }

  lemma PickedGrows(services: seq<Option<Service>>, s: Option<Service>, at: seq<nat>)
    requires AreServices(services, at)
    ensures AreServices(services + [s], at) && Picked(services + [s], at) == Picked(services, at)
    ensures s.Some? ==>
              && AreServices(services + [s], at + [|services|])
              && Picked(services + [s], at + [|services|]) == Picked(services, at) + [s.value]
  {
    assert forall i :: 0 <= i < |at| ==> (services + [s])[at[i]] == services[at[i]];
    assert forall i :: 0 <= i < |at| ==> (at + [|services|])[i] == at[i];
  }

  ghost predicate IsGroup(services: seq<Option<Service>>, volume: string, at: seq<nat>) {
    AllOf(services, volume, at) && AreServices(services, at) && Group(services, volume) == Picked(services, at)
  }

  lemma IsGroupGrows(services: seq<Option<Service>>, s: Option<Service>, volume: string, at: seq<nat>)
    requires IsGroup(services, volume, at)
    ensures IsGroup(services + [s], volume, if Usable(s) && KeyOf(s.value) == volume then at + [|services|] else at)
  {
    AllOfGrows(services, s, volume, at);
    PickedGrows(services, s, at);
    GroupGrows(services, s, volume);
  }

  lemma IsGroupOfAll(services: seq<Option<Service>>, volume: string, was: seq<nat>) returns (at: seq<nat>)
    requires services != [] && IsGroup(services[..|services| - 1], volume, was)
    ensures IsGroup(services, volume, at)
  {
    var before, s := services[..|services| - 1], services[|services| - 1];
    assert services == before + [s];
    IsGroupGrows(before, s, volume, was);
    at := if Usable(s) && KeyOf(s.value) == volume then was + [|before|] else was;
  }

  lemma IsGroupOfNone(volume: string)
    ensures IsGroup([], volume, [])
  {
  }

  lemma {:induction false} GroupIsPicked(services: seq<Option<Service>>, volume: string) returns (at: seq<nat>)
    ensures IsGroup(services, volume, at)
  {
    if services == [] {
      IsGroupOfNone(volume);
      at := [];
    } else {
      at := GroupIsPicked(services[..|services| - 1], volume);
      at := IsGroupOfAll(services, volume, at);
    }
  }

  // ---------- what a row holds ----------

  /** The manifests of some services. */
  ghost predicate AreManifests(g: seq<Service>, manifests: seq<string>) {
    |manifests| == |g| && forall i :: 0 <= i < |g| ==> g[i].stepConfig == Some(manifests[i])
  }

  /** The volumes of some services one after the other: the last one's at the end, and those
      of the others before them. */
  ghost predicate AreVolumes(g: seq<Service>, volumes: seq<string>) {
    if g == [] then volumes == []
    else
      var last := g[|g| - 1].volumes;
      var n := |volumes| - |last|;
      n >= 0 && volumes[n..] == last && AreVolumes(g[..|g| - 1], volumes[..n])
  }

  /** The non-empty tags of all services but the first, with their positions. */
  ghost predicate AreOtherTags(g: seq<Service>, at: seq<nat>, tags: seq<string>) {
    && |at| == |tags|
    && (forall i, j :: 0 <= i < j < |at| ==> at[i] < at[j])
    && (forall n :: n in at <==> 1 <= n < |g| && g[n].puppetTags.Some? && g[n].puppetTags.value != "")
    && (forall i :: 0 <= i < |at| ==> at[i] < |g| && g[at[i]].puppetTags == Some(tags[i]))
  }

  /** A row merges some services: the manifests joined by newlines, all volumes, the first
      image and flag, and the first tags with the others after commas, where null is written
      `None` if anything follows it. */
  ghost predicate Merges(g: seq<Service>, row: Row) {
    && g != []
    && (exists manifests :: AreManifests(g, manifests) && row.manifest == Join("\n", manifests))
    && AreVolumes(g, row.volumes)
    && (exists at, tags :: AreOtherTags(g, at, tags) && row.tags ==
          if tags == [] then g[0].puppetTags
          else Some((if g[0].puppetTags.Some? then g[0].puppetTags.value else "None") + "," + Join(",", tags)))
    && g[0].configImage == Some(row.image)
    && row.privileged == g[0].privileged
  }

  lemma {:induction false} VolumesAre(g: seq<Service>)
    ensures AreVolumes(g, AllVolumes(g))
  {
    if g != [] {
      var before, all := AllVolumes(g[..|g| - 1]), AllVolumes(g);
      VolumesAre(g[..|g| - 1]);
      assert all[..|before|] == before && all[|before|..] == g[|g| - 1].volumes;
    }
  }

  predicate HasTags(s: Service) {
    s.puppetTags.Some? && s.puppetTags.value != ""
  }

  lemma OtherTagsGrow(g: seq<Service>, at: seq<nat>, tags: seq<string>, s: Service)
    requires g != [] && AreOtherTags(g, at, tags)
    ensures if HasTags(s) then AreOtherTags(g + [s], at + [|g|], tags + [s.puppetTags.value])
            else AreOtherTags(g + [s], at, tags)
  {
    var z := g + [s];
    assert forall i :: 0 <= i < |at| ==> at[i] in at;
    assert forall n :: 0 <= n < |g| ==> z[n] == g[n];
    assert z[|g|] == s;
  }

  lemma TagsSplit(g: seq<Service>)
    requires |g| > 1
    ensures var before, last := g[..|g| - 1], g[|g| - 1];
            TagsOf(g[1..]) == if HasTags(last) then TagsOf(before[1..]) + [last.puppetTags.value] else TagsOf(before[1..])
  {
    assert g[1..][..|g| - 2] == g[..|g| - 1][1..];
    assert TagsOf(g[1..][..|g| - 2]) + [] == TagsOf(g[1..][..|g| - 2]);
  }

  lemma OtherTagsOfAll(g: seq<Service>, was: seq<nat>) returns (at: seq<nat>)
    requires |g| > 1 && AreOtherTags(g[..|g| - 1], was, TagsOf(g[..|g| - 1][1..]))
    ensures AreOtherTags(g, at, TagsOf(g[1..]))
  {
    var before, last := g[..|g| - 1], g[|g| - 1];
    assert g == before + [last];
    TagsSplit(g);
    OtherTagsGrow(before, was, TagsOf(before[1..]), last);
    at := if HasTags(last) then was + [|before|] else was;
  }

  lemma OtherTagsOfOne(s: Service)
    ensures AreOtherTags([s], [], TagsOf([s][1..]))
  {
  }

  lemma {:induction false} OtherTagsAre(g: seq<Service>) returns (at: seq<nat>)
    requires g != []
    ensures AreOtherTags(g, at, TagsOf(g[1..]))
  {
    if |g| == 1 {
      assert g == [g[0]];
      OtherTagsOfOne(g[0]);
      at := [];
    } else {
      at := OtherTagsAre(g[..|g| - 1]);
      at := OtherTagsOfAll(g, at);
    }
  }

  lemma RowMerges(g: seq<Service>)
    requires g != [] && forall i :: 0 <= i < |g| ==> Usable(Some(g[i]))
    ensures Merges(g, RowOf(g))
  {
    VolumesAre(g);
    var at := OtherTagsAre(g);
    assert AreManifests(g, Manifests(g));
    assert AreOtherTags(g, at, TagsOf(g[1..]));
  }

  /** Each volume that some service takes part in gets a row, and no other volume does.  The
      row merges the services that take part, all of them and in order, wherever they stand
      among others. */
  lemma MergeIsGroupBy(services: seq<Option<Service>>, volume: string) returns (at: seq<nat>)
    ensures AllOf(services, volume, at) && AreServices(services, at)
    ensures var merged := GroupBy(services, None);
            && (volume in merged <==> at != [])
            && (at != [] ==> Merges(Picked(services, at), merged[volume]))
  {
    at := GroupIsPicked(services, volume);
    InVolumes(services, volume);
    if at != [] {
      RowMerges(Group(services, volume));
    }
  }

  /** Filtering by volume gives the unfiltered result at that volume. */
  lemma FilterIsRestriction(services: seq<Option<Service>>, only: string)
    requires only != ""
    ensures GroupBy(services, Some(only)) == map v | v in GroupBy(services, None) && v == only :: GroupBy(services, None)[v]
    ensures GroupBy(services, Some("")) == GroupBy(services, None)
  {
  }

  lemma {:induction false} TagsFromFirst(g: seq<Service>)
    requires g != []
    ensures TagsOf(g) == (if OrEmpty(g[0].puppetTags) == "" then [] else [OrEmpty(g[0].puppetTags)]) + TagsOf(g[1..])
  {
    var n := |g| - 1;
    if n > 0 {
      TagsFromFirst(g[..n]);
      assert g[..n][1..] == g[1..][..n - 1];
      assert g[1..][n - 1] == g[n];
    } else {
      assert g[..0] == [];
    }
  }

  lemma {:induction false} JoinFromFirst(separator: string, first: string, others: seq<string>)
    requires others != []
    ensures Join(separator, [first] + others) == first + separator + Join(separator, others)
  {
    var z := [first] + others;
    if |others| > 1 {
      JoinFromFirst(separator, first, others[..|others| - 1]);
      assert z[..|z| - 1] == [first] + others[..|others| - 1];
    } else {
      assert z[..1] == [first];
    }
  }

  /** The tags of a row are the comma-separated tags of its group exactly when the first
      service has tags or no other one has: otherwise a stray null or comma comes first. */
  lemma TagsIff(g: seq<Service>)
    requires g != []
    ensures OrEmpty(RowOf(g).tags) == Join(",", TagsOf(g)) <==> OrEmpty(g[0].puppetTags) != "" || TagsOf(g[1..]) == []
  {
    var first, others := OrEmpty(g[0].puppetTags), TagsOf(g[1..]);
    TagsFromFirst(g);
    if others == [] {
      assert TagsOf(g) == if first == "" then [] else [first];
    } else if first != "" {
      JoinFromFirst(",", first, others);
    } else {
      assert [] + others == others;
      assert |OrEmpty(RowOf(g).tags)| == |Shown(g[0].puppetTags)| + 1 + |Join(",", others)|;
    }
  }
}
