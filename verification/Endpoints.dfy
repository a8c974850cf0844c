/** The generator of the endpoint map template, and what the templates mean to Heat. */
module Endpoints {
  import opened Wrappers
  import opened Heat
  import opened Text

  datatype EndpointType = Internal | Public | Admin | UIConfig

  function TypeName(t: EndpointType): string {
    match t
    case Internal => "Internal"
    case Public => "Public"
    case Admin => "Admin"
    case UIConfig => "UIConfig"
  }

  /** The types in the order of their names. */
  const TYPES := [Admin, Internal, Public, UIConfig]

  /** How a service is reached in one way; `suffixes` maps a variant to the suffix of its URI. */
  datatype Definition = Definition(netParam: string, protocol: Option<string>, port: Option<string>,
                                   suffixes: Option<map<string, Option<string>>>, names: map<string, string>)

  datatype Service = Service(protocol: Option<string>, port: string, types: map<EndpointType, Definition>)

  type Config = map<string, Service>

  function Or(a: Option<string>, b: string): string {
    if a.Some? then a.value else b
  }

  // ---------- the default map ----------

  datatype Defaults = Defaults(protocol: string, port: string, host: string)

  function DefaultOf(svc: Service, t: EndpointType): Defaults
    requires t in svc.types
  {
    Defaults(Or(svc.types[t].protocol, Or(svc.protocol, "http")), Or(svc.types[t].port, svc.port), "IP_ADDRESS")
  }

  /** The entries of one service for the first `n` types. */
  function ServiceItems(name: string, svc: Service, n: nat): seq<(string, Defaults)>
    requires n <= |TYPES|
  {
    if n == 0 then []
    else
      var t := TYPES[n - 1];
      ServiceItems(name, svc, n - 1) + (if t in svc.types then [(name + TypeName(t), DefaultOf(svc, t))] else [])
  }

  /** The entries of the services with these names, in order. */
  function Items(config: Config, names: seq<string>): seq<(string, Defaults)>
    requires forall name :: name in names ==> name in config
  {
    if names == [] then []
    else ServiceItems(names[0], config[names[0]], |TYPES|) + Items(config, names[1..])
  }

  /** An ordered mapping built from items: a later item with the same key wins. */
  function FromItems(items: seq<(string, Defaults)>): map<string, Defaults> {
    if items == [] then map[] else FromItems(items[..|items| - 1])[items[|items| - 1].0 := items[|items| - 1].1]
  }

  function EndpointMapDefault(config: Config, names: seq<string>): map<string, Defaults>
    requires forall name :: name in names ==> name in config
  {
    FromItems(Items(config, names))
  }

  /** No endpoint type's name ends in another's, so a service and a type can be read off
      their concatenated names. */
  lemma NamesAreInjective(a: string, t: EndpointType, b: string, u: EndpointType)
    ensures a + TypeName(t) == b + TypeName(u) ==> a == b && t == u
  {
    var x, y := a + TypeName(t), b + TypeName(u);
    if x == y {
      var n := |x|;
      assert x[n - 1] == TypeName(t)[|TypeName(t)| - 1] && y[n - 1] == TypeName(u)[|TypeName(u)| - 1];
      assert x[n - 2] == TypeName(t)[|TypeName(t)| - 2] && y[n - 2] == TypeName(u)[|TypeName(u)| - 2];
      assert t == u;
      assert a == x[..|a|] && b == y[..|b|];
    }
  }

  lemma {:induction false} ServiceItemsAre(name: string, svc: Service, n: nat, key: string, d: Defaults)
    requires n <= |TYPES|
    ensures (key, d) in ServiceItems(name, svc, n) <==>
              exists i :: 0 <= i < n && TYPES[i] in svc.types && key == name + TypeName(TYPES[i]) && d == DefaultOf(svc, TYPES[i])
  {
    if n > 0 {
      ServiceItemsAre(name, svc, n - 1, key, d);
    }
  }

  /** Service `name` has a type whose item this is. */
  ghost predicate ItemOf(name: string, svc: Service, key: string, d: Defaults) {
    exists t :: t in svc.types && key == name + TypeName(t) && d == DefaultOf(svc, t)
  }

  lemma ServiceItemsAll(name: string, svc: Service, key: string, d: Defaults)
    ensures (key, d) in ServiceItems(name, svc, |TYPES|) <==> ItemOf(name, svc, key, d)
  {
    ServiceItemsAre(name, svc, |TYPES|, key, d);
    assert TYPES[0] == Admin && TYPES[1] == Internal && TYPES[2] == Public && TYPES[3] == UIConfig;
  }

  lemma {:induction false} ItemsAre(config: Config, names: seq<string>, key: string, d: Defaults)
    requires forall name :: name in names ==> name in config
    ensures (key, d) in Items(config, names) <==> exists name :: name in names && ItemOf(name, config[name], key, d)
  {
    if names != [] {
      ItemsAre(config, names[1..], key, d);
      ServiceItemsAll(names[0], config[names[0]], key, d);
      assert names == [names[0]] + names[1..];
    }
  }

  lemma {:induction false} FromItemsHas(items: seq<(string, Defaults)>, key: string)
    ensures key in FromItems(items) <==> exists d :: (key, d) in items
    ensures key in FromItems(items) ==> (key, FromItems(items)[key]) in items
  {
    if items != [] {
      var before, last := items[..|items| - 1], items[|items| - 1];
      FromItemsHas(before, key);
      assert items == before + [last];
    }
  }

  /** A type as it is written. */
  ghost function Written(t: EndpointType): (s: string) {
    if t == Internal then "Internal" else if t == Public then "Public" else if t == Admin then "Admin" else "UIConfig"
  }

  lemma WrittenIs(t: EndpointType)
    ensures TypeName(t) == Written(t)
  {
  }

  /** The default map has an entry for each service and each of its types, under their
      joined names, and no other entry.  The protocol is the type's own, or else the
      service's, or else `http`; the port is the type's own or else the service's; and the
      host is to be replaced by an address. */
  lemma DefaultMapIsExact(config: Config, names: seq<string>, name: string, t: EndpointType, key: string)
    requires forall n :: n in names ==> n in config
    ensures key in EndpointMapDefault(config, names) <==>
              exists n, u :: n in names && u in config[n].types && key == n + Written(u)
    ensures name in names && t in config[name].types ==>
              && name + Written(t) in EndpointMapDefault(config, names)
              && var d, svc := EndpointMapDefault(config, names)[name + Written(t)], config[name];
                 && d.host == "IP_ADDRESS"
                 && d.protocol == (if svc.types[t].protocol.Some? then svc.types[t].protocol.value
                                   else if svc.protocol.Some? then svc.protocol.value else "http")
                 && d.port == if svc.types[t].port.Some? then svc.types[t].port.value else svc.port
  {
    KeysAre(config, names, key);
    forall u
      ensures TypeName(u) == Written(u)
    {
      WrittenIs(u);
    }
    if name in names && t in config[name].types {
      EntryOf(config, names, name, t);
    }
  }

  lemma KeysAre(config: Config, names: seq<string>, key: string)
    requires forall n :: n in names ==> n in config
    ensures key in EndpointMapDefault(config, names) <==>
              exists n, u :: n in names && u in config[n].types && key == n + TypeName(u)
  {
    var items := Items(config, names);
    FromItemsHas(items, key);
    forall d {:trigger (key, d)}
      ensures (key, d) in items <==>
                exists n, u :: n in names && u in config[n].types && key == n + TypeName(u) && d == DefaultOf(config[n], u)
    {
      ItemsAre(config, names, key, d);
    }
    if n, u :| n in names && u in config[n].types && key == n + TypeName(u) {
      assert (key, DefaultOf(config[n], u)) in items;
    }
  }

  lemma EntryOf(config: Config, names: seq<string>, name: string, t: EndpointType)
    requires forall n :: n in names ==> n in config
    requires name in names && t in config[name].types
    ensures name + TypeName(t) in EndpointMapDefault(config, names)
    ensures EndpointMapDefault(config, names)[name + TypeName(t)] == DefaultOf(config[name], t)
  {
    var items, key := Items(config, names), name + TypeName(t);
    ItemsAre(config, names, key, DefaultOf(config[name], t));
    FromItemsHas(items, key);
    var d := FromItems(items)[key];
    ItemsAre(config, names, key, d);
    var n, u :| n in names && u in config[n].types && key == n + TypeName(u) && d == DefaultOf(config[n], u);
    NamesAreInjective(name, t, n, u);
  }

  // ---------- the outputs ----------

  datatype Output = Output(hostNoBrackets: Expr, host: Expr, port: Expr, protocol: Expr, uri: Expr, uriNoSuffix: Expr)

  function NetParamName(d: Definition): string {
    d.netParam + "Network"
  }

  function ExtractField(name: string, t: EndpointType, field: string): Expr {
    GetParam("EndpointMap", [Lit(name + TypeName(t)), Lit(field)])
  }

  function ServiceNet(netParam: string): Expr {
    GetParam("ServiceNetMap", [Lit(netParam)])
  }

  function CloudName(netParam: string): Expr {
    GetParam("CloudEndpoints", [ServiceNet(netParam)])
  }

  const PLACEHOLDERS := ["IP_ADDRESS", "CLOUDNAME"]

  /** The text before the first percent sign, and the sign with what follows. */
  function Partition(s: string): (r: (string, string)) {
    if s == "" || s[0] == '%' then ("", s) else
      var (path, rest) := Partition(s[1..]);
      ([s[0]] + path, rest)
  }

  /** A path and what follows it: a percent sign and more, or nothing. */
  ghost predicate IsPartition(s: string, path: string, rest: string) {
    s == path + rest && '%' !in path && (rest == "" || rest[0] == '%')
  }

  lemma {:induction false} PartitionSplits(s: string)
    ensures IsPartition(s, Partition(s).0, Partition(s).1)
  {
    if s != "" && s[0] != '%' {
      PartitionSplits(s[1..]);
    }
  }

  lemma PartitionIsOne(s: string, path: string, rest: string)
    requires IsPartition(s, path, rest)
    ensures Partition(s) == (path, rest)
  {
    PartitionSplits(s);
    var (path', rest') := Partition(s);
    assert s[..|path|] == path && s[|path|..] == rest && s[..|path'|] == path' && s[|path'|..] == rest';
  }

  function OutputDefinition(name: string, t: EndpointType, netParam: string, suffix: Option<string>): Output {
    var port := ExtractField(name, t, "port");
    var protocol := ExtractField(name, t, "protocol");
    var hostNoBrackets := StrReplace(ExtractField(name, t, "host"), PLACEHOLDERS,
                                     [GetParam("NetIpMap", [ServiceNet(netParam)]), CloudName(netParam)]);
    var netUri := StrReplace(Lit("NETWORK_uri"), ["NETWORK"], [ServiceNet(netParam)]);
    var host := StrReplace(ExtractField(name, t, "host"), PLACEHOLDERS,
                           [GetParam("NetIpMap", [netUri]), CloudName(netParam)]);
    var noPath := MakeUrl(protocol, host, port, None);
    var uri := if suffix.None? then noPath else
                 var (path, rest) := Partition(suffix.value);
                 var withPath := MakeUrl(protocol, host, port, Some(path));
                 if rest == "" then withPath else ListJoin("", [withPath, Lit(rest)]);
    Output(hostNoBrackets, host, port, protocol, uri, noPath)
  }

  /** The suffixes of a definition; without any there is one variant without a suffix. */
  function SuffixesOf(d: Definition): map<string, Option<string>> {
    if d.suffixes.Some? then d.suffixes.value else map["" := None]
  }

  /** The template's outputs, each with the name it is listed under. */
  ghost predicate Generated(config: Config, outputName: string, output: Output) {
    exists name, t, variant ::
      && name in config && t in config[name].types && variant in SuffixesOf(config[name].types[t])
      && IsOutput(config, name, t, variant, outputName, output)
  }

  predicate IsOutput(config: Config, name: string, t: EndpointType, variant: string, outputName: string, output: Output)
    requires name in config && t in config[name].types && variant in SuffixesOf(config[name].types[t])
  {
    var d := config[name].types[t];
    && outputName == (if variant in d.names then d.names[variant] else name + variant + TypeName(t))
    && output == OutputDefinition(name, t, NetParamName(d), SuffixesOf(d)[variant])
  }

  /** The output of a service, type and variant of its suffixes, which is the empty variant
      if there are none: it is listed under the overriding name, or the service's, the variant
      and the type joined, and is on the network parameter that ends in `Network`. */
  lemma OutputIs(config: Config, name: string, t: EndpointType, variant: string, outputName: string, output: Output)
    requires name in config && t in config[name].types
    ensures var d := config[name].types[t];
            && (variant in SuffixesOf(d) <==> if d.suffixes.Some? then variant in d.suffixes.value else variant == "")
            && (variant in SuffixesOf(d) ==>
                  (IsOutput(config, name, t, variant, outputName, output) <==>
                     && outputName == (if variant in d.names then d.names[variant] else name + variant + Written(t))
                     && output == OutputDefinition(name, t, d.netParam + "Network", if d.suffixes.Some? then d.suffixes.value[variant] else None)))
  {
    WrittenIs(t);
  }

  // ---------- what they mean ----------

  /** The suffix is a path that quoting leaves alone, up to its first percent sign. */
  ghost predicate SafeSuffix(suffix: Option<string>) {
    suffix.None? || exists path, rest :: IsPartition(suffix.value, path, rest) && SafePath(path)
  }

  lemma SafeSuffixIff(suffix: string)
    ensures SafeSuffix(Some(suffix)) <==> SafePath(Partition(suffix).0)
  {
    PartitionSplits(suffix);
    if path, rest :| IsPartition(suffix, path, rest) && SafePath(path) {
      PartitionIsOne(suffix, path, rest);
    }
  }

  function Base(name: string, t: EndpointType, netParam: string, env: Env): string {
    var o := OutputDefinition(name, t, netParam, None);
    Authority(Eval(o.protocol, env), Eval(o.host, env), Eval(o.port, env))
  }

  lemma EvalMakeUrl(scheme: Expr, host: Expr, port: Expr, path: string, env: Env)
    ensures Eval(MakeUrl(scheme, host, port, Some(path)), env) ==
              Authority(Eval(scheme, env), Eval(host, env), Eval(port, env)) + PathPart(Some(path))
  {
  }

  lemma EvalJoined(e: Expr, rest: string, env: Env)
    ensures Eval(ListJoin("", [e, Lit(rest)]), env) == Eval(e, env) + rest
  {
    EvalPair(e, Lit(rest), env);
    JoinPair("", Eval(e, env), rest);
    assert Eval(e, env) + "" + rest == Eval(e, env) + rest;
  }

  lemma UriIs(name: string, t: EndpointType, netParam: string, suffix: string)
    ensures var o := OutputDefinition(name, t, netParam, Some(suffix));
            var (path, rest) := Partition(suffix);
            var withPath := MakeUrl(o.protocol, o.host, o.port, Some(path));
            o.uri == if rest == "" then withPath else ListJoin("", [withPath, Lit(rest)])
  {
  }

  lemma EvalUri(name: string, t: EndpointType, netParam: string, suffix: string, env: Env)
    ensures var (path, rest) := Partition(suffix);
            Eval(OutputDefinition(name, t, netParam, Some(suffix)).uri, env) ==
              Base(name, t, netParam, env) + PathPart(Some(path)) + rest
  {
    var o := OutputDefinition(name, t, netParam, Some(suffix));
    var (path, rest) := Partition(suffix);
    UriIs(name, t, netParam, suffix);
    EvalMakeUrl(o.protocol, o.host, o.port, path, env);
    EvalJoined(MakeUrl(o.protocol, o.host, o.port, Some(path)), rest, env);
    var url := Base(name, t, netParam, env) + PathPart(Some(path));
    assert url + "" == url;
  }

  /** A URI is its form without suffix followed by exactly the suffix when, and only when,
      the part of the suffix before a percent sign is empty or a URL-safe absolute path. */
  lemma UriIff(name: string, t: EndpointType, netParam: string, suffix: Option<string>, env: Env)
    ensures var o := OutputDefinition(name, t, netParam, suffix);
            Eval(o.uri, env) == Eval(o.uriNoSuffix, env) + Or(suffix, "") <==> SafeSuffix(suffix)
  {
    var base := Base(name, t, netParam, env);
    assert Eval(OutputDefinition(name, t, netParam, suffix).uriNoSuffix, env) == base + "";
    if suffix.Some? {
      var (path, rest) := Partition(suffix.value);
      PartitionSplits(suffix.value);
      SafeSuffixIff(suffix.value);
      PathPartIff(path);
      EvalUri(name, t, netParam, suffix.value, env);
      SamePrefix(base, PathPart(Some(path)), path, rest);
    }
  }

  lemma SamePrefix(base: string, quoted: string, path: string, rest: string)
    requires |quoted| == |path| ==> quoted == path
    ensures base + quoted + rest == base + "" + (path + rest) <==> quoted == path
  {
    if base + quoted + rest == base + "" + (path + rest) {
      assert |quoted| == |path|;
    }
  }

  lemma EvalField(name: string, t: EndpointType, field: string, env: Env)
    ensures Eval(ExtractField(name, t, field), env) == Lookup(env, "EndpointMap", [name + TypeName(t), field])
  {
    EvalPair(Lit(name + TypeName(t)), Lit(field), env);
  }

  /** The network a service is on. */
  function NetOf(env: Env, netParam: string): string {
    Lookup(env, "ServiceNetMap", [netParam])
  }

  lemma EvalNet(netParam: string, env: Env)
    ensures Eval(ServiceNet(netParam), env) == NetOf(env, netParam)
    ensures Eval(GetParam("NetIpMap", [ServiceNet(netParam)]), env) == Lookup(env, "NetIpMap", [NetOf(env, netParam)])
    ensures Eval(CloudName(netParam), env) == Lookup(env, "CloudEndpoints", [NetOf(env, netParam)])
  {
    EvalOne(Lit(netParam), env);
    EvalOne(ServiceNet(netParam), env);
  }

  lemma EvalNetUri(netParam: string, env: Env)
    ensures Eval(StrReplace(Lit("NETWORK_uri"), ["NETWORK"], [ServiceNet(netParam)]), env) == NetOf(env, netParam) + "_uri"
  {
    var net := NetOf(env, netParam);
    EvalNet(netParam, env);
    EvalOne(ServiceNet(netParam), env);
    assert ["NETWORK"][1..] == [];
    assert Zip(["NETWORK"], [net]) == [("NETWORK", net)] + [];
    assert "NETWORK" + "_uri" == "NETWORK_uri";
    ReplaceAtStart("NETWORK", "_uri", net, []);
    assert "" + net + "_uri" == net + "_uri";
  }

  lemma EvalHost(template: Expr, address: Expr, cloud: Expr, env: Env)
    ensures var e := Eval(StrReplace(template, PLACEHOLDERS, [address, cloud]), env);
            && (Eval(template, env) == "IP_ADDRESS" ==> e == Eval(address, env))
            && (Eval(template, env) == "CLOUDNAME" ==> e == Eval(cloud, env))
  {
    var a, c := Eval(address, env), Eval(cloud, env);
    var rest := [("CLOUDNAME", c)];
    EvalPair(address, cloud, env);
    assert PLACEHOLDERS[1..] == ["CLOUDNAME"] && [a, c][1..] == [c];
    assert ["CLOUDNAME"][1..] == [];
    assert Zip(["CLOUDNAME"], [c]) == rest;
    assert Zip(PLACEHOLDERS, [a, c]) == [("IP_ADDRESS", a)] + rest;
    ReplaceNothing(rest);
    ReplaceNothing([]);
    ReplaceAtStart("IP_ADDRESS", "", a, rest);
    ReplaceTooShort("CLOUDNAME", ("IP_ADDRESS", a), rest);
    ReplaceAtStart("CLOUDNAME", "", c, []);
    assert "IP_ADDRESS" + "" == "IP_ADDRESS" && "CLOUDNAME" + "" == "CLOUDNAME" && rest + [] == rest;
    assert "" + a + "" == a && "" + c + "" == c;
  }

  /** Where the hosts come from: with the default template `IP_ADDRESS` the plain host is the
      address of the service's network and the other one is its `_uri` form; with `CLOUDNAME`
      both are the cloud's name there. */
  lemma HostMeaning(name: string, t: EndpointType, netParam: string, suffix: Option<string>, env: Env)
    ensures var o := OutputDefinition(name, t, netParam, suffix);
            var template := Lookup(env, "EndpointMap", [name + TypeName(t), "host"]);
            && (template == "IP_ADDRESS" ==>
                  && Eval(o.hostNoBrackets, env) == Lookup(env, "NetIpMap", [NetOf(env, netParam)])
                  && Eval(o.host, env) == Lookup(env, "NetIpMap", [NetOf(env, netParam) + "_uri"]))
            && (template == "CLOUDNAME" ==>
                  && Eval(o.hostNoBrackets, env) == Lookup(env, "CloudEndpoints", [NetOf(env, netParam)])
                  && Eval(o.host, env) == Eval(o.hostNoBrackets, env))
  {
    var netUri := StrReplace(Lit("NETWORK_uri"), ["NETWORK"], [ServiceNet(netParam)]);
    var host := ExtractField(name, t, "host");
    EvalField(name, t, "host", env);
    EvalNet(netParam, env);
    EvalNetUri(netParam, env);
    EvalOne(netUri, env);
    EvalHost(host, GetParam("NetIpMap", [ServiceNet(netParam)]), CloudName(netParam), env);
    EvalHost(host, GetParam("NetIpMap", [netUri]), CloudName(netParam), env);
  }

  /** With a bracketed address in the `_uri` entry the URI has it as its host, between the
      scheme and the port. */
  lemma BracketedHost(name: string, t: EndpointType, netParam: string, suffix: Option<string>, env: Env)
    requires Lookup(env, "EndpointMap", [name + TypeName(t), "host"]) == "IP_ADDRESS"
    requires var h := Lookup(env, "NetIpMap", [NetOf(env, netParam) + "_uri"]); h != "" && h[0] == '['
    requires Lookup(env, "EndpointMap", [name + TypeName(t), "protocol"]) != ""
    requires Lookup(env, "EndpointMap", [name + TypeName(t), "port"]) != ""
    ensures var o := OutputDefinition(name, t, netParam, suffix);
            Eval(o.uriNoSuffix, env) ==
              Lookup(env, "EndpointMap", [name + TypeName(t), "protocol"]) + "://" +
              Lookup(env, "NetIpMap", [NetOf(env, netParam) + "_uri"]) + ":" +
              Lookup(env, "EndpointMap", [name + TypeName(t), "port"])
  {
    var o := OutputDefinition(name, t, netParam, suffix);
    HostMeaning(name, t, netParam, suffix, env);
    EvalField(name, t, "protocol", env);
    EvalField(name, t, "port", env);
    var scheme, host, port := Eval(o.protocol, env), Eval(o.host, env), Eval(o.port, env);
    assert Bracketed(host) == host;
    assert Eval(o.uriNoSuffix, env) == Authority(scheme, host, port) + "";
    assert scheme + ":" + "//" + host + (":" + port) + "" == scheme + "://" + host + ":" + port;
  }

  // ---------- lookups ----------

  /** The keys with which an expression looks into the endpoint map. */
  function References(e: Expr): set<seq<Expr>> {
    match e
    case Lit(_) => {}
    case GetParam(param, keys) => (if param == "EndpointMap" then {keys} else {}) + ReferencesAll(keys)
    case StrReplace(template, _, values) => References(template) + ReferencesAll(values)
    case MakeUrl(scheme, host, port, _) => References(scheme) + References(host) + References(port)
    case ListJoin(_, items) => ReferencesAll(items)
  }

  function ReferencesAll(es: seq<Expr>): set<seq<Expr>> {
    if es == [] then {} else References(es[0]) + ReferencesAll(es[1..])
  }

  function OutputReferences(o: Output): set<seq<Expr>> {
    References(o.hostNoBrackets) + References(o.host) + References(o.port) + References(o.protocol) +
    References(o.uri) + References(o.uriNoSuffix)
  }

  predicate NamesField(keys: seq<Expr>, key: string) {
    |keys| == 2 && keys[0] == Lit(key) && keys[1] in {Lit("port"), Lit("protocol"), Lit("host")}
  }

  lemma ReferencesOf(a: Expr, b: Expr)
    ensures ReferencesAll([a]) == References(a)
    ensures ReferencesAll([a, b]) == References(a) + References(b)
  {
    assert [a, b][1..] == [b] && [b][1..] == [] && [a][1..] == [];
    assert ReferencesAll([]) == {};
  }

  lemma NetReferences(netParam: string)
    ensures References(ServiceNet(netParam)) == {}
    ensures References(CloudName(netParam)) == {}
    ensures References(GetParam("NetIpMap", [ServiceNet(netParam)])) == {}
    ensures References(GetParam("NetIpMap", [StrReplace(Lit("NETWORK_uri"), ["NETWORK"], [ServiceNet(netParam)])])) == {}
  {
    ReferencesOf(Lit(netParam), Lit(netParam));
    ReferencesOf(ServiceNet(netParam), Lit(""));
    ReferencesOf(StrReplace(Lit("NETWORK_uri"), ["NETWORK"], [ServiceNet(netParam)]), Lit(""));
  }

  lemma FieldReferences(name: string, t: EndpointType, field: string)
    ensures References(ExtractField(name, t, field)) == {[Lit(name + TypeName(t)), Lit(field)]}
  {
    ReferencesOf(Lit(name + TypeName(t)), Lit(field));
  }

  lemma OutputReferencesAre(name: string, t: EndpointType, netParam: string, suffix: Option<string>)
    ensures forall keys :: keys in OutputReferences(OutputDefinition(name, t, netParam, suffix)) ==>
              NamesField(keys, name + TypeName(t))
  {
    var o := OutputDefinition(name, t, netParam, suffix);
    NetReferences(netParam);
    FieldReferences(name, t, "port");
    FieldReferences(name, t, "protocol");
    FieldReferences(name, t, "host");
    ReferencesOf(o.host.values[0], o.host.values[1]);
    ReferencesOf(o.hostNoBrackets.values[0], o.hostNoBrackets.values[1]);
    if o.uri.ListJoin? {
      ReferencesOf(o.uri.items[0], o.uri.items[1]);
    }
  }

  /** Reference closure: each look into the endpoint map, in each output of the template
      generated from a configuration, names an entry of the default map and a field of it. */
  lemma ReferencesAreClosed(config: Config, names: seq<string>, outputName: string, output: Output, keys: seq<Expr>)
    requires forall n :: n in names <==> n in config
    requires Generated(config, outputName, output) && keys in OutputReferences(output)
    ensures exists key :: key in EndpointMapDefault(config, names) && NamesField(keys, key)
  {
    var name, t, variant :|
      && name in config && t in config[name].types && variant in SuffixesOf(config[name].types[t])
      && IsOutput(config, name, t, variant, outputName, output);
    var d := config[name].types[t];
    OutputReferencesAre(name, t, NetParamName(d), SuffixesOf(d)[variant]);
    EntryOf(config, names, name, t);
  }
}
