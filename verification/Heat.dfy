/** The few Heat intrinsic functions that the endpoint templates use, and what they evaluate
    to. */
module Heat {
  import opened Text
  import opened Wrappers

  datatype Json = Str(s: string) | Obj(fields: map<string, Json>)

  datatype Expr =
    | Lit(s: string)
    | GetParam(param: string, keys: seq<Expr>)
    | StrReplace(template: Expr, names: seq<string>, values: seq<Expr>)
    | MakeUrl(scheme: Expr, host: Expr, port: Expr, path: Option<string>)
    | ListJoin(delimiter: string, items: seq<Expr>)

  type Env = map<string, Json>

  /** A lookup that leads nowhere gives the empty string. */
  function Follow(j: Json, path: seq<string>): string {
    if path == [] then (if j.Str? then j.s else "")
    else if j.Obj? && path[0] in j.fields then Follow(j.fields[path[0]], path[1..])
    else ""
  }

  function Lookup(env: Env, param: string, path: seq<string>): string {
    if param in env then Follow(env[param], path) else ""
  }

  // ---------- replacing placeholders ----------

  /** The pieces of a string between the occurrences of a placeholder. */
  function Pieces(s: string, placeholder: string): (r: seq<string>)
    requires placeholder != ""
    ensures r != []
  {
    if |s| < |placeholder| then [s]
    else if placeholder <= s then [""] + Pieces(s[|placeholder|..], placeholder)
    else
      var r := Pieces(s[1..], placeholder);
      [[s[0]] + r[0]] + r[1..]
  }

  /** Placeholders are replaced one after the other, and never inside a replacement. */
  function Replace(s: string, params: seq<(string, string)>): string
    decreases |params|, 0, 0
  {
    if params == [] then s
    else if params[0].0 == "" then Replace(s, params[1..])
    else Join(params[0].1, ReplaceAll(Pieces(s, params[0].0), params[1..]))
  }

  function ReplaceAll(parts: seq<string>, params: seq<(string, string)>): (r: seq<string>)
    ensures |r| == |parts|
    decreases |params|, 1, |parts|
  {
    if parts == [] then [] else [Replace(parts[0], params)] + ReplaceAll(parts[1..], params)
  }

  // ---------- URLs ----------

  /** An address with colons is put in brackets unless it has them. */
  function Bracketed(host: string): string {
    if ':' in host && host[0] != '[' then "[" + host + "]" else host
  }

  function Authority(scheme: string, host: string, port: string): string {
    (if scheme == "" then "" else scheme + ":") + "//" + Bracketed(host) + (if port == "" then "" else ":" + port)
  }

  predicate SafeChar(c: char) {
    'a' <= c <= 'z' || 'A' <= c <= 'Z' || '0' <= c <= '9' || c in "_.-~/"
  }

  function HexDigit(n: nat): char
    requires n < 16
  {
    "0123456789ABCDEF"[n]
  }

  /** Percent-encoding, for characters of one byte. */
  function QuoteChar(c: char): string {
    if SafeChar(c) then [c]
    else
      var n := c as int % 256;
      ['%', HexDigit(n / 16), HexDigit(n % 16)]
  }

  function Quote(s: string): string {
    if s == "" then "" else QuoteChar(s[0]) + Quote(s[1..])
  }

  function PathPart(path: Option<string>): string {
    if path.None? || path.value == "" then ""
    else (if path.value[0] == '/' then "" else "/") + Quote(path.value)
  }

  function Eval(e: Expr, env: Env): string {
    match e
    case Lit(s) => s
    case GetParam(param, keys) => Lookup(env, param, EvalAll(keys, env))
    case StrReplace(template, names, values) => Replace(Eval(template, env), Zip(names, EvalAll(values, env)))
    case MakeUrl(scheme, host, port, path) =>
      Authority(Eval(scheme, env), Eval(host, env), Eval(port, env)) + PathPart(path)
    case ListJoin(delimiter, items) => Join(delimiter, EvalAll(items, env))
  }

  function EvalAll(es: seq<Expr>, env: Env): seq<string> {
    if es == [] then [] else [Eval(es[0], env)] + EvalAll(es[1..], env)
  }

  /** Names and values side by side. */
  function Zip(names: seq<string>, values: seq<string>): seq<(string, string)> {
    if names == [] || values == [] then [] else [(names[0], values[0])] + Zip(names[1..], values[1..])
  }

  // ---------- properties ----------

  /** A path that URL quoting leaves alone: it is empty, or it starts with a slash and has
      only slashes, letters, digits and the other unreserved characters. */
  predicate SafePath(path: string) {
    path == "" || (path[0] == '/' && forall i :: 0 <= i < |path| ==> IsUnreserved(path[i]) || path[i] == '/')
  }

  /** The unreserved characters of section 2.3 of RFC 3986. */
  predicate IsUnreserved(c: char) {
    'A' <= c <= 'Z' || 'a' <= c <= 'z' || '0' <= c <= '9' || c == '-' || c == '.' || c == '_' || c == '~'
  }

  lemma {:induction false} QuoteIff(s: string)
    ensures |Quote(s)| >= |s|
    ensures Quote(s) == s <==> forall i :: 0 <= i < |s| ==> SafeChar(s[i])
    ensures |Quote(s)| == |s| ==> Quote(s) == s
  {
    if s != "" {
      QuoteIff(s[1..]);
      assert s == [s[0]] + s[1..];
      if SafeChar(s[0]) {
        assert Quote(s)[1..] == Quote(s[1..]);
      }
    }
  }

  /** Quoting gives the path itself exactly when it is empty or absolute and safe. */
  lemma PathPartIff(path: string)
    ensures PathPart(Some(path)) == path <==> SafePath(path)
    ensures |PathPart(Some(path))| == |path| ==> PathPart(Some(path)) == path
  {
    QuoteIff(path);
  }

  lemma EvalOne(a: Expr, env: Env)
    ensures EvalAll([a], env) == [Eval(a, env)]
  {
    assert [a][1..] == [];
    assert EvalAll([a], env) == [Eval(a, env)] + EvalAll([], env);
  }

  lemma EvalPair(a: Expr, b: Expr, env: Env)
    ensures EvalAll([a, b], env) == [Eval(a, env), Eval(b, env)]
  {
    assert [a, b][1..] == [b];
    EvalOne(b, env);
    assert EvalAll([a, b], env) == [Eval(a, env)] + EvalAll([b], env);
  }

  lemma ReplacePair(a: string, b: string, params: seq<(string, string)>)
    ensures ReplaceAll([a, b], params) == [Replace(a, params), Replace(b, params)]
    ensures ReplaceAll([a], params) == [Replace(a, params)]
  {
    assert [a, b][1..] == [b] && [b][1..] == [] && [a][1..] == [];
    assert ReplaceAll([b], params) == [Replace(b, params)] + ReplaceAll([], params);
    assert ReplaceAll([a], params) == [Replace(a, params)] + ReplaceAll([], params);
    assert ReplaceAll([a, b], params) == [Replace(a, params)] + ReplaceAll([b], params);
  }

  lemma JoinPair(delimiter: string, a: string, b: string)
    ensures Join(delimiter, [a, b]) == a + delimiter + b
  {
    assert [a, b][..1] == [a];
  }

  lemma ReplaceAtStart(placeholder: string, rest: string, value: string, params: seq<(string, string)>)
    requires placeholder != "" && |rest| < |placeholder|
    ensures Replace(placeholder + rest, [(placeholder, value)] + params) == Replace("", params) + value + Replace(rest, params)
  {
    var s, all := placeholder + rest, [(placeholder, value)] + params;
    assert s[|placeholder|..] == rest && all[1..] == params;
    assert Pieces(s, placeholder) == ["", rest];
    ReplacePair("", rest, params);
    JoinPair(value, Replace("", params), Replace(rest, params));
  }

  lemma {:induction false} ReplaceNothing(params: seq<(string, string)>)
    ensures Replace("", params) == ""
    decreases |params|
  {
    if params != [] {
      ReplaceNothing(params[1..]);
      if params[0].0 != "" {
        assert Pieces("", params[0].0) == [""];
        ReplacePair("", "", params[1..]);
      }
    }
  }

  lemma ReplaceTooShort(s: string, param: (string, string), params: seq<(string, string)>)
    requires |s| < |param.0|
    ensures Replace(s, [param] + params) == Replace(s, params)
  {
    assert ([param] + params)[1..] == params;
    assert Pieces(s, param.0) == [s];
    ReplacePair(s, s, params);
  }
}
