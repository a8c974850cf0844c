/** The comment encoder and decoder of the NIC configuration converter: YAML comments become
    keys that survive loading and dumping, and turn back into comments afterwards. */
module Comments {
  import opened Wrappers
  import opened Text
  import opened Passes

  const GET_INPUT := "get_input: "

  // ---------- the encoder ----------

  /** A Python slice from `from` that leaves out the last character. */
  function Inner(line: string, from: nat): string {
    if from <= |line| - 1 then line[from..|line| - 1] else ""
  }

  function CommentKey(indent: nat, count: nat, comment: string): string {
    Spaces(indent) + "comment" + Dec(count) + "_" + Dec(indent) + ": '" + comment + "'"
  }

  function InlineKey(indent: nat, count: nat, comment: string): string {
    Spaces(indent) + "  inline_comment" + Dec(count) + ": '" + comment + "'"
  }

  /** What follows the last hash of a line that has a colon before it. */
  function InlineComment(line: string): Option<string> {
    var body := line[..Find(line, '\n')];
    var hash := FindLast(body, '#');
    if hash.Some? && ':' in body[..hash.value] then Some(body[hash.value + 1..]) else None
  }

  predicate IsComment(line: string) {
    Indent(line) < |line| && line[Indent(line)] == '#'
  }

  /** One line of the input and the comments counted so far, to output and new count. */
  function EncodeLine(line: string, count: nat): (string, nat) {
    if IsSpace(line) then ("", count)
    else
      var k := Indent(line);
      if IsComment(line) then (CommentKey(k, count + 1, Inner(line, k + 1)) + "\n", count + 1)
      else
        var comment := InlineComment(line);
        if comment.Some? then (line + InlineKey(k, count + 1, comment.value) + "\n", count + 1)
        else (line, count)
  }

  function Encode(text: string): string {
    Write(EncodeLine, Lines(text), |Lines(text)|).0
  }

  /** `to_commented_yaml` without the file. */
  method ToCommentedYaml(text: string) returns (out: string)
    ensures out == Encode(text)
  {
    out := "";
    var count := 0;
    var lines := Lines(text);
    for n := 0 to |lines|
      invariant (out, count) == Write(EncodeLine, lines, n)
    {
      var line := lines[n];
      if IsSpace(line) {
        assert out + "" == out;
        continue;
      }
      var at := 0;
      assert Indent(line) == |line| ==> IsSpace(line);
      while at < |line|
        invariant at <= Indent(line)
        invariant (out, count) == Write(EncodeLine, lines, n)
        decreases |line| - at
      {
        if line[at] == ' ' {
          at := at + 1;
        } else if line[at] == '#' {
          count := count + 1;
          out := out + (CommentKey(at, count, Inner(line, at + 1)) + "\n");
          assert at == Indent(line);
          break;
        } else {
          var comment := InlineComment(line);
          if comment.Some? {
            count := count + 1;
            out := out + (line + InlineKey(at, count, comment.value) + "\n");
          } else {
            out := out + line;
          }
          assert at == Indent(line);
          break;
        }
      }
    }
  }

  // ---------- the decoder ----------

  /** What is left of `s` after `part`, if it starts with it. */
  function After(s: string, part: string): Option<string> {
    if part <= s then Some(s[|part|..]) else None
  }

  /** The number of leading digits and what follows them, if there are any. */
  function AfterDigits(s: string): Option<(string, string)> {
    var k := Digits(s);
    if k > 0 then Some((s[..k], s[k..])) else None
  }

  function AfterSpaces(s: string): Option<string> {
    var k := Indent(s);
    if k > 0 then Some(s[k..]) else None
  }

  /** A quoted rest: everything up to the last quote. */
  function Quoted(s: string): Option<string> {
    var rest := After(s, ": '");
    if rest.None? then None else
      var quote := FindLast(rest.value, '\'');
      if quote.None? then None else Some(rest.value[..quote.value])
  }

  /** An underscore, digits and a quoted rest. */
  function IndentAndText(s: string): Option<(string, string)> {
    var a := After(s, "_");
    if a.None? then None else
      var b := AfterDigits(a.value);
      if b.None? then None else
        var q := Quoted(b.value.1);
        if q.None? then None else Some((b.value.0, q.value))
  }

  /** The shape of an encoded comment: its indent in digits and its text. */
  function MatchComment(s: string): Option<(string, string)> {
    var a := AfterSpaces(s);
    if a.None? then None else
      var b := After(a.value, "comment");
      if b.None? then None else
        var c := AfterDigits(b.value);
        if c.None? then None else IndentAndText(c.value.1)
  }

  /** The shape of an encoded inline comment: its text. */
  function MatchInline(s: string): Option<string> {
    var a := AfterSpaces(s);
    if a.None? then None else
      var b := After(a.value, "inline_comment");
      if b.None? then None else
        var c := AfterDigits(b.value);
        if c.None? then None else Quoted(c.value.1)
  }

  lemma IndentIsDigits(s: string)
    ensures MatchComment(s).Some? ==>
              forall i :: 0 <= i < |MatchComment(s).value.0| ==> IsDigit(MatchComment(s).value.0[i])
  {
  }

  /** Decoder state: the output, and whether it owes a line break. */
  datatype Decoder = Decoder(out: string, owes: bool) {
    function Settled(): string {
      if owes then out + "\n" else out
    }
  }

  /** What the decoder makes of a line: a comment, an inline comment, or the line itself. */
  datatype Piece = Comment(indent: nat, text: string) | Inline(text: string) | Plain(text: string)

  function Classify(line: string): Piece {
    var l := Remove(line, GET_INPUT);
    var m := MatchComment(l);
    if m.Some? then
      IndentIsDigits(l);
      Comment(ParseDec(m.value.0), m.value.1)
    else
      var i := MatchInline(l);
      if i.Some? then Inline(i.value) else Plain(l)
  }

  function Append(piece: Piece, d: Decoder): Decoder {
    match piece
    case Comment(indent, text) => Decoder(d.Settled() + Spaces(indent) + "#" + text + "\n", false)
    case Inline(text) => Decoder(d.out + " #" + text + "\n", false)
    case Plain(text) => Decoder(d.Settled() + text, true)
  }

  function DecodeLine(line: string, d: Decoder): Decoder {
    Append(Classify(line), d)
  }

  const START := Decoder("", false)

  function Decode(data: string): string {
    Consume(DecodeLine, Split(data), |Split(data)|, START).Settled()
  }

  method AddComment(out: string, digits: string, comment: string) returns (r: string)
    requires forall i :: 0 <= i < |digits| ==> IsDigit(digits[i])
    ensures r == out + Spaces(ParseDec(digits)) + "#" + comment + "\n"
  {
    r := out;
    for x := 0 to ParseDec(digits)
      invariant r == out + Spaces(x)
    {
      OneMoreSpace(out, x);
      r := r + " ";
    }
    r := r + "#" + comment + "\n";
  }

  /** One turn of the decoder's loop. */
  method DecodeOne(text: string, out: string, owes: bool) returns (out': string, nextLineBreak: bool)
    ensures Decoder(out', nextLineBreak) == DecodeLine(text, Decoder(out, owes))
  {
    out', nextLineBreak := out, owes;
    var line := Remove(text, GET_INPUT);
    var m := MatchComment(line);
    var i := MatchInline(line);
    if m.Some? {
      if nextLineBreak {
        out' := out' + "\n";
        nextLineBreak := false;
      }
      IndentIsDigits(line);
      out' := AddComment(out', m.value.0, m.value.1);
    } else if i.Some? {
      out' := out' + " #" + i.value + "\n";
      nextLineBreak := false;
    } else {
      if nextLineBreak {
        out' := out' + "\n";
      }
      out' := out' + line;
      nextLineBreak := true;
    }
  }

  /** `to_normal_yaml` without the file. */
  method ToNormalYaml(data: string) returns (out: string)
    ensures out == Decode(data)
  {
    out := "";
    var nextLineBreak := false;
    var lines := Split(data);
    for n := 0 to |lines|
      invariant Decoder(out, nextLineBreak) == Consume(DecodeLine, lines, n, START)
    {
      out, nextLineBreak := DecodeOne(lines[n], out, nextLineBreak);
    }
    if nextLineBreak {
      out := out + "\n";
    }
  }
}
