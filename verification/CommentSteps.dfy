/** How a single line goes through the encoder and the decoder. */
module CommentSteps {
  import opened Wrappers
  import opened Text
  import opened Passes
  import opened Comments

  /** A line, without its newline, that comes back as it was: it does not hold the dropped
      key, and it is an indented comment or a line that is neither commented at its end nor
      shaped like an encoded comment. */
  predicate Faithful(body: string) {
    && !Contains(body, GET_INPUT)
    && if IsComment(body) then Indent(body) > 0
       else InlineComment(body).None? && MatchComment(body).None? && MatchInline(body).None?
  }

  /** Nothing but spaces, tabs, vertical tabs, form feeds and line ends. */
  predicate Blank(body: string) {
    forall i :: 0 <= i < |body| ==> body[i] in {' ', '\t', '\n', '\U{0B}', '\U{0C}', '\r'}
  }

  /** The encoded lines of one line, and the comments counted. */
  function Encoded(body: string, count: nat): (seq<string>, nat) {
    if Blank(body) then ([], count)
    else
      var k := Indent(body);
      if IsComment(body) then ([CommentKey(k, count + 1, body[k + 1..])], count + 1)
      else
        var comment := InlineComment(body);
        if comment.Some? then ([body, InlineKey(k, count + 1, comment.value)], count + 1)
        else ([body], count)
  }

  // ---------- matching what was printed ----------

  lemma IndentOf(k: nat, rest: string)
    requires rest == "" || rest[0] != ' '
    ensures Indent(Spaces(k) + rest) == k
  {
    var s := Spaces(k) + rest;
    assert forall i :: 0 <= i < k ==> s[i] == ' ';
    assert rest != "" ==> s[k] == rest[0];
  }

  lemma DigitsOf(digits: string, rest: string)
    requires digits != "" && forall i :: 0 <= i < |digits| ==> IsDigit(digits[i])
    requires rest == "" || !IsDigit(rest[0])
    ensures AfterDigits(digits + rest) == Some((digits, rest))
  {
    var s := digits + rest;
    assert forall i :: 0 <= i < |digits| ==> s[i] == digits[i];
    assert rest != "" ==> s[|digits|] == rest[0];
    assert Digits(s) == |digits|;
    assert s[..|digits|] == digits && s[|digits|..] == rest;
  }

  lemma LastAt(s: string, i: nat, c: char)
    requires i < |s| && s[i] == c && c !in s[i + 1..]
    ensures FindLast(s, c) == Some(i)
  {
  }

  lemma QuotedOf(comment: string)
    ensures Quoted(": '" + comment + "'") == Some(comment)
  {
    var rest := comment + "'";
    assert (": '" + comment + "'")[3..] == rest;
    assert rest[..|comment|] == comment;
    LastAt(rest, |comment|, '\'');
  }

  lemma AfterOf(part: string, rest: string)
    ensures After(part + rest, part) == Some(rest)
  {
    assert (part + rest)[|part|..] == rest;
  }

  lemma IndentAndTextOf(digits: string, comment: string)
    requires digits != "" && forall i :: 0 <= i < |digits| ==> IsDigit(digits[i])
    ensures IndentAndText("_" + (digits + (": '" + comment + "'"))) == Some((digits, comment))
  {
    var e := ": '" + comment + "'";
    AfterOf("_", digits + e);
    DigitsOf(digits, e);
    QuotedOf(comment);
  }

  lemma AfterSpacesOf(k: nat, rest: string)
    requires k > 0 && (rest == "" || rest[0] != ' ')
    ensures AfterSpaces(Spaces(k) + rest) == Some(rest)
  {
    IndentOf(k, rest);
    assert (Spaces(k) + rest)[k..] == rest;
  }

  /** The decoder recognises an indented encoded comment. */
  lemma CommentRead(k: nat, count: nat, comment: string)
    requires k > 0
    ensures MatchComment(CommentKey(k, count, comment)) == Some((Dec(k), comment))
  {
    var c := "_" + (Dec(k) + (": '" + comment + "'"));
    var a := "comment" + (Dec(count) + c);
    CommentKeyIs(k, count, comment);
    AfterSpacesOf(k, a);
    AfterOf("comment", Dec(count) + c);
    DigitsOf(Dec(count), c);
    IndentAndTextOf(Dec(k), comment);
  }

  lemma CommentKeyIs(k: nat, count: nat, comment: string)
    ensures CommentKey(k, count, comment) ==
              Spaces(k) + ("comment" + (Dec(count) + ("_" + (Dec(k) + (": '" + comment + "'")))))
  {
  }

  lemma InlineRead(k: nat, count: nat, comment: string)
    ensures MatchInline(InlineKey(k, count, comment)) == Some(comment)
    ensures MatchComment(InlineKey(k, count, comment)) == None
  {
    var c := ": '" + comment + "'";
    var b := Dec(count) + c;
    var a := "inline_comment" + b;
    assert InlineKey(k, count, comment) == Spaces(k + 2) + a;
    IndentOf(k + 2, a);
    assert (Spaces(k + 2) + a)[k + 2..] == a;
    AfterOf("inline_comment", b);
    DigitsOf(Dec(count), c);
    QuotedOf(comment);
    assert a[0] == 'i';
  }

  // ---------- dropping the key ----------

  /** The key starts with a letter that the prefixes of encoded comments do not have. */
  lemma {:induction false} RemoveAfter(prefix: string, s: string)
    requires 'g' !in prefix
    ensures Remove(prefix + s, GET_INPUT) == prefix + Remove(s, GET_INPUT)
  {
    if prefix == "" {
      assert prefix + s == s;
    } else {
      var z := prefix + s;
      assert z[0] == prefix[0] && z[1..] == prefix[1..] + s;
      assert z[0] != 'g';
      RemoveAfter(prefix[1..], s);
      if |z| < |GET_INPUT| {
        assert Remove(z, GET_INPUT) == z;
        assert Remove(s, GET_INPUT) == s;
      } else {
        assert Remove(z, GET_INPUT) == [z[0]] + Remove(z[1..], GET_INPUT);
      }
    }
  }

  /** It has no quote either. */
  lemma {:induction false} RemoveBeforeQuote(s: string)
    ensures Remove(s + "'", GET_INPUT) == Remove(s, GET_INPUT) + "'"
  {
    var z := s + "'";
    assert z[|s|] == '\'';
    assert '\'' !in GET_INPUT;
    assert GET_INPUT <= z <==> GET_INPUT <= s;
    if |s| < |GET_INPUT| {
    } else if GET_INPUT <= s {
      assert z[|GET_INPUT|..] == s[|GET_INPUT|..] + "'";
      RemoveBeforeQuote(s[|GET_INPUT|..]);
    } else {
      assert z[1..] == s[1..] + "'";
      RemoveBeforeQuote(s[1..]);
    }
  }

  lemma CommentKeyDrops(k: nat, count: nat, comment: string)
    ensures Remove(CommentKey(k, count, comment), GET_INPUT) == CommentKey(k, count, Remove(comment, GET_INPUT))
  {
    var prefix := Spaces(k) + "comment" + Dec(count) + "_" + Dec(k) + ": '";
    assert 'g' !in prefix;
    assert CommentKey(k, count, comment) == prefix + (comment + "'");
    RemoveAfter(prefix, comment + "'");
    RemoveBeforeQuote(comment);
    assert CommentKey(k, count, Remove(comment, GET_INPUT)) == prefix + (Remove(comment, GET_INPUT) + "'");
  }

  lemma InlineKeyDrops(k: nat, count: nat, comment: string)
    ensures Remove(InlineKey(k, count, comment), GET_INPUT) == InlineKey(k, count, Remove(comment, GET_INPUT))
  {
    var prefix := Spaces(k) + "  inline_comment" + Dec(count) + ": '";
    assert 'g' !in prefix;
    assert InlineKey(k, count, comment) == prefix + (comment + "'");
    RemoveAfter(prefix, comment + "'");
    RemoveBeforeQuote(comment);
    assert InlineKey(k, count, Remove(comment, GET_INPUT)) == prefix + (Remove(comment, GET_INPUT) + "'");
  }

  /** A comment line is its indent, a hash and its text. */
  lemma CommentIs(body: string)
    requires IsComment(body)
    ensures var k := Indent(body); body == Spaces(k) + "#" + body[k + 1..]
    ensures Remove(body, GET_INPUT) == Spaces(Indent(body)) + "#" + Remove(body[Indent(body) + 1..], GET_INPUT)
  {
    var k := Indent(body);
    var text := body[k + 1..];
    assert body[..k] == Spaces(k);
    assert body == body[..k] + [body[k]] + text;
    assert body == Spaces(k) + "#" + text;
    assert 'g' !in Spaces(k) + "#";
    RemoveAfter(Spaces(k) + "#", text);
  }

  /** The decoder's answer to an encoded comment: the comment line without the dropped key. */
  lemma CommentStep(body: string, count: nat, d: Decoder)
    requires IsComment(body) && Indent(body) > 0
    ensures DecodeLine(CommentKey(Indent(body), count, body[Indent(body) + 1..]), d) ==
              Decoder(d.Settled() + Remove(body, GET_INPUT) + "\n", false)
  {
    var k := Indent(body);
    var text := Remove(body[k + 1..], GET_INPUT);
    CommentKeyDrops(k, count, body[k + 1..]);
    CommentRead(k, count, text);
    ParsePrinted(k);
    CommentIs(body);
    Regroup(d.Settled(), Spaces(k), text);
  }

  lemma Regroup(a: string, b: string, c: string)
    ensures a + b + "#" + c + "\n" == a + (b + "#" + c) + "\n"
  {
  }

  /** A faithful line is added to the settled output as it is. */
  lemma FaithfulStep(body: string, count: nat, d: Decoder)
    requires Faithful(body) && !Blank(body)
    ensures var e := Encoded(body, count).0;
            Consume(DecodeLine, e, |e|, d).Settled() == d.Settled() + body + "\n"
  {
    NothingToRemove(body, GET_INPUT);
    ConsumeOne(DecodeLine, Encoded(body, count).0[0], d);
    if IsComment(body) {
      CommentStep(body, count + 1, d);
    }
  }
}
