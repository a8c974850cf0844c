/** The lines that the encoder and the decoder look for, spelled out character by character. */
module CommentShapes {
  import opened Wrappers
  import opened Text
  import opened Passes
  import opened Comments
  import opened CommentSteps

  predicate AllDigits(s: string) {
    s != "" && forall i :: 0 <= i < |s| ==> '0' <= s[i] <= '9'
  }

  ghost predicate Has(s: string, part: string) {
    exists before, after :: s == before + part + after
  }

  // ---------- the decoder's patterns ----------

  /** An indented `comment`, a number, an underscore, the indent in digits, and a quoted text
      that goes up to the last quote of the line. */
  ghost predicate IsCommentKey(s: string, indent: string, text: string) {
    exists k: nat, number, rest ::
      && k > 0 && AllDigits(number) && AllDigits(indent) && '\'' !in rest
      && s == Spaces(k) + "comment" + number + "_" + indent + ": '" + text + "'" + rest
  }

  /** An indented `inline_comment`, a number and a quoted text. */
  ghost predicate IsInlineKey(s: string, text: string) {
    exists k: nat, number, rest ::
      && k > 0 && AllDigits(number) && '\'' !in rest
      && s == Spaces(k) + "inline_comment" + number + ": '" + text + "'" + rest
  }

  lemma QuotedRest(text: string, rest: string)
    requires '\'' !in rest
    ensures Quoted(": '" + text + "'" + rest) == Some(text)
  {
    var s := text + "'" + rest;
    assert (": '" + text + "'" + rest)[3..] == s;
    assert s[|text|] == '\'' && s[|text| + 1..] == rest;
    LastAt(s, |text|, '\'');
    assert s[..|text|] == text;
  }

  /** A line that the decoder does not take for a line of the input. */
  ghost predicate LooksEncoded(s: string) {
    || (exists indent, text :: IsCommentKey(s, indent, text))
    || (exists text :: IsInlineKey(s, text))
  }

  lemma SplitAt(s: string, i: nat)
    requires i < |s|
    ensures s == s[..i] + [s[i]] + s[i + 1..]
  {
  }

  lemma QuotedIs(s: string)
    requires Quoted(s).Some?
    ensures exists rest :: '\'' !in rest && s == ": '" + Quoted(s).value + "'" + rest
  {
    var rest := After(s, ": '").value;
    var quote := FindLast(rest, '\'').value;
    AfterIs(s, ": '");
    SplitAt(rest, quote);
    PutTogether(": '", rest[..quote], rest[quote + 1..]);
  }

  lemma PutTogether(start: string, text: string, rest: string)
    ensures start + (text + "'" + rest) == start + text + "'" + rest
  {
  }

  lemma AfterIs(s: string, part: string)
    requires After(s, part).Some?
    ensures s == part + After(s, part).value
  {
  }

  lemma AfterDigitsIs(s: string)
    requires AfterDigits(s).Some?
    ensures s == AfterDigits(s).value.0 + AfterDigits(s).value.1 && AllDigits(AfterDigits(s).value.0)
  {
  }

  lemma AfterSpacesIs(s: string)
    requires AfterSpaces(s).Some?
    ensures Indent(s) > 0 && s == Spaces(Indent(s)) + AfterSpaces(s).value
  {
    assert s[..Indent(s)] == Spaces(Indent(s));
  }

  /** The rest of a comment key, from the underscore on. */
  lemma IndentAndTextIff(s: string, indent: string, text: string)
    ensures IndentAndText(s) == Some((indent, text)) <==>
              AllDigits(indent) && exists rest :: '\'' !in rest && s == "_" + (indent + (": '" + text + "'" + rest))
  {
    if IndentAndText(s) == Some((indent, text)) {
      AfterIs(s, "_");
      AfterDigitsIs(After(s, "_").value);
      QuotedIs(AfterDigits(After(s, "_").value).value.1);
    }
    if AllDigits(indent) && exists rest :: '\'' !in rest && s == "_" + (indent + (": '" + text + "'" + rest)) {
      var rest :| '\'' !in rest && s == "_" + (indent + (": '" + text + "'" + rest));
      AfterOf("_", indent + (": '" + text + "'" + rest));
      DigitsOf(indent, ": '" + text + "'" + rest);
      QuotedRest(text, rest);
    }
  }

  lemma CommentMatched(s: string)
    requires MatchComment(s).Some?
    ensures IsCommentKey(s, MatchComment(s).value.0, MatchComment(s).value.1)
  {
    var (indent, text) := MatchComment(s).value;
    var a := AfterSpaces(s).value;
    var b := After(a, "comment").value;
    var (number, c) := AfterDigits(b).value;
    AfterSpacesIs(s);
    AfterIs(a, "comment");
    AfterDigitsIs(b);
    IndentAndTextIff(c, indent, text);
    var rest :| '\'' !in rest && c == "_" + (indent + (": '" + text + "'" + rest));
    Joined(Indent(s), number, indent, text, rest);
  }

  lemma Joined(k: nat, number: string, indent: string, text: string, rest: string)
    ensures Spaces(k) + ("comment" + (number + ("_" + (indent + (": '" + text + "'" + rest))))) ==
              Spaces(k) + "comment" + number + "_" + indent + ": '" + text + "'" + rest
  {
  }

  lemma CommentKeyMatches(s: string, indent: string, text: string)
    requires IsCommentKey(s, indent, text)
    ensures MatchComment(s) == Some((indent, text))
  {
    var k: nat, number, rest :|
      && k > 0 && AllDigits(number) && AllDigits(indent) && '\'' !in rest
      && s == Spaces(k) + "comment" + number + "_" + indent + ": '" + text + "'" + rest;
    var c := "_" + (indent + (": '" + text + "'" + rest));
    var a := "comment" + (number + c);
    Joined(k, number, indent, text, rest);
    AfterSpacesOf(k, a);
    AfterOf("comment", number + c);
    DigitsOf(number, c);
    IndentAndTextIff(c, indent, text);
  }

  /** The decoder takes exactly these lines for comments. */
  lemma CommentPattern(s: string, indent: string, text: string)
    ensures MatchComment(s) == Some((indent, text)) <==> IsCommentKey(s, indent, text)
  {
    if MatchComment(s) == Some((indent, text)) {
      CommentMatched(s);
    }
    if IsCommentKey(s, indent, text) {
      CommentKeyMatches(s, indent, text);
    }
  }

  lemma InlineJoined(k: nat, number: string, text: string, rest: string)
    ensures Spaces(k) + ("inline_comment" + (number + (": '" + text + "'" + rest))) ==
              Spaces(k) + "inline_comment" + number + ": '" + text + "'" + rest
  {
  }

  /** The decoder takes exactly these lines for inline comments. */
  lemma InlinePattern(s: string, text: string)
    ensures MatchInline(s) == Some(text) <==> IsInlineKey(s, text)
  {
    if MatchInline(s) == Some(text) {
      var a := AfterSpaces(s).value;
      var b := After(a, "inline_comment").value;
      AfterSpacesIs(s);
      AfterIs(a, "inline_comment");
      AfterDigitsIs(b);
      QuotedIs(AfterDigits(b).value.1);
      var rest :| '\'' !in rest && AfterDigits(b).value.1 == ": '" + text + "'" + rest;
      InlineJoined(Indent(s), AfterDigits(b).value.0, text, rest);
    }
    if IsInlineKey(s, text) {
      InlineKeyMatches(s, text);
    }
  }

  lemma InlineKeyMatches(s: string, text: string)
    requires IsInlineKey(s, text)
    ensures MatchInline(s) == Some(text)
  {
    var k: nat, number, rest :|
      && k > 0 && AllDigits(number) && '\'' !in rest
      && s == Spaces(k) + "inline_comment" + number + ": '" + text + "'" + rest;
    var c := ": '" + text + "'" + rest;
    InlineJoined(k, number, text, rest);
    AfterSpacesOf(k, "inline_comment" + (number + c));
    AfterOf("inline_comment", number + c);
    DigitsOf(number, c);
    QuotedRest(text, rest);
  }

  // ---------- comments in the input ----------

  /** A comment line: spaces, a hash and the text. */
  ghost predicate IsCommentLine(body: string, k: nat, text: string) {
    body == Spaces(k) + "#" + text
  }

  /** A line with a comment after a value: a colon comes before its last hash, and it does not
      start with one. */
  ghost predicate IsCommented(body: string, value: string, text: string) {
    && body == value + "#" + text && ':' in value && '#' !in text
    && Indent(value) < |value| && value[Indent(value)] != '#'
  }

  lemma CommentLineIs(body: string, k: nat, text: string)
    requires IsCommentLine(body, k, text)
    ensures IsComment(body) && Indent(body) == k && body[k + 1..] == text
  {
    assert body == Spaces(k) + ("#" + text);
    IndentOf(k, "#" + text);
  }

  lemma CommentNotBlank(body: string, k: nat, text: string)
    requires IsCommentLine(body, k, text)
    ensures !Blank(body)
  {
    assert body[k] == '#';
  }

  lemma IsCommentIff(body: string)
    ensures IsComment(body) <==> exists k: nat, text :: IsCommentLine(body, k, text)
  {
    if IsComment(body) {
      CommentIs(body);
      assert IsCommentLine(body, Indent(body), body[Indent(body) + 1..]);
    }
    if k: nat, text :| IsCommentLine(body, k, text) {
      CommentLineIs(body, k, text);
    }
  }

  lemma BodyIsLine(body: string)
    requires OneLine(body)
    ensures Find(body, '\n') == |body| && body[..|body|] == body
  {
  }

  /** What follows the first character that is no space does not change the indent. */
  lemma IndentOfPrefix(value: string, rest: string)
    requires Indent(value) < |value|
    ensures Indent(value + rest) == Indent(value) && (value + rest)[Indent(value)] == value[Indent(value)]
  {
    var z, k := value + rest, Indent(value);
    assert z[k] == value[k] != ' ';
    assert forall i :: 0 <= i < k ==> z[i] == value[i] == ' ';
  }

  lemma ColonIsNoSpace(value: string)
    requires ':' in value
    ensures Indent(value) < |value|
  {
    var i :| 0 <= i < |value| && value[i] == ':';
  }

  lemma CommentedIs(body: string, value: string, text: string)
    requires IsCommented(body, value, text) && OneLine(body)
    ensures !IsComment(body) && Indent(body) == Indent(value) && InlineComment(body) == Some(text)
  {
    BodyIsLine(body);
    IndentOfPrefix(value, "#" + text);
    assert body == value + ("#" + text);
    LastHash(value, text);
    assert body[..|value|] == value;
  }

  lemma LastHash(value: string, text: string)
    requires '#' !in text
    ensures FindLast(value + "#" + text, '#') == Some(|value|)
    ensures (value + "#" + text)[|value| + 1..] == text
  {
    var body := value + "#" + text;
    assert body[|value|] == '#' && body[|value| + 1..] == text;
    LastAt(body, |value|, '#');
  }

  lemma CommentedIff(body: string)
    requires OneLine(body) && !IsComment(body)
    ensures InlineComment(body).Some? <==> exists value, text :: IsCommented(body, value, text)
  {
    if InlineComment(body).Some? {
      CommentedSplit(body);
    }
    if exists value, text :: IsCommented(body, value, text) {
      var value, text :| IsCommented(body, value, text);
      CommentedIs(body, value, text);
    }
  }

  lemma CommentedSplit(body: string)
    requires OneLine(body) && !IsComment(body) && InlineComment(body).Some?
    ensures exists value, text :: IsCommented(body, value, text)
  {
    BodyIsLine(body);
    var hash := FindLast(body, '#').value;
    SplitAt(body, hash);
    SplitIsCommented(body, body[..hash], body[hash + 1..]);
  }

  lemma SplitIsCommented(body: string, value: string, text: string)
    requires body == value + "#" + text && ':' in value && '#' !in text && !IsComment(body)
    ensures IsCommented(body, value, text)
  {
    ColonIsNoSpace(value);
    IndentOfPrefix(value, "#" + text);
    assert body == value + ("#" + text);
  }

  // ---------- faithful lines ----------

  /** A line that comes back: the dropped key is nowhere in it; if it is a comment, it is
      indented; if not, no comment follows a value and it does not look like an encoded
      comment of either kind. */
  ghost predicate ComesBack(body: string) {
    && !Has(body, "get_input: ")
    && if exists k: nat, text :: IsCommentLine(body, k, text) then body[0] == ' '
       else
         && (forall value, text :: !IsCommented(body, value, text))
         && !LooksEncoded(body)
  }

  lemma ContainsIff(s: string, pattern: string)
    ensures Contains(s, pattern) <==> Has(s, pattern)
  {
    if i :| 0 <= i <= |s| && pattern <= s[i..] {
      assert s == s[..i] + pattern + s[i + |pattern|..];
    }
    if a, b :| s == a + pattern + b {
      assert s[|a|..] == pattern + b;
    }
  }

  lemma LooksEncodedIff(body: string)
    ensures LooksEncoded(body) <==> MatchComment(body).Some? || MatchInline(body).Some?
  {
    if MatchComment(body).Some? {
      CommentMatched(body);
    }
    if MatchInline(body).Some? {
      InlinePattern(body, MatchInline(body).value);
    }
    if indent, text :| IsCommentKey(body, indent, text) {
      CommentKeyMatches(body, indent, text);
    }
    if text :| IsInlineKey(body, text) {
      InlineKeyMatches(body, text);
    }
  }

  lemma FaithfulIff(body: string)
    requires OneLine(body)
    ensures Faithful(body) <==> ComesBack(body)
  {
    ContainsIff(body, "get_input: ");
    IsCommentIff(body);
    if IsComment(body) {
      assert body[0] == ' ' <==> Indent(body) > 0;
    } else {
      CommentedIff(body);
      LooksEncodedIff(body);
    }
  }

  // ---------- the dropped key ----------

  lemma {:induction false} RemoveAt(a: string, pattern: string, b: string)
    requires pattern != "" && pattern[0] !in pattern[1..] && !Contains(a, pattern)
    ensures Remove(a + pattern + b, pattern) == a + Remove(b, pattern)
  {
    var s := a + pattern + b;
    if a == "" {
      assert s == pattern + b && s[|pattern|..] == b;
    } else {
      NotYet(a, pattern, b);
      assert s[1..] == a[1..] + pattern + b && s[0] == a[0];
      assert forall i :: 0 <= i <= |a[1..]| ==> a[1..][i..] == a[i + 1..];
      RemoveAt(a[1..], pattern, b);
      assert [a[0]] + (a[1..] + Remove(b, pattern)) == a + Remove(b, pattern);
    }
  }

  /** The pattern does not start in the text before it. */
  lemma NotYet(a: string, pattern: string, b: string)
    requires pattern != "" && pattern[0] !in pattern[1..] && !Contains(a, pattern) && a != ""
    ensures !(pattern <= a + pattern + b)
  {
    var s := a + pattern + b;
    assert a[0..] == a && s[|a|] == pattern[0];
    assert |pattern| > |a| ==> pattern[1..][|a| - 1] == pattern[|a|];
    assert |pattern| <= |a| ==> s[..|pattern|] == a[..|pattern|];
  }

  /** Every `get_input: ` is dropped, from left to right, and nothing else is. */
  lemma KeyIsDropped(a: string, b: string)
    requires !Has(a, "get_input: ")
    ensures Remove(a, "get_input: ") == a
    ensures Remove(a + "get_input: " + b, "get_input: ") == a + Remove(b, "get_input: ")
    ensures forall d :: DecodeLine(a + "get_input: ", d) == DecodeLine(a, d)
  {
    var key := GET_INPUT;
    ContainsIff(a, key);
    NothingToRemove(a, key);
    assert key[0] !in key[1..];
    RemoveAt(a, key, b);
    RemoveAt(a, key, "");
    assert a + key + "" == a + key && Remove("", key) == "" && a + "" == a;
  }
}
