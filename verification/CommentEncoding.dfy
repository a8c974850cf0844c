/** What the encoder writes for each line, and what the decoder makes of a commented value. */
module CommentEncoding {
  import opened Wrappers
  import opened Text
  import opened Passes
  import opened Comments
  import opened CommentSteps
  import opened CommentShapes
  import opened CommentLines

  /** A line with a comment: it is one, or it has one after a value. */
  ghost predicate HasComment(body: string) {
    || (exists k: nat, text :: IsCommentLine(body, k, text))
    || (exists value, text :: IsCommented(body, value, text))
  }

  /** The lines with comments. */
  ghost function CountComments(bodies: seq<string>): nat {
    if bodies == [] then 0
    else CountComments(bodies[..|bodies| - 1]) + if HasComment(bodies[|bodies| - 1]) then 1 else 0
  }

  /** What a line is encoded to if its comment is the `number`th: nothing if it is blank; a
      key with the number, the indent and the text if it is a comment; itself and a key with
      the number and the text if it has a comment after a value; and otherwise itself. */
  ghost predicate EncodesTo(body: string, number: nat, out: string) {
    || (Blank(body) && out == "")
    || (exists k: nat, text :: IsCommentLine(body, k, text) &&
          out == Spaces(k) + "comment" + Dec(number) + "_" + Dec(k) + ": '" + text + "'" + "\n")
    || (exists value, text :: IsCommented(body, value, text) &&
          out == body + "\n" + Spaces(Indent(value)) + "  inline_comment" + Dec(number) + ": '" + text + "'" + "\n")
    || (!Blank(body) && !HasComment(body) && out == body + "\n")
  }

  lemma CommentEncoded(body: string, k: nat, text: string, count: nat)
    requires OneLine(body) && IsCommentLine(body, k, text)
    ensures EncodeLine(body + "\n", count) ==
              (Spaces(k) + "comment" + Dec(count + 1) + "_" + Dec(k) + ": '" + text + "'" + "\n", count + 1)
  {
    CommentLineIs(body, k, text);
    CommentNotBlank(body, k, text);
    EncodeCommentIs(body, count);
    UnlinesOfOne(CommentKey(k, count + 1, text));
  }

  lemma CommentedEncoded(body: string, value: string, text: string, count: nat)
    requires OneLine(body) && IsCommented(body, value, text)
    ensures EncodeLine(body + "\n", count) ==
              (body + "\n" + Spaces(Indent(value)) + "  inline_comment" + Dec(count + 1) + ": '" + text + "'" + "\n", count + 1)
  {
    CommentedIs(body, value, text);
    CommentedNotBlank(body, value, text);
    EncodeOtherIs(body, count);
    UnlinesOfTwo(body, InlineKey(Indent(value), count + 1, text));
    InlineKeySpelled(body, Indent(value), count + 1, text);
  }

  lemma CommentedNotBlank(body: string, value: string, text: string)
    requires IsCommented(body, value, text)
    ensures !Blank(body)
  {
    assert body[|value|] == '#';
  }

  lemma InlineKeySpelled(body: string, k: nat, number: nat, text: string)
    ensures body + "\n" + InlineKey(k, number, text) + "\n" ==
              body + "\n" + Spaces(k) + "  inline_comment" + Dec(number) + ": '" + text + "'" + "\n"
  {
  }

  lemma OtherEncoded(body: string, count: nat)
    requires OneLine(body) && !HasComment(body)
    ensures EncodeLine(body + "\n", count) == (if Blank(body) then "" else body + "\n", count)
  {
    IsCommentIff(body);
    CommentedIff(body);
    EncodeLineIs(body, count);
    UnlinesOfOne(body);
  }

  /** One line: what it is encoded to, and the count after it. */
  lemma LineEncoded(body: string, count: nat)
    requires OneLine(body)
    ensures var (out, count') := EncodeLine(body + "\n", count);
            && EncodesTo(body, count + 1, out)
            && count' == count + if HasComment(body) then 1 else 0
  {
    if exists k: nat, text :: IsCommentLine(body, k, text) {
      var k: nat, text :| IsCommentLine(body, k, text);
      CommentEncoded(body, k, text, count);
    } else if exists value, text :: IsCommented(body, value, text) {
      var value, text :| IsCommented(body, value, text);
      CommentedEncoded(body, value, text, count);
    } else {
      OtherEncoded(body, count);
    }
  }

  lemma {:induction false} WriteCounts(bodies: seq<string>, n: nat)
    requires OneLineEach(bodies) && n <= |bodies|
    ensures Write(EncodeLine, Terminated(bodies), n).1 == CountComments(bodies[..n])
  {
    if n > 0 {
      WriteCounts(bodies, n - 1);
      LineEncoded(bodies[n - 1], Write(EncodeLine, Terminated(bodies), n - 1).1);
      assert bodies[..n][..n - 1] == bodies[..n - 1];
    }
  }

  /** Encoding line by line: each further line adds what it is encoded to, with the number of
      comments before it and one. */
  lemma EncodingGrows(bodies: seq<string>, body: string) returns (out: string)
    requires OneLineEach(bodies) && OneLine(body)
    ensures Encode(Unlines(bodies + [body])) == Encode(Unlines(bodies)) + out
    ensures EncodesTo(body, CountComments(bodies) + 1, out)
  {
    var all := bodies + [body];
    var n := |bodies|;
    LinesOnly(bodies);
    LinesOnly(all);
    WriteCounts(bodies, n);
    assert bodies[..n] == bodies;
    LineEncoded(body, CountComments(bodies));
    out := EncodeLine(body + "\n", CountComments(bodies)).0;
    SameWrite(EncodeLine, Terminated(bodies), Terminated(all), n);
  }

  lemma LinesOnly(bodies: seq<string>)
    requires OneLineEach(bodies)
    ensures Lines(Unlines(bodies)) == Terminated(bodies)
  {
    LinesAfter(bodies, "");
    assert Unlines(bodies) + "" == Unlines(bodies);
    assert Terminated(bodies) + [] == Terminated(bodies);
  }

  // ---------- a commented value comes back ----------

  lemma PlainDecoded(value: string, d: Decoder)
    requires !Has(value, "get_input: ")
    requires !LooksEncoded(value)
    ensures DecodeLine(value, d) == Decoder(d.Settled() + value, true)
  {
    ContainsIff(value, "get_input: ");
    LooksEncodedIff(value);
    UnmatchedDecoded(value, d);
  }

  lemma UnmatchedDecoded(value: string, d: Decoder)
    requires !Contains(value, GET_INPUT) && MatchComment(value).None? && MatchInline(value).None?
    ensures DecodeLine(value, d) == Decoder(d.Settled() + value, true)
  {
    NothingToRemove(value, GET_INPUT);
  }

  lemma InlineDecoded(k: nat, number: nat, text: string, d: Decoder)
    requires !Has(text, "get_input: ")
    ensures DecodeLine(InlineKey(k, number, text), d) == Decoder(d.out + " #" + text + "\n", false)
  {
    ContainsIff(text, "get_input: ");
    NothingToRemove(text, GET_INPUT);
    InlineKeyDrops(k, number, text);
    InlineRead(k, number, text);
  }

  /** When the comment has been stripped from a commented value, decoding the value and its
      key puts it back, after a space. */
  lemma CommentedReturns(body: string, value: string, text: string, number: nat, d: Decoder)
    requires IsCommented(body, value, text) && OneLine(body)
    requires !Has(text, "get_input: ") && !Has(value, "get_input: ")
    requires !LooksEncoded(value)
    ensures var key := Spaces(Indent(value)) + "  inline_comment" + Dec(number) + ": '" + text + "'";
            DecodeLine(key, DecodeLine(value, d)) == Decoder(d.Settled() + value + " #" + text + "\n", false)
  {
    PlainDecoded(value, d);
    InlineDecoded(Indent(value), number, text, Decoder(d.Settled() + value, true));
  }
}
