/** The round trip of a whole file through the encoder and the decoder. */
module CommentTheorems {
  import opened Wrappers
  import opened Text
  import opened Passes
  import opened Comments
  import opened CommentSteps
  import opened CommentShapes
  import opened CommentLines

  // ---------- the unfinished line ----------

  /** The encoder leaves the line unfinished: it is not blank and has no comment. */
  ghost predicate StaysOpen(tail: string) {
    !Blank(tail) && !exists k: nat, text :: IsCommentLine(tail, k, text)
  }

  lemma StaysOpenIff(tail: string)
    ensures StaysOpen(tail) <==> tail != "" && !IsSpace(tail) && !IsComment(tail)
  {
    IsCommentIff(tail);
  }

  /** What follows the lines in the output. */
  ghost function Ending(tail: string): string {
    if StaysOpen(tail) then "" else "\n"
  }

  /** An unfinished comment loses its last character, so it must have no text. */
  predicate FaithfulLast(tail: string) {
    Faithful(tail) && (IsComment(tail) ==> Indent(tail) + 1 == |tail|)
  }

  lemma BlankTail(tail: string)
    requires OneLine(tail)
    ensures Blank(tail) <==> tail == "" || IsSpace(tail)
  {
    var line := tail + "\n";
    assert forall i :: 0 <= i < |tail| ==> line[i] == tail[i];
    assert line[|tail|] == '\n';
  }

  /** The last line of the encoded text is empty, so the output ends in two newlines. */
  lemma ClosedEnd(piece: string, d: Decoder)
    ensures var end := Consume(DecodeLine, [piece, ""], 2, d).Settled();
            end == DecodeLine(piece, d).Settled() + "\n" && |end| >= 2 && end[|end| - 2] == '\n'
  {
    var pieces := [piece, ""];
    assert Consume(DecodeLine, pieces, 0, d) == d;
    assert Consume(DecodeLine, pieces, 1, d) == DecodeLine(piece, d);
    NothingDecoded(DecodeLine(piece, d));
    EndsInNewline(Classify(piece), d);
  }

  lemma EndsInNewline(piece: Piece, d: Decoder)
    ensures var s := Append(piece, d).Settled(); s != "" && s[|s| - 1] == '\n'
  {
  }

  lemma TwoPieces(key: string)
    requires OneLine(key)
    ensures Split(key + "\n") == [key, ""]
  {
    UnlinesOfOne(key);
    SplitAfter([key], "");
    assert Unlines([key]) + "" == key + "\n";
  }

  /** What the end is encoded to, by kinds of unfinished lines. */
  lemma LastPiecesAre(tail: string, count: nat)
    requires OneLine(tail)
    ensures Blank(tail) ==> LastPieces(tail, count) == [""]
    ensures !Blank(tail) && IsComment(tail) ==>
              LastPieces(tail, count) == [CommentKey(Indent(tail), count + 1, Inner(tail, Indent(tail) + 1)), ""]
    ensures StaysOpen(tail) && InlineComment(tail).None? ==> LastPieces(tail, count) == [tail]
    ensures StaysOpen(tail) && InlineComment(tail).Some? ==>
              LastPieces(tail, count) == [tail + InlineKey(Indent(tail), count + 1, InlineComment(tail).value), ""]
  {
    BlankTail(tail);
    StaysOpenIff(tail);
    if Blank(tail) {
      assert EncodeLine(tail, count).0 == "";
      OneLeft("");
    } else if IsComment(tail) {
      CommentPieces(tail, count);
    } else if InlineComment(tail).Some? {
      InlinePieces(tail, count);
    } else {
      OneLeft(tail);
    }
  }

  lemma CommentPieces(tail: string, count: nat)
    requires OneLine(tail) && IsComment(tail) && !IsSpace(tail)
    ensures LastPieces(tail, count) == [CommentKey(Indent(tail), count + 1, Inner(tail, Indent(tail) + 1)), ""]
  {
    var text := Inner(tail, Indent(tail) + 1);
    KeysOnOneLine(Indent(tail), count + 1, text);
    TwoPieces(CommentKey(Indent(tail), count + 1, text));
  }

  lemma InlinePieces(tail: string, count: nat)
    requires OneLine(tail) && !IsComment(tail) && !IsSpace(tail) && InlineComment(tail).Some?
    ensures LastPieces(tail, count) == [tail + InlineKey(Indent(tail), count + 1, InlineComment(tail).value), ""]
  {
    var comment := InlineComment(tail).value;
    KeysOnOneLine(Indent(tail), count + 1, comment);
    TwoPieces(tail + InlineKey(Indent(tail), count + 1, comment));
  }

  /** An unfinished line without comments. */
  lemma OpenEnd(tail: string, count: nat, d: Decoder)
    requires OneLine(tail) && !Blank(tail) && !IsComment(tail) && InlineComment(tail).None?
    ensures DecodeLine(tail, d).Settled() == d.Settled() + tail + "\n" <==> Faithful(tail)
  {
    var d' := DecodeLine(tail, d);
    if Faithful(tail) {
      NothingToRemove(tail, GET_INPUT);
    } else {
      ExtendsItself(d');
      OtherDiverges(tail, count + 1, d, d');
    }
  }

  lemma ExtendsItself(d: Decoder)
    ensures Extends(d, d)
  {
  }

  /** When something else follows, an open line does not come back as such. */
  lemma ClosedNotOpen(piece: string, tail: string, d: Decoder)
    requires OneLine(tail) && tail != ""
    ensures Consume(DecodeLine, [piece, ""], 2, d).Settled() != d.Settled() + tail + "\n"
  {
    ClosedEnd(piece, d);
    var want := d.Settled() + tail + "\n";
    assert want[|want| - 2] == tail[|tail| - 1] && tail[|tail| - 1] in tail;
  }

  /** An unfinished comment. */
  lemma CommentEnd(tail: string, count: nat, d: Decoder)
    requires OneLine(tail) && IsComment(tail)
    ensures var key := CommentKey(Indent(tail), count, Inner(tail, Indent(tail) + 1));
            DecodeLine(key, d).Settled() == d.Settled() + tail + "\n" <==> FaithfulLast(tail)
  {
    var k := Indent(tail);
    var text := Inner(tail, k + 1);
    if k == 0 {
      ZeroIndentEnd(tail, text, count, d);
    } else if |tail| == k + 1 {
      BareCommentEnd(tail, text, count, d);
      BareIsFaithful(tail);
    } else {
      CutCommentEnd(tail, text, count, d);
    }
  }

  lemma ZeroIndentEnd(tail: string, text: string, count: nat, d: Decoder)
    requires OneLine(tail) && tail != "" && tail[0] == '#' && OneLine(text)
    ensures DecodeLine(CommentKey(0, count, text), d).Settled() != d.Settled() + tail + "\n"
  {
    ZeroIndentRead(text, count);
    var l := Classify(CommentKey(0, count, text)).text;
    var got, want := d.Settled() + l + "\n", d.Settled() + tail + "\n";
    assert got[|d.Settled()|] == 'c' && want[|d.Settled()|] == '#';
  }

  lemma WholeCommentEnd(tail: string, text: string, count: nat, d: Decoder)
    requires IsComment(tail) && Indent(tail) > 0 && !Contains(tail, GET_INPUT) && text == tail[Indent(tail) + 1..]
    ensures DecodeLine(CommentKey(Indent(tail), count, text), d).Settled() == d.Settled() + tail + "\n"
  {
    CommentStep(tail, count, d);
    NothingToRemove(tail, GET_INPUT);
  }

  /** Without text after the hash, there is nothing to lose. */
  lemma BareCommentEnd(tail: string, text: string, count: nat, d: Decoder)
    requires IsComment(tail) && Indent(tail) > 0 && |tail| == Indent(tail) + 1 && text == ""
    ensures DecodeLine(CommentKey(Indent(tail), count, text), d).Settled() == d.Settled() + tail + "\n"
  {
    BareHasNoText(tail, GET_INPUT);
    assert tail[Indent(tail) + 1..] == text;
    WholeCommentEnd(tail, text, count, d);
  }

  lemma BareIsFaithful(tail: string)
    requires IsComment(tail) && Indent(tail) > 0 && |tail| == Indent(tail) + 1
    ensures FaithfulLast(tail)
  {
    BareHasNoText(tail, GET_INPUT);
  }

  lemma BareHasNoText(tail: string, pattern: string)
    requires IsComment(tail) && |tail| == Indent(tail) + 1 && pattern != "" && pattern[0] != ' ' && pattern[0] != '#'
    ensures !Contains(tail, pattern)
  {
    forall i | 0 <= i <= |tail|
      ensures !(pattern <= tail[i..])
    {
      assert i < |tail| ==> tail[i..][0] == tail[i];
    }
  }

  lemma CutComment(tail: string, text: string)
    requires IsComment(tail) && |tail| > Indent(tail) + 1 && text == Inner(tail, Indent(tail) + 1)
    ensures var body := Spaces(Indent(tail)) + "#" + text;
            && IsComment(body) && Indent(body) == Indent(tail) && body[Indent(tail) + 1..] == text
            && |body| < |tail|
  {
    var k := Indent(tail);
    assert Spaces(k) + "#" + text == Spaces(k) + ("#" + text);
    IndentOf(k, "#" + text);
  }

  /** Otherwise the last character is lost. */
  lemma CutCommentEnd(tail: string, text: string, count: nat, d: Decoder)
    requires OneLine(tail) && IsComment(tail) && Indent(tail) > 0 && |tail| > Indent(tail) + 1
    requires text == Inner(tail, Indent(tail) + 1)
    ensures DecodeLine(CommentKey(Indent(tail), count, text), d).Settled() != d.Settled() + tail + "\n"
  {
    CutComment(tail, text);
    CutBodyEnd(tail, Spaces(Indent(tail)) + "#" + text, count, d);
  }

  lemma CutBodyEnd(tail: string, body: string, count: nat, d: Decoder)
    requires IsComment(body) && Indent(body) > 0 && |body| < |tail|
    ensures DecodeLine(CommentKey(Indent(body), count, body[Indent(body) + 1..]), d).Settled() != d.Settled() + tail + "\n"
  {
    CommentStep(body, count, d);
    RemovingShortens(body, GET_INPUT);
    LongerByOne(d.Settled(), Remove(body, GET_INPUT), tail);
  }

  lemma LongerByOne(u: string, l: string, tail: string)
    requires |l| < |tail|
    ensures u + l + "\n" != u + tail + "\n"
  {
    assert |u + l + "\n"| < |u + tail + "\n"|;
  }

  /** What is expected of the end after `u`. */
  ghost function Wanted(u: string, tail: string): string {
    u + Unlines(Kept([tail])) + Ending(tail)
  }

  /** The end comes back exactly if it is blank or faithful. */
  lemma EndIff(tail: string, count: nat, d: Decoder)
    requires OneLine(tail)
    ensures var pieces := LastPieces(tail, count);
            Consume(DecodeLine, pieces, |pieces|, d).Settled() == Wanted(d.Settled(), tail) <==> Blank(tail) || FaithfulLast(tail)
  {
    var pieces := LastPieces(tail, count);
    LastPiecesAre(tail, count);
    BlankTail(tail);
    WantedIs(d.Settled(), tail);
    if Blank(tail) {
      ConsumeOne(DecodeLine, "", d);
      NothingDecoded(d);
    } else if IsComment(tail) {
      CommentEnd(tail, count + 1, d);
      ClosedEnd(pieces[0], d);
      WithNewline(d.Settled() + tail + "\n", DecodeLine(pieces[0], d).Settled());
    } else if InlineComment(tail).None? {
      ConsumeOne(DecodeLine, tail, d);
      OpenEnd(tail, count, d);
    } else {
      ClosedNotOpen(pieces[0], tail, d);
      NotFaithfulInline(tail);
    }
  }

  lemma NotFaithfulInline(tail: string)
    requires !IsComment(tail) && InlineComment(tail).Some?
    ensures !FaithfulLast(tail)
  {
  }

  lemma WantedIs(u: string, tail: string)
    requires OneLine(tail)
    ensures Wanted(u, tail) ==
              if Blank(tail) then u + "\n" else if IsComment(tail) then u + tail + "\n" + "\n" else u + tail + "\n"
  {
    BlankTail(tail);
    StaysOpenIff(tail);
    KeptOne(tail);
    assert u + "" == u && u + (tail + "\n") + "" == u + tail + "\n";
    assert u + (tail + "\n") + "\n" == u + tail + "\n" + "\n";
  }

  lemma KeptOne(tail: string)
    ensures Unlines(Kept([tail])) == if Blank(tail) then "" else tail + "\n"
  {
    UnlinesOfOne(tail);
    assert [tail][1..] == [];
  }

  lemma WithNewline(a: string, z: string)
    ensures a + "\n" == z + "\n" <==> a == z
  {
    if a + "\n" == z + "\n" {
      SameButNewline(a, z);
    }
  }

  // ---------- any text ----------

  lemma SameButNewline(a: string, z: string)
    requires a + "\n" == z + "\n"
    ensures a == z
  {
    assert a == (a + "\n")[..|a|] && z == (z + "\n")[..|z|];
  }

  /** All lines of a text are blank or come back; the last one, which may be unfinished or
      empty, must have no text if it is a comment. */
  ghost predicate Returns(text: string) {
    var rows := Split(text);
    && (forall i :: 0 <= i < |rows| ==> Blank(rows[i]) || ComesBack(rows[i]))
    && forall k: nat, comment :: IsCommentLine(LastRow(text), k, comment) ==> comment == ""
  }

  lemma FaithfulLastIff(tail: string)
    requires OneLine(tail)
    ensures FaithfulLast(tail) <==>
              ComesBack(tail) && forall k: nat, comment :: IsCommentLine(tail, k, comment) ==> comment == ""
  {
    FaithfulIff(tail);
    IsCommentIff(tail);
    forall k: nat, comment | IsCommentLine(tail, k, comment)
      ensures Indent(tail) == k && |tail| == k + 1 + |comment|
    {
      CommentLineIs(tail, k, comment);
    }
    if IsComment(tail) {
      var k: nat, comment :| IsCommentLine(tail, k, comment);
    }
  }

  lemma CommentIsNotBlank(body: string)
    ensures (exists k: nat, comment :: IsCommentLine(body, k, comment)) ==> !Blank(body)
  {
    if k: nat, comment :| IsCommentLine(body, k, comment) {
      CommentNotBlank(body, k, comment);
    }
  }

  lemma RowsIff(rows: seq<string>)
    requires rows != [] && forall i :: 0 <= i < |rows| ==> OneLine(rows[i])
    ensures var n := |rows| - 1;
            (forall i :: 0 <= i < |rows| ==> Blank(rows[i]) || ComesBack(rows[i])) <==>
              AllFaithful(rows[..n]) && (Blank(rows[n]) || ComesBack(rows[n]))
  {
    var n := |rows| - 1;
    forall i | 0 <= i < n
      ensures Faithful(rows[i]) <==> ComesBack(rows[i])
      ensures rows[..n][i] == rows[i]
    {
      FaithfulIff(rows[i]);
    }
    if AllFaithful(rows[..n]) && (Blank(rows[n]) || ComesBack(rows[n])) {
      forall i | 0 <= i < |rows|
        ensures Blank(rows[i]) || ComesBack(rows[i])
      {
        assert i < n ==> rows[..n][i] == rows[i];
      }
    }
  }

  lemma ReturnsIff(text: string)
    ensures var rows := Split(text);
            var n := |rows| - 1;
            Returns(text) <==> AllFaithful(rows[..n]) && (Blank(rows[n]) || FaithfulLast(rows[n]))
  {
    SplitIs(text);
    RowsIff(Split(text));
    LastIff(LastRow(text));
  }

  lemma LastIff(tail: string)
    requires OneLine(tail)
    ensures Blank(tail) || FaithfulLast(tail) <==>
              && (Blank(tail) || ComesBack(tail))
              && forall k: nat, comment :: IsCommentLine(tail, k, comment) ==> comment == ""
  {
    FaithfulLastIff(tail);
    CommentIsNotBlank(tail);
  }

  function LastRow(text: string): string {
    var rows := Split(text);
    rows[|rows| - 1]
  }

  lemma RowsInTwo(bodies: seq<string>, tail: string)
    ensures Unlines(Kept(bodies + [tail])) + Ending(tail) == Wanted(Unlines(Kept(bodies)), tail)
  {
    KeptInTwo(bodies, [tail]);
    UnlinesInTwo(Kept(bodies), Kept([tail]));
  }

  lemma RowsRoundTrip(text: string, bodies: seq<string>, tail: string)
    requires Split(text) == bodies + [tail]
    ensures Decode(Encode(text)) == Wanted(Unlines(Kept(bodies)), tail) <==>
              AllFaithful(bodies) && (Blank(tail) || FaithfulLast(tail))
  {
    var rows := Split(text);
    SplitIs(text);
    Pipeline(text);
    assert rows[..|rows| - 1] == bodies && rows[|rows| - 1] == tail;
    assert forall i :: 0 <= i < |bodies| ==> bodies[i] == rows[i];
    if AllFaithful(bodies) {
      FaithfulBefore(bodies, tail);
    } else {
      UnfaithfulBefore(bodies, tail);
    }
  }

  /** The round trip of any text: its non-blank lines come back in order, each with its
      newline, and after them a further newline unless the last line is unfinished and not a
      comment, exactly when each line is faithful. */
  lemma RoundTrip(text: string)
    ensures Decode(Encode(text)) == Unlines(Kept(Split(text))) + Ending(LastRow(text)) <==> Returns(text)
  {
    var rows := Split(text);
    var n := |rows| - 1;
    assert rows == rows[..n] + [rows[n]];
    RowsInTwo(rows[..n], rows[n]);
    RowsRoundTrip(text, rows[..n], rows[n]);
    ReturnsIff(text);
  }

  lemma FaithfulBefore(bodies: seq<string>, tail: string)
    requires OneLineEach(bodies) && OneLine(tail) && AllFaithful(bodies)
    ensures Finish(bodies, tail).Settled() == Wanted(Unlines(Kept(bodies)), tail) <==> Blank(tail) || FaithfulLast(tail)
  {
    assert bodies[..|bodies|] == bodies;
    ThroughFaithful(bodies, |bodies|);
    var (d, count) := Through(bodies, |bodies|);
    EndIff(tail, count, d);
  }

  lemma UnfaithfulBefore(bodies: seq<string>, tail: string)
    requires OneLineEach(bodies) && OneLine(tail) && !AllFaithful(bodies)
    ensures Finish(bodies, tail).Settled() != Wanted(Unlines(Kept(bodies)), tail)
  {
    var n := FirstUnfaithful(bodies);
    PrefixFaithful(bodies, n);
    ThroughFaithful(bodies, n);
    UnfaithfulDiverges(bodies, tail, n);
    var rest := KeptAround(bodies, n);
    WantedGrows(Unlines(Kept(bodies[..n])) + bodies[n] + "\n", rest, tail);
  }

  lemma WantedGrows(u: string, rest: string, tail: string)
    ensures u <= Wanted(u + rest, tail)
  {
  }

  // ---------- a second time ----------

  lemma {:induction false} KeptTwice(bodies: seq<string>)
    ensures Kept(Kept(bodies)) == Kept(bodies)
    ensures forall b :: b in Kept(bodies) <==> b in bodies && !Blank(b)
  {
    if bodies != [] {
      KeptTwice(bodies[1..]);
      if !Blank(bodies[0]) {
        assert Kept(bodies)[1..] == Kept(bodies[1..]);
      }
    }
  }

  /** The non-blank lines of a text that comes back are faithful. */
  lemma KeptFaithful(text: string)
    requires Returns(text)
    ensures var kept := Kept(Split(text)); OneLineEach(kept) && AllFaithful(kept)
  {
    var rows := Split(text);
    var n := |rows| - 1;
    SplitIs(text);
    ReturnsIff(text);
    KeptTwice(rows);
    forall b | b in Kept(rows)
      ensures OneLine(b) && Faithful(b)
    {
      var i :| 0 <= i <= n && rows[i] == b;
      if i < n {
        assert rows[..n][i] == b;
      }
    }
  }

  lemma AllFaithfulWith(kept: seq<string>)
    requires AllFaithful(kept)
    ensures AllFaithful(kept + [""])
  {
    assert Blank("");
  }

  /** The rows of lines with a newline each, and with one more. */
  lemma RowsOfLines(kept: seq<string>, ending: string)
    requires OneLineEach(kept) && ending in {"", "\n"}
    ensures Split(Unlines(kept) + ending) == kept + (if ending == "" then [""] else ["", ""])
  {
    SplitAfter(kept, ending);
    OneLeft("");
    if ending == "\n" {
      TwoPieces("");
      assert "" + "\n" == ending;
    }
  }

  /** Going through both passes again changes nothing exactly when the first time the output
      ended in an empty line; otherwise it adds one. */
  lemma SecondTrip(text: string)
    requires Returns(text)
    ensures var once := Decode(Encode(text));
            && (Decode(Encode(once)) == once <==> !StaysOpen(LastRow(text)))
            && Decode(Encode(once)) == Unlines(Kept(Split(text))) + "\n"
  {
    RoundTrip(text);
    KeptFaithful(text);
    LinesReturn(Kept(Split(text)), Split(text), Ending(LastRow(text)));
    var u := Unlines(Kept(Split(text)));
    assert u + "" != u + "\n";
  }

  /** A text that ends in a newline and has only faithful lines. */
  lemma WholeLinesReturn(text: string, bodies: seq<string>)
    requires Split(text) == bodies + [""] && AllFaithful(bodies)
    ensures Decode(Encode(text)) == Unlines(Kept(bodies)) + "\n"
  {
    assert Blank("");
    WantedIs(Unlines(Kept(bodies)), "");
    RowsRoundTrip(text, bodies, "");
  }

  /** Faithful lines, with or without an empty line after them, come back with one. */
  lemma LinesReturn(kept: seq<string>, rows: seq<string>, ending: string)
    requires kept == Kept(rows) && OneLineEach(kept) && AllFaithful(kept) && ending in {"", "\n"}
    ensures Decode(Encode(Unlines(kept) + ending)) == Unlines(kept) + "\n"
  {
    RowsOfLines(kept, ending);
    KeptAgain(kept, rows);
    if ending == "" {
      WholeLinesReturn(Unlines(kept) + ending, kept);
    } else {
      AllFaithfulWith(kept);
      TwoBlanks(kept);
      WholeLinesReturn(Unlines(kept) + ending, kept + [""]);
    }
  }

  lemma TwoBlanks(kept: seq<string>)
    ensures kept + ["", ""] == kept + [""] + [""]
  {
  }

  lemma KeptAgain(kept: seq<string>, rows: seq<string>)
    requires kept == Kept(rows)
    ensures Kept(kept) == kept && Kept(kept + [""]) == kept
  {
    KeptTwice(rows);
    KeptInTwo(kept, [""]);
    assert Blank("");
    assert [""][1..] == [];
    assert Kept([""]) == [];
  }
}
