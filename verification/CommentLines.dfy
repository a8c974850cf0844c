/** The lines of a file on their way through the encoder and the decoder: which come back, and
    that the others do not, whatever surrounds them. */
module CommentLines {
  import opened Wrappers
  import opened Text
  import opened Passes
  import opened Comments
  import opened CommentSteps

  /** The lines that are not blank, in order. */
  function Kept(bodies: seq<string>): seq<string> {
    if bodies == [] then []
    else if Blank(bodies[0]) then Kept(bodies[1..])
    else [bodies[0]] + Kept(bodies[1..])
  }

  /** The decoder and the comment count after the first `n` lines have gone through both. */
  function Through(bodies: seq<string>, n: nat): (Decoder, nat)
    requires n <= |bodies|
  {
    Fused(DecodeLine, Encoded, bodies, n, START)
  }

  // ---------- the two passes, line by line ----------

  lemma IndentWithNewline(body: string)
    requires OneLine(body) && !Blank(body)
    ensures Indent(body + "\n") == Indent(body) < |body|
  {
    var line := body + "\n";
    assert forall i :: 0 <= i < |body| ==> line[i] == body[i];
    assert Indent(body) == |body| ==> IsSpace(line);
  }

  lemma InlineWithNewline(body: string)
    requires OneLine(body)
    ensures InlineComment(body + "\n") == InlineComment(body)
  {
    FindAt(body, "");
    assert body + "\n" + "" == body + "\n";
    assert (body + "\n")[..|body|] == body;
    assert Find(body, '\n') == |body|;
    assert body[..|body|] == body;
  }

  lemma KeysOnOneLine(k: nat, count: nat, comment: string)
    requires OneLine(comment)
    ensures OneLine(CommentKey(k, count, comment)) && OneLine(InlineKey(k, count, comment))
  {
  }

  /** The encoder's output for a line is its encoded lines. */
  lemma EncodeLineIs(body: string, count: nat)
    requires OneLine(body)
    ensures EncodeLine(body + "\n", count) == (Unlines(Encoded(body, count).0), Encoded(body, count).1)
    ensures OneLineEach(Encoded(body, count).0)
  {
    if Blank(body) {
    } else if IsComment(body) {
      EncodeCommentIs(body, count);
    } else {
      EncodeOtherIs(body, count);
    }
  }

  lemma EncodeCommentIs(body: string, count: nat)
    requires OneLine(body) && !Blank(body) && IsComment(body)
    ensures EncodeLine(body + "\n", count) == (Unlines(Encoded(body, count).0), count + 1)
    ensures OneLineEach(Encoded(body, count).0)
  {
    var line, k := body + "\n", Indent(body);
    IndentWithNewline(body);
    assert line[k] == body[k];
    assert Inner(line, k + 1) == body[k + 1..];
    KeysOnOneLine(k, count + 1, body[k + 1..]);
    UnlinesOfOne(CommentKey(k, count + 1, body[k + 1..]));
  }

  lemma EncodeOtherIs(body: string, count: nat)
    requires OneLine(body) && !Blank(body) && !IsComment(body)
    ensures EncodeLine(body + "\n", count) == (Unlines(Encoded(body, count).0), Encoded(body, count).1)
    ensures OneLineEach(Encoded(body, count).0)
  {
    var line, k := body + "\n", Indent(body);
    IndentWithNewline(body);
    InlineWithNewline(body);
    assert line[k] == body[k];
    var comment := InlineComment(body);
    if comment.Some? {
      KeysOnOneLine(k, count + 1, comment.value);
      UnlinesOfTwo(body, InlineKey(k, count + 1, comment.value));
    } else {
      UnlinesOfOne(body);
    }
  }

  lemma UnlinesOfOne(a: string)
    ensures Unlines([a]) == a + "\n"
  {
    assert [a][1..] == [] && Unlines([]) == "";
  }

  lemma UnlinesOfTwo(a: string, z: string)
    ensures Unlines([a, z]) == a + "\n" + z + "\n"
  {
    assert [a, z][1..] == [z];
    UnlinesOfOne(z);
  }

  lemma NothingDecoded(d: Decoder)
    ensures DecodeLine("", d).Settled() == d.Settled() + "\n"
  {
    assert Remove("", GET_INPUT) == "";
    assert d.Settled() + "" == d.Settled();
  }

  /** The encoded form of an unfinished last line, which the encoder handles as if its last
      character were a newline, split into lines. */
  function LastPieces(tail: string, count: nat): seq<string> {
    Split(EncodeLine(tail, count).0)
  }

  /** The decoder after all lines and an unfinished one. */
  function Finish(bodies: seq<string>, tail: string): Decoder {
    var (d, count) := Through(bodies, |bodies|);
    var pieces := LastPieces(tail, count);
    Consume(DecodeLine, pieces, |pieces|, d)
  }

  lemma NothingEncoded(count: nat)
    ensures EncodeLine("", count) == ("", count)
  {
  }

  /** Both passes together are the single pass over the lines, and what becomes of the end. */
  lemma Pipeline(text: string)
    ensures var rows := Split(text);
            var n := |rows| - 1;
            Decode(Encode(text)) == Finish(rows[..n], rows[n]).Settled()
  {
    forall body, count | OneLine(body)
      ensures EncodeLine(body + "\n", count) == (Unlines(Encoded(body, count).0), Encoded(body, count).1)
      ensures OneLineEach(Encoded(body, count).0)
    {
      EncodeLineIs(body, count);
    }
    forall count: nat
      ensures EncodeLine("", count) == ("", count)
    {
      NothingEncoded(count);
    }
    Composed(DecodeLine, EncodeLine, Encoded, text, START);
  }

  // ---------- faithful files come back ----------

  predicate AllFaithful(bodies: seq<string>) {
    forall i :: 0 <= i < |bodies| && !Blank(bodies[i]) ==> Faithful(bodies[i])
  }

  lemma {:induction false} KeptInTwo(a: seq<string>, z: seq<string>)
    ensures Kept(a + z) == Kept(a) + Kept(z)
  {
    if a == [] {
      assert a + z == z;
    } else {
      assert (a + z)[1..] == a[1..] + z;
      KeptInTwo(a[1..], z);
    }
  }

  lemma {:induction false} ThroughFaithful(bodies: seq<string>, n: nat)
    requires n <= |bodies| && AllFaithful(bodies[..n])
    ensures Through(bodies, n).0.Settled() == Unlines(Kept(bodies[..n]))
  {
    if n > 0 {
      var before, body := bodies[..n - 1], bodies[n - 1];
      var (d, count) := Through(bodies, n - 1);
      assert bodies[..n] == before + [body];
      assert forall i :: 0 <= i < n - 1 ==> bodies[..n][i] == before[i];
      ThroughFaithful(bodies, n - 1);
      KeptInTwo(before, [body]);
      UnlinesInTwo(Kept(before), Kept([body]));
      assert [body][1..] == [];
      if !Blank(body) {
        assert bodies[..n][n - 1] == body;
        FaithfulStep(body, count, d);
        UnlinesOfOne(body);
      }
    }
  }

  // ---------- other files do not ----------

  function Hashes(s: string): nat {
    if s == "" then 0 else (if s[0] == '#' then 1 else 0) + Hashes(s[1..])
  }

  lemma {:induction false} HashesInTwo(a: string, z: string)
    ensures Hashes(a + z) == Hashes(a) + Hashes(z)
  {
    if a == "" {
      assert a + z == z;
    } else {
      assert (a + z)[1..] == a[1..] + z;
      HashesInTwo(a[1..], z);
    }
  }

  lemma {:induction false} HashCounts(s: string)
    requires '#' in s
    ensures Hashes(s) > 0
  {
    if s[0] != '#' {
      HashCounts(s[1..]);
    }
  }

  lemma KeyHasNoHash(s: string)
    requires GET_INPUT <= s
    ensures Hashes(s) == Hashes(s[|GET_INPUT|..])
  {
    var key := GET_INPUT;
    assert s == key + s[|key|..];
    HashesInTwo(key, s[|key|..]);
    assert '#' !in key;
    NoHash(key);
  }

  lemma {:induction false} NoHash(s: string)
    requires '#' !in s
    ensures Hashes(s) == 0
  {
    if s != "" {
      NoHash(s[1..]);
    }
  }

  lemma {:induction false} RemoveKeepsHashes(s: string)
    ensures Hashes(Remove(s, GET_INPUT)) == Hashes(s)
    ensures OneLine(s) ==> OneLine(Remove(s, GET_INPUT))
  {
    if |s| < |GET_INPUT| {
    } else if GET_INPUT <= s {
      KeyHasNoHash(s);
      RemoveKeepsHashes(s[|GET_INPUT|..]);
    } else {
      RemoveKeepsHashes(s[1..]);
      var rest := Remove(s[1..], GET_INPUT);
      assert ([s[0]] + rest)[1..] == rest;
    }
  }

  /** What may come between an owed line break and the text before it. */
  predicate Tail(w: string) {
    OneLine(w) && (w == "" || '#' in w)
  }

  /** Later output only adds to earlier output, and completes an unfinished line at most with
      a comment. */
  ghost predicate Extends(d: Decoder, d': Decoder) {
    if d.owes then d' == d || exists w :: Tail(w) && d.out + w + "\n" <= d'.out
    else d.out <= d'.out
  }

  lemma AfterOnOneLine(s: string, part: string)
    requires OneLine(s)
    ensures After(s, part).Some? ==> OneLine(After(s, part).value)
    ensures AfterDigits(s).Some? ==> OneLine(AfterDigits(s).value.1)
    ensures AfterSpaces(s).Some? ==> OneLine(AfterSpaces(s).value)
  {
  }

  lemma QuotedOnOneLine(s: string)
    requires OneLine(s)
    ensures Quoted(s).Some? ==> OneLine(Quoted(s).value)
  {
    AfterOnOneLine(s, ": '");
  }

  lemma CommentOnOneLine(s: string)
    requires OneLine(s) && MatchComment(s).Some?
    ensures OneLine(MatchComment(s).value.1)
  {
    var a := AfterSpaces(s).value;
    AfterOnOneLine(s, "");
    AfterOnOneLine(a, "comment");
    var b := After(a, "comment").value;
    AfterOnOneLine(b, "");
    var c := AfterDigits(b).value.1;
    AfterOnOneLine(c, "_");
    var d := After(c, "_").value;
    AfterOnOneLine(d, "");
    QuotedOnOneLine(AfterDigits(d).value.1);
  }

  lemma InlineOnOneLine(s: string)
    requires OneLine(s) && MatchInline(s).Some?
    ensures OneLine(MatchInline(s).value)
  {
    var a := AfterSpaces(s).value;
    AfterOnOneLine(s, "");
    AfterOnOneLine(a, "inline_comment");
    var b := After(a, "inline_comment").value;
    AfterOnOneLine(b, "");
    QuotedOnOneLine(AfterDigits(b).value.1);
  }

  lemma PieceOnOneLine(line: string)
    requires OneLine(line)
    ensures OneLine(Classify(line).text)
  {
    var l := Remove(line, GET_INPUT);
    RemoveKeepsHashes(line);
    if MatchComment(l).Some? {
      CommentOnOneLine(l);
    } else if MatchInline(l).Some? {
      InlineOnOneLine(l);
    }
  }

  lemma PrefixTrans(a: string, b: string, c: string)
    requires a <= b <= c
    ensures a <= c
  {
  }

  lemma AppendGrows(piece: Piece, d: Decoder)
    ensures d.out <= Append(piece, d).out
  {
  }

  /** An owed line break is paid at once, or after a comment. */
  lemma AppendExtends(piece: Piece, d: Decoder)
    requires OneLine(piece.text)
    ensures Extends(d, Append(piece, d))
  {
    var d' := Append(piece, d);
    if d.owes && piece.Inline? {
      var w := " #" + piece.text;
      assert w[1] == '#';
      assert d'.out == d.out + w + "\n";
      assert Tail(w);
    } else if d.owes {
      assert d.out + "" + "\n" == d.Settled() <= d'.out;
      assert Tail("");
    }
  }

  lemma ExtendsOn(d: Decoder, d': Decoder, piece: Piece)
    requires Extends(d, d') && OneLine(piece.text)
    ensures Extends(d, Append(piece, d'))
  {
    var d'' := Append(piece, d');
    AppendGrows(piece, d');
    if d.owes && d' == d {
      AppendExtends(piece, d);
    } else if d.owes {
      var w :| Tail(w) && d.out + w + "\n" <= d'.out;
      PrefixTrans(d.out + w + "\n", d'.out, d''.out);
    }
  }

  /** The rest of the text adds to what any part of a line has left. */
  lemma RestExtends(bodies: seq<string>, tail: string, n: nat, i: nat)
    requires n < |bodies| && OneLineEach(bodies) && OneLine(tail)
    requires i <= |Encoded(bodies[n], Through(bodies, n).1).0|
    ensures var (d, count) := Through(bodies, n);
            Extends(Consume(DecodeLine, Encoded(bodies[n], count).0, i, d), Finish(bodies, tail))
  {
    var (d, count) := Through(bodies, n);
    var e := Encoded(bodies[n], count).0;
    var part := Consume(DecodeLine, e, i, d);
    var inv := (d': Decoder) => Extends(part, d');
    EveryLineExtends(part);
    forall body, count' | OneLine(body)
      ensures OneLineEach(Encoded(body, count').0)
    {
      EncodeLineIs(body, count');
    }
    assert inv(part);
    RestKeeps(DecodeLine, Encoded, inv, bodies, n, i, START);
    var (last, count') := Through(bodies, |bodies|);
    var pieces := LastPieces(tail, count');
    SplitIs(EncodeLine(tail, count').0);
    ConsumeKeeps(DecodeLine, inv, pieces, |pieces|, last);
  }

  lemma EveryLineExtends(d: Decoder)
    ensures forall line, d' :: OneLine(line) && Extends(d, d') ==> Extends(d, DecodeLine(line, d'))
  {
    forall line, d' | OneLine(line) && Extends(d, d')
      ensures Extends(d, DecodeLine(line, d'))
    {
      PieceOnOneLine(line);
      ExtendsOn(d, d', Classify(line));
    }
  }

  /** Two lines at the same place of the same text are the same line. */
  lemma SameLine(u: string, a: string, b: string, text: string)
    requires OneLine(a) && OneLine(b) && u + a + "\n" <= text && u + b + "\n" <= text
    ensures a == b
  {
    var rest := text[|u|..];
    assert rest == a + "\n" + rest[|a| + 1..];
    assert rest == b + "\n" + rest[|b| + 1..];
    FindAt(a, rest[|a| + 1..]);
    FindAt(b, rest[|b| + 1..]);
    assert a == rest[..|a|] == b;
  }

  /** If an unfinished line ends up as a whole line of the output, that line is it with a
      comment at most. */
  lemma Finished(d: Decoder, d': Decoder, u: string, l: string, body: string) returns (w: string)
    requires d == Decoder(u + l, true) && Extends(d, d') && OneLine(l) && OneLine(body)
    requires u + body + "\n" <= d'.Settled()
    ensures Tail(w) && body == l + w
  {
    if d' == d {
      w := "";
    } else {
      w :| Tail(w) && d.out + w + "\n" <= d'.out;
    }
    assert u + (l + w) + "\n" == u + l + w + "\n";
    SameLine(u, l + w, body, d'.Settled());
  }

  /** The two lines that start with a hash after their indent. */
  lemma HashFirst(k: nat, comment: string)
    ensures IsComment(Spaces(k) + "#" + comment)
  {
    IndentOf(k, "#" + comment);
    assert Spaces(k) + "#" + comment == Spaces(k) + ("#" + comment);
  }

  /** Without an indent, an encoded comment is not recognised: the line comes back encoded. */
  lemma ZeroIndentRead(comment: string, count: nat)
    requires OneLine(comment)
    ensures var piece := Classify(CommentKey(0, count, comment));
            piece.Plain? && piece.text != "" && piece.text[0] == 'c' && OneLine(piece.text)
  {
    var l := Remove(CommentKey(0, count, comment), GET_INPUT);
    KeysOnOneLine(0, count, comment);
    RemoveKeepsHashes(CommentKey(0, count, comment));
    CommentKeyDrops(0, count, comment);
    CommentKeyIs(0, count, Remove(comment, GET_INPUT));
    assert l[0] == 'c';
    NoIndentNoMatch(l);
  }

  lemma NoIndentNoMatch(l: string)
    requires l != "" && l[0] != ' '
    ensures MatchComment(l).None? && MatchInline(l).None?
  {
    assert AfterSpaces(l).None?;
  }

  lemma ZeroIndentDiverges(body: string, count: nat, d: Decoder, d': Decoder)
    requires OneLine(body) && body != "" && body[0] == '#'
    requires Extends(DecodeLine(CommentKey(0, count, body[1..]), d), d')
    ensures !(d.Settled() + body + "\n" <= d'.Settled())
  {
    ZeroIndentRead(body[1..], count);
    var l := Classify(CommentKey(0, count, body[1..])).text;
    if d.Settled() + body + "\n" <= d'.Settled() {
      var w := Finished(Append(Plain(l), d), d', d.Settled(), l, body);
    }
  }

  /** A comment that does not come back. */
  lemma CommentDiverges(body: string, count: nat, d: Decoder, d': Decoder)
    requires OneLine(body) && IsComment(body) && (Indent(body) == 0 || Contains(body, GET_INPUT))
    requires Extends(DecodeLine(CommentKey(Indent(body), count, body[Indent(body) + 1..]), d), d')
    ensures !(d.Settled() + body + "\n" <= d'.Settled())
  {
    if Indent(body) == 0 {
      ZeroIndentDiverges(body, count, d, d');
    } else {
      CommentStep(body, count, d);
      RemovingShortens(body, GET_INPUT);
      RemoveKeepsHashes(body);
      if d.Settled() + body + "\n" <= d'.Settled() {
        SameLine(d.Settled(), Remove(body, GET_INPUT), body, d'.Settled());
      }
    }
  }

  /** A line taken for an encoded comment of either kind. */
  lemma ShapeDiverges(piece: Piece, body: string, d: Decoder, d': Decoder)
    requires OneLine(body) && !IsComment(body) && OneLine(piece.text) && !piece.Plain?
    requires Extends(Append(piece, d), d')
    ensures !(d.Settled() + body + "\n" <= d'.Settled())
  {
    var u, f := d.Settled(), d'.Settled();
    if u + body + "\n" <= f {
      if piece.Comment? {
        HashFirst(piece.indent, piece.text);
        Regroup(u, Spaces(piece.indent), piece.text);
        SameLine(u, Spaces(piece.indent) + "#" + piece.text, body, f);
      } else {
        InlineTakenDiverges(piece.text, body, d, f);
      }
    }
  }

  lemma InlineTakenDiverges(comment: string, body: string, d: Decoder, f: string)
    requires OneLine(body) && !IsComment(body) && OneLine(comment)
    requires d.out + " #" + comment + "\n" <= f
    ensures !(d.Settled() + body + "\n" <= f)
  {
    var x := " #" + comment;
    HashFirst(1, comment);
    assert Spaces(1) + "#" + comment == x;
    if d.owes {
      assert (d.out + " #" + comment + "\n")[|d.out|] == ' ';
      assert (d.Settled() + body + "\n")[|d.out|] == '\n';
    } else if d.Settled() + body + "\n" <= f {
      assert d.out + " #" + comment + "\n" == d.Settled() + x + "\n";
      SameLine(d.Settled(), x, body, f);
    }
  }

  lemma OneHashMore(l: string, again: string, body: string)
    requires Hashes(l) == Hashes(body)
    ensures l + (" #" + again) != body
  {
    var w := " #" + again;
    assert w[1] == '#';
    HashCounts(w);
    HashesInTwo(l, w);
  }

  lemma InlineAfterPlain(l: string, again: string, d: Decoder)
    ensures var d' := Append(Inline(again), Append(Plain(l), d));
            !d'.owes && d'.out == d.Settled() + (l + (" #" + again)) + "\n"
  {
  }

  /** A line with a comment at its end: it gets the comment a second time. */
  lemma InlineDiverges(l: string, again: string, body: string, d: Decoder, d': Decoder)
    requires OneLine(body) && OneLine(l) && OneLine(again) && Hashes(l) == Hashes(body)
    requires Extends(Append(Inline(again), Append(Plain(l), d)), d')
    ensures !(d.Settled() + body + "\n" <= d'.Settled())
  {
    var x := l + (" #" + again);
    OneHashMore(l, again, body);
    InlineAfterPlain(l, again, d);
    if d.Settled() + body + "\n" <= d'.Settled() {
      assert d.Settled() + x + "\n" <= d'.Settled();
      SameLine(d.Settled(), x, body, d'.Settled());
    }
  }

  /** A line that only loses the dropped key. */
  lemma KeyDiverges(l: string, body: string, d: Decoder, d': Decoder)
    requires OneLine(body) && OneLine(l) && |l| < |body| && Hashes(l) == Hashes(body)
    requires Extends(Append(Plain(l), d), d')
    ensures !(d.Settled() + body + "\n" <= d'.Settled())
  {
    if d.Settled() + body + "\n" <= d'.Settled() {
      var w := Finished(Append(Plain(l), d), d', d.Settled(), l, body);
      HashesInTwo(l, w);
      if w != "" {
        HashCounts(w);
      }
    }
  }

  /** How an unfaithful line that is not a comment is read. */
  lemma UnfaithfulRead(body: string, count: nat)
    requires !IsComment(body) && !Faithful(body)
    ensures var piece := Classify(body);
            piece.Plain? ==>
              && piece.text == Remove(body, GET_INPUT)
              && (InlineComment(body).None? ==> Contains(body, GET_INPUT))
    ensures InlineComment(body).Some? ==>
              Classify(InlineKey(Indent(body), count, InlineComment(body).value)) ==
                Inline(Remove(InlineComment(body).value, GET_INPUT))
  {
    if !Contains(body, GET_INPUT) {
      NothingToRemove(body, GET_INPUT);
    }
    if InlineComment(body).Some? {
      InlineKeyDrops(Indent(body), count, InlineComment(body).value);
      InlineRead(Indent(body), count, Remove(InlineComment(body).value, GET_INPUT));
    }
  }

  lemma OtherDiverges(body: string, count: nat, d: Decoder, d': Decoder)
    requires OneLine(body) && !Blank(body) && !IsComment(body) && !Faithful(body)
    requires Extends(DecodeLine(body, d), d')
    requires InlineComment(body).Some? ==>
               Extends(DecodeLine(InlineKey(Indent(body), count, InlineComment(body).value), DecodeLine(body, d)), d')
    ensures !(d.Settled() + body + "\n" <= d'.Settled())
  {
    var piece := Classify(body);
    PieceOnOneLine(body);
    UnfaithfulRead(body, count);
    RemoveKeepsHashes(body);
    if !piece.Plain? {
      ShapeDiverges(piece, body, d, d');
    } else if InlineComment(body).Some? {
      RemoveKeepsHashes(InlineComment(body).value);
      InlineDiverges(piece.text, Remove(InlineComment(body).value, GET_INPUT), body, d, d');
    } else {
      RemovingShortens(body, GET_INPUT);
      KeyDiverges(piece.text, body, d, d');
    }
  }

  /** Consuming the one or two lines that a line is encoded to. */
  lemma ConsumeBoth(lines: seq<string>, d: Decoder)
    ensures |lines| >= 1 ==> Consume(DecodeLine, lines, 1, d) == DecodeLine(lines[0], d)
    ensures |lines| >= 2 ==> Consume(DecodeLine, lines, 2, d) == DecodeLine(lines[1], DecodeLine(lines[0], d))
  {
    assert Consume(DecodeLine, lines, 0, d) == d;
  }

  lemma UnfaithfulComment(body: string, count: nat, d: Decoder, d': Decoder)
    requires OneLine(body) && IsComment(body) && !Blank(body) && !Faithful(body)
    requires Extends(DecodeLine(Encoded(body, count).0[0], d), d')
    ensures !(d.Settled() + body + "\n" <= d'.Settled())
  {
    CommentDiverges(body, count + 1, d, d');
  }

  lemma UnfaithfulOther(body: string, count: nat, d: Decoder, d': Decoder)
    requires OneLine(body) && !IsComment(body) && !Blank(body) && !Faithful(body)
    requires var e := Encoded(body, count).0;
             && Extends(DecodeLine(e[0], d), d')
             && (|e| == 2 ==> Extends(DecodeLine(e[1], DecodeLine(e[0], d)), d'))
    ensures !(d.Settled() + body + "\n" <= d'.Settled())
  {
    OtherDiverges(body, count + 1, d, d');
  }

  /** Whatever follows, an unfaithful line does not come back in its place. */
  lemma UnfaithfulDiverges(bodies: seq<string>, tail: string, n: nat)
    requires n < |bodies| && OneLineEach(bodies) && OneLine(tail) && !Blank(bodies[n]) && !Faithful(bodies[n])
    ensures !(Through(bodies, n).0.Settled() + bodies[n] + "\n" <= Finish(bodies, tail).Settled())
  {
    var body := bodies[n];
    var (d, count) := Through(bodies, n);
    var e := Encoded(body, count).0;
    ConsumeBoth(e, d);
    RestExtends(bodies, tail, n, 1);
    if |e| == 2 {
      RestExtends(bodies, tail, n, 2);
    }
    if IsComment(body) {
      UnfaithfulComment(body, count, d, Finish(bodies, tail));
    } else {
      UnfaithfulOther(body, count, d, Finish(bodies, tail));
    }
  }

  lemma FirstUnfaithful(bodies: seq<string>) returns (n: nat)
    requires !AllFaithful(bodies)
    ensures n < |bodies| && !Blank(bodies[n]) && !Faithful(bodies[n])
    ensures forall i :: 0 <= i < n && !Blank(bodies[i]) ==> Faithful(bodies[i])
  {
    var lost := (body: string) => !Blank(body) && !Faithful(body);
    var i :| 0 <= i < |bodies| && !Blank(bodies[i]) && !Faithful(bodies[i]);
    assert lost(bodies[i]);
    n := FirstThat(bodies, lost, 0);
    assert forall k :: 0 <= k < n ==> !lost(bodies[k]);
  }

  lemma PrefixFaithful(bodies: seq<string>, n: nat)
    requires n <= |bodies| && forall i :: 0 <= i < n && !Blank(bodies[i]) ==> Faithful(bodies[i])
    ensures AllFaithful(bodies[..n])
  {
    assert forall i :: 0 <= i < n ==> bodies[..n][i] == bodies[i];
  }

  lemma KeptAround(bodies: seq<string>, n: nat) returns (rest: string)
    requires n < |bodies| && !Blank(bodies[n])
    ensures Unlines(Kept(bodies)) == Unlines(Kept(bodies[..n])) + bodies[n] + "\n" + rest
  {
    var tail := [bodies[n]] + bodies[n + 1..];
    assert bodies == bodies[..n] + tail;
    KeptInTwo(bodies[..n], tail);
    assert tail[1..] == bodies[n + 1..];
    var k := [bodies[n]] + Kept(bodies[n + 1..]);
    UnlinesInTwo(Kept(bodies[..n]), k);
    assert k[1..] == Kept(bodies[n + 1..]);
    rest := Unlines(Kept(bodies[n + 1..]));
    assert Unlines(k) == bodies[n] + "\n" + rest;
  }
}
