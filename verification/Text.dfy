/** Strings as the scripts use them: lines, indents and decimal numbers. */
module Text {
  import opened Wrappers

  /** Reading a file line by line: each line but perhaps the last ends in a newline. */
  function Lines(text: string): (r: seq<string>)
    ensures forall i :: 0 <= i < |r| ==> r[i] != ""
  {
    if text == "" then [] else
      var i := Find(text, '\n');
      if i == |text| then [text] else [text[..i + 1]] + Lines(text[i + 1..])
  }

  /** Splitting at newlines. */
  function Split(text: string): (r: seq<string>)
    ensures r != []
  {
    var i := Find(text, '\n');
    if i == |text| then [text] else [text[..i]] + Split(text[i + 1..])
  }

  /** The first position of a character, or the length. */
  function Find(s: string, c: char): (i: nat)
    ensures i <= |s| && c !in s[..i] && (i < |s| ==> s[i] == c)
  {
    if s == "" then 0
    else if s[0] == c then 0
    else
      var i := Find(s[1..], c) + 1;
      assert s[..i] == [s[0]] + s[1..][..i - 1];
      i
  }

  /** The last position of a character, if any. */
  function FindLast(s: string, c: char): (r: Option<nat>)
    ensures r.Some? ==> r.value < |s| && s[r.value] == c && c !in s[r.value + 1..]
    ensures r.None? ==> c !in s
  {
    if s == "" then None
    else if s[|s| - 1] == c then Some(|s| - 1)
    else
      var r := FindLast(s[..|s| - 1], c);
      assert s == s[..|s| - 1] + [s[|s| - 1]];
      assert r.Some? ==> s[r.value + 1..] == s[..|s| - 1][r.value + 1..] + [s[|s| - 1]];
      r
  }

  predicate IsSpaceChar(c: char) {
    c == ' ' || '\t' <= c <= '\r'
  }

  /** Only white space, and not empty. */
  predicate IsSpace(s: string) {
    s != "" && forall i :: 0 <= i < |s| ==> IsSpaceChar(s[i])
  }

  /** The number of leading spaces. */
  function Indent(s: string): (k: nat)
    ensures k <= |s| && (k < |s| ==> s[k] != ' ') && forall i :: 0 <= i < k ==> s[i] == ' '
  {
    if s != "" && s[0] == ' ' then Indent(s[1..]) + 1 else 0
  }

  function Spaces(k: nat): (s: string)
    ensures |s| == k && forall i :: 0 <= i < k ==> s[i] == ' '
  {
    seq(k, _ => ' ')
  }

  lemma OneMoreSpace(s: string, k: nat)
    ensures s + Spaces(k) + " " == s + Spaces(k + 1)
  {
  }

  predicate IsDigit(c: char) {
    '0' <= c <= '9'
  }

  /** The number of leading digits. */
  function Digits(s: string): (k: nat)
    ensures k <= |s| && (k < |s| ==> !IsDigit(s[k])) && forall i :: 0 <= i < k ==> IsDigit(s[i])
  {
    if s != "" && IsDigit(s[0]) then Digits(s[1..]) + 1 else 0
  }

  /** A number in decimal. */
  function Dec(n: nat): (s: string)
    ensures s != "" && forall i :: 0 <= i < |s| ==> IsDigit(s[i])
  {
    if n < 10 then ['0' + n as char] else Dec(n / 10) + ['0' + (n % 10) as char]
  }

  function ParseDec(s: string): nat
    requires forall i :: 0 <= i < |s| ==> IsDigit(s[i])
  {
    if s == "" then 0 else
      assert IsDigit(s[|s| - 1]);
      10 * ParseDec(s[..|s| - 1]) + (s[|s| - 1] as int - '0' as int)
  }

  lemma {:induction false} ParsePrinted(n: nat)
    ensures ParseDec(Dec(n)) == n
  {
    var s := Dec(n);
    if n >= 10 {
      ParsePrinted(n / 10);
      assert s[..|s| - 1] == Dec(n / 10);
    } else {
      assert s[..0] == "";
    }
  }

  /** Removing every occurrence of a pattern, from left to right. */
  function Remove(s: string, pattern: string): string
    requires pattern != ""
  {
    if |s| < |pattern| then s
    else if pattern <= s then Remove(s[|pattern|..], pattern)
    else [s[0]] + Remove(s[1..], pattern)
  }

  predicate Contains(s: string, pattern: string) {
    exists i :: 0 <= i <= |s| && pattern <= s[i..]
  }

  lemma {:induction false} NothingToRemove(s: string, pattern: string)
    requires pattern != "" && !Contains(s, pattern)
    ensures Remove(s, pattern) == s
  {
    if |s| >= |pattern| {
      assert s[0..] == s;
      assert forall i :: 0 <= i <= |s[1..]| ==> s[1..][i..] == s[i + 1..];
      NothingToRemove(s[1..], pattern);
    }
  }

  lemma {:induction false} RemovingShortens(s: string, pattern: string)
    requires pattern != ""
    ensures |Remove(s, pattern)| <= |s|
    ensures Contains(s, pattern) ==> |Remove(s, pattern)| < |s|
  {
    if |s| >= |pattern| {
      if pattern <= s {
        RemovingShortens(s[|pattern|..], pattern);
      } else {
        RemovingShortens(s[1..], pattern);
        if i :| 0 <= i <= |s| && pattern <= s[i..] {
          assert s[i..] == s[1..][i - 1..];
        }
      }
    }
  }

  /** Strings with a separator between them. */
  function Join(separator: string, parts: seq<string>): string {
    if parts == [] then ""
    else if |parts| == 1 then parts[0]
    else Join(separator, parts[..|parts| - 1]) + separator + parts[|parts| - 1]
  }

  // ---------- texts as lists of lines ----------

  function Unlines(bodies: seq<string>): string {
    if bodies == [] then "" else bodies[0] + "\n" + Unlines(bodies[1..])
  }

  lemma {:induction false} UnlinesInTwo(a: seq<string>, z: seq<string>)
    ensures Unlines(a + z) == Unlines(a) + Unlines(z)
  {
    if a == [] {
      assert a + z == z;
    } else {
      assert (a + z)[1..] == a[1..] + z;
      UnlinesInTwo(a[1..], z);
    }
  }

  lemma FindAt(a: string, rest: string)
    requires '\n' !in a
    ensures Find(a + "\n" + rest, '\n') == |a|
  {
    var s := a + "\n" + rest;
    assert s[|a|] == '\n' && forall j :: 0 <= j < |a| ==> s[j] == a[j];
    assert forall i :: |a| < i <= |s| ==> s[..i][|a|] == '\n';
  }

  lemma SplitStep(body: string, rest: string)
    requires '\n' !in body
    ensures Split(body + "\n" + rest) == [body] + Split(rest)
    ensures Lines(body + "\n" + rest) == [body + "\n"] + Lines(rest)
  {
    var s := body + "\n" + rest;
    FindAt(body, rest);
    assert s[..|body|] == body && s[..|body| + 1] == body + "\n";
    assert s[|body| + 1..] == rest;
  }

  lemma UnlinesStep(bodies: seq<string>, rest: string)
    requires bodies != []
    ensures Unlines(bodies) + rest == bodies[0] + "\n" + (Unlines(bodies[1..]) + rest)
  {
  }

  lemma SplitCons(bodies: seq<string>, more: string, pieces: seq<string>)
    requires bodies != [] && '\n' !in bodies[0] && Split(more) == bodies[1..] + pieces
    ensures Split(bodies[0] + "\n" + more) == bodies + pieces
  {
    SplitStep(bodies[0], more);
    assert bodies == [bodies[0]] + bodies[1..];
  }

  /** Splitting whole lines and what comes after them. */
  lemma {:induction false} SplitAfter(bodies: seq<string>, rest: string)
    requires forall i :: 0 <= i < |bodies| ==> '\n' !in bodies[i]
    ensures Split(Unlines(bodies) + rest) == bodies + Split(rest)
  {
    if bodies == [] {
      assert Unlines(bodies) + rest == rest;
      assert bodies + Split(rest) == Split(rest);
    } else {
      SplitAfter(bodies[1..], rest);
      SplitCons(bodies, Unlines(bodies[1..]) + rest, Split(rest));
      UnlinesStep(bodies, rest);
    }
  }

  function Terminated(bodies: seq<string>): seq<string> {
    seq(|bodies|, i requires 0 <= i < |bodies| => bodies[i] + "\n")
  }

  lemma OneLeft(tail: string)
    requires '\n' !in tail
    ensures Find(tail, '\n') == |tail|
    ensures Split(tail) == [tail] && Lines(tail) == if tail == "" then [] else [tail]
  {
  }

  /** Reading whole lines and an unfinished one. */
  lemma {:induction false} LinesAfter(bodies: seq<string>, tail: string)
    requires (forall i :: 0 <= i < |bodies| ==> '\n' !in bodies[i]) && '\n' !in tail
    ensures Lines(Unlines(bodies) + tail) == Terminated(bodies) + if tail == "" then [] else [tail]
  {
    if bodies == [] {
      assert Unlines(bodies) + tail == tail;
      OneLeft(tail);
    } else {
      UnlinesStep(bodies, tail);
      SplitStep(bodies[0], Unlines(bodies[1..]) + tail);
      LinesAfter(bodies[1..], tail);
      assert Terminated(bodies) == [bodies[0] + "\n"] + Terminated(bodies[1..]);
    }
  }

  /** These rows make up the text. */
  predicate AreRows(rows: seq<string>, text: string) {
    && rows != []
    && Unlines(rows[..|rows| - 1]) + rows[|rows| - 1] == text
    && forall i :: 0 <= i < |rows| ==> '\n' !in rows[i]
  }

  /** A text is its whole lines and what comes after the last newline. */
  lemma {:induction false} SplitIs(text: string)
    ensures AreRows(Split(text), text)
  {
    var i := Find(text, '\n');
    if i < |text| {
      var body, rest := text[..i], text[i + 1..];
      assert text == body + "\n" + rest;
      SplitStep(body, rest);
      SplitIs(rest);
      RowBefore(body, Split(rest), rest);
    } else {
      assert text[..i] == text;
      OneRow(text);
    }
  }

  lemma OneRow(text: string)
    requires '\n' !in text
    ensures Split(text) == [text] && AreRows([text], text)
  {
    OneLeft(text);
    assert [text][..0] == [] && Unlines([]) + text == text;
  }

  lemma RowBefore(body: string, rows: seq<string>, text: string)
    requires AreRows(rows, text) && '\n' !in body
    ensures AreRows([body] + rows, body + "\n" + text)
  {
    var all, n := [body] + rows, |rows| - 1;
    UnlinesStep(all[..n + 1], rows[n]);
    assert all[..n + 1][1..] == rows[..n];
  }
}
