/** Line-by-line passes over a text: a pass that emits lines, a pass that consumes them, and
    the two in one. */
module Passes {
  import opened Text

  /** Consume the first `n` lines. */
  function Consume<D>(step: (string, D) -> D, lines: seq<string>, n: nat, d: D): D
    requires n <= |lines|
  {
    if n == 0 then d else step(lines[n - 1], Consume(step, lines, n - 1, d))
  }

  /** Write out what a pass with a counter makes of the first `n` lines. */
  function Write(pass: (string, nat) -> (string, nat), lines: seq<string>, n: nat): (string, nat)
    requires n <= |lines|
  {
    if n == 0 then ("", 0) else
      var (out, count) := Write(pass, lines, n - 1);
      var (more, count') := pass(lines[n - 1], count);
      (out + more, count')
  }

  /** Later lines do not matter to what is written before them. */
  lemma {:induction false} SameWrite(pass: (string, nat) -> (string, nat), lines: seq<string>, lines': seq<string>, n: nat)
    requires n <= |lines| && lines <= lines'
    ensures Write(pass, lines', n) == Write(pass, lines, n)
  {
    if n > 0 {
      SameWrite(pass, lines, lines', n - 1);
    }
  }

  /** The same for a pass that emits whole lines. */
  function Emit(pass: (string, nat) -> (seq<string>, nat), bodies: seq<string>, n: nat): (seq<string>, nat)
    requires n <= |bodies|
  {
    if n == 0 then ([], 0) else
      var (out, count) := Emit(pass, bodies, n - 1);
      var (more, count') := pass(bodies[n - 1], count);
      (out + more, count')
  }

  /** Emitting and consuming one line at a time. */
  function Fused<D>(step: (string, D) -> D, pass: (string, nat) -> (seq<string>, nat), bodies: seq<string>, n: nat, d: D): (D, nat)
    requires n <= |bodies|
  {
    if n == 0 then (d, 0) else
      var (d', count) := Fused(step, pass, bodies, n - 1, d);
      var (more, count') := pass(bodies[n - 1], count);
      (Consume(step, more, |more|, d'), count')
  }

  lemma {:induction false} ConsumeInTwo<D>(step: (string, D) -> D, a: seq<string>, z: seq<string>, n: nat, d: D)
    requires n <= |a + z|
    ensures Consume(step, a + z, n, d) ==
              if n <= |a| then Consume(step, a, n, d) else Consume(step, z, n - |a|, Consume(step, a, |a|, d))
  {
    if n > 0 {
      ConsumeInTwo(step, a, z, n - 1, d);
      if n <= |a| {
        assert (a + z)[n - 1] == a[n - 1];
      } else {
        assert (a + z)[n - 1] == z[n - 1 - |a|];
      }
    }
  }

  lemma {:induction false} FusedIs<D>(step: (string, D) -> D, pass: (string, nat) -> (seq<string>, nat), bodies: seq<string>, n: nat, d: D)
    requires n <= |bodies|
    ensures var e := Emit(pass, bodies, n);
            Fused(step, pass, bodies, n, d) == (Consume(step, e.0, |e.0|, d), e.1)
  {
    if n > 0 {
      FusedIs(step, pass, bodies, n - 1, d);
      var (out, count) := Emit(pass, bodies, n - 1);
      var more := pass(bodies[n - 1], count).0;
      ConsumeInTwo(step, out, more, |out + more|, d);
    }
  }

  lemma ConsumeRest<D>(step: (string, D) -> D, lines: seq<string>, i: nat, d: D)
    requires i <= |lines|
    ensures Consume(step, lines, |lines|, d) == Consume(step, lines[i..], |lines| - i, Consume(step, lines, i, d))
  {
    assert lines == lines[..i] + lines[i..];
    ConsumeInTwo(step, lines[..i], lines[i..], |lines|, d);
    ConsumeInTwo(step, lines[..i], lines[i..], i, d);
  }

  /** What every step keeps, a pass keeps. */
  lemma {:induction false} ConsumeKeeps<D(!new)>(step: (string, D) -> D, inv: D -> bool, lines: seq<string>, n: nat, d: D)
    requires n <= |lines| && OneLineEach(lines) && inv(d)
    requires forall line, d' :: OneLine(line) && inv(d') ==> inv(step(line, d'))
    ensures inv(Consume(step, lines, n, d))
  {
    if n > 0 {
      ConsumeKeeps(step, inv, lines, n - 1, d);
    }
  }

  lemma {:induction false} FusedKeeps<D(!new)>(step: (string, D) -> D, pass: (string, nat) -> (seq<string>, nat), inv: D -> bool,
                                               bodies: seq<string>, m: nat, n: nat, d: D)
    requires m <= n <= |bodies| && OneLineEach(bodies) && inv(Fused(step, pass, bodies, m, d).0)
    requires forall line, d' :: OneLine(line) && inv(d') ==> inv(step(line, d'))
    requires forall body, count :: OneLine(body) ==> OneLineEach(pass(body, count).0)
    ensures inv(Fused(step, pass, bodies, n, d).0)
  {
    if m < n {
      FusedKeeps(step, pass, inv, bodies, m, n - 1, d);
      var (d', count) := Fused(step, pass, bodies, n - 1, d);
      var e := pass(bodies[n - 1], count).0;
      ConsumeKeeps(step, inv, e, |e|, d');
    }
  }

  lemma ConsumeOne<D>(step: (string, D) -> D, line: string, d: D)
    ensures Consume(step, [line], 1, d) == step(line, d)
  {
    assert Consume(step, [line], 0, d) == d;
  }

  /** Consuming all that is emitted, and some lines more. */
  lemma FusedAndMore<D>(step: (string, D) -> D, pass: (string, nat) -> (seq<string>, nat), bodies: seq<string>, more: seq<string>, d: D)
    ensures var e := Emit(pass, bodies, |bodies|).0 + more;
            Consume(step, e, |e|, d) == Consume(step, more, |more|, Fused(step, pass, bodies, |bodies|, d).0)
  {
    var e := Emit(pass, bodies, |bodies|).0;
    FusedIs(step, pass, bodies, |bodies|, d);
    ConsumeInTwo(step, e, more, |e| + |more|, d);
    if more == [] {
      assert e + more == e;
    }
  }

  /** The first element with a property. */
  lemma {:induction false} FirstThat<T>(s: seq<T>, p: T -> bool, from: nat) returns (n: nat)
    requires from <= |s| && (exists i :: 0 <= i < |s| && p(s[i])) && forall i :: 0 <= i < from ==> !p(s[i])
    ensures n < |s| && p(s[n]) && forall i :: 0 <= i < n ==> !p(s[i])
    decreases |s| - from
  {
    if p(s[from]) {
      n := from;
    } else {
      n := FirstThat(s, p, from + 1);
    }
  }

  /** What holds in the middle of what one line emits, and is kept, holds at the end. */
  lemma RestKeeps<D(!new)>(step: (string, D) -> D, pass: (string, nat) -> (seq<string>, nat), inv: D -> bool,
                           bodies: seq<string>, n: nat, i: nat, d: D)
    requires n < |bodies| && OneLineEach(bodies)
    requires forall line, d' :: OneLine(line) && inv(d') ==> inv(step(line, d'))
    requires forall body, count :: OneLine(body) ==> OneLineEach(pass(body, count).0)
    requires var (d', count) := Fused(step, pass, bodies, n, d);
             var e := pass(bodies[n], count).0;
             i <= |e| && inv(Consume(step, e, i, d'))
    ensures inv(Fused(step, pass, bodies, |bodies|, d).0)
  {
    var (d', count) := Fused(step, pass, bodies, n, d);
    var e := pass(bodies[n], count).0;
    assert OneLine(bodies[n]);
    ConsumeRest(step, e, i, d');
    ConsumeKeeps(step, inv, e[i..], |e| - i, Consume(step, e, i, d'));
    assert inv(Fused(step, pass, bodies, n + 1, d).0);
    FusedKeeps(step, pass, inv, bodies, n + 1, |bodies|, d);
  }

  predicate OneLine(s: string) {
    '\n' !in s
  }

  predicate OneLineEach(lines: seq<string>) {
    forall i :: 0 <= i < |lines| ==> OneLine(lines[i])
  }

  /** A pass on terminated lines writes what its counterpart on bare lines emits. */
  lemma {:induction false} WriteIsEmit(write: (string, nat) -> (string, nat), emit: (string, nat) -> (seq<string>, nat),
                                       bodies: seq<string>, lines: seq<string>, n: nat)
    requires n <= |bodies| <= |lines| && OneLineEach(bodies)
    requires forall i :: 0 <= i < |bodies| ==> lines[i] == bodies[i] + "\n"
    requires forall body, count :: OneLine(body) ==>
               write(body + "\n", count) == (Unlines(emit(body, count).0), emit(body, count).1) &&
               OneLineEach(emit(body, count).0)
    ensures Write(write, lines, n) == (Unlines(Emit(emit, bodies, n).0), Emit(emit, bodies, n).1)
    ensures OneLineEach(Emit(emit, bodies, n).0)
  {
    if n > 0 {
      WriteIsEmit(write, emit, bodies, lines, n - 1);
      var (out, count) := Emit(emit, bodies, n - 1);
      var more := emit(bodies[n - 1], count).0;
      assert OneLine(bodies[n - 1]);
      UnlinesInTwo(out, more);
    }
  }

  /** What a pass writes for whole lines and an unfinished one. */
  lemma WriteWithTail(write: (string, nat) -> (string, nat), emit: (string, nat) -> (seq<string>, nat),
                      bodies: seq<string>, tail: string, lines: seq<string>)
    requires OneLineEach(bodies) && |bodies| <= |lines|
    requires forall i :: 0 <= i < |bodies| ==> lines[i] == bodies[i] + "\n"
    requires if tail == "" then |lines| == |bodies| else |lines| == |bodies| + 1 && lines[|bodies|] == tail
    requires forall body, count :: OneLine(body) ==>
               write(body + "\n", count) == (Unlines(emit(body, count).0), emit(body, count).1) &&
               OneLineEach(emit(body, count).0)
    requires forall count: nat :: write("", count) == ("", count)
    ensures var (e, count) := Emit(emit, bodies, |bodies|);
            OneLineEach(e) && Write(write, lines, |lines|).0 == Unlines(e) + write(tail, count).0
  {
    WriteIsEmit(write, emit, bodies, lines, |bodies|);
    TailWritten(write, lines, |bodies|, tail);
  }

  lemma TailWritten(write: (string, nat) -> (string, nat), lines: seq<string>, n: nat, tail: string)
    requires if tail == "" then |lines| == n else |lines| == n + 1 && lines[n] == tail
    requires forall count: nat :: write("", count) == ("", count)
    ensures var (out, count) := Write(write, lines, n);
            Write(write, lines, |lines|).0 == out + write(tail, count).0
  {
    if tail == "" {
      var out := Write(write, lines, n).0;
      assert out + "" == out;
    }
  }

  lemma TerminatedLines(bodies: seq<string>, tail: string, lines: seq<string>)
    requires lines == Terminated(bodies) + if tail == "" then [] else [tail]
    ensures |bodies| <= |lines| && forall i :: 0 <= i < |bodies| ==> lines[i] == bodies[i] + "\n"
    ensures if tail == "" then |lines| == |bodies| else |lines| == |bodies| + 1 && lines[|bodies|] == tail
  {
    forall i | 0 <= i < |bodies|
      ensures lines[i] == bodies[i] + "\n"
    {
      assert lines[i] == Terminated(bodies)[i];
    }
  }

  /** Writing a text line by line and consuming the lines of what was written is one pass over
      the lines, up to what becomes of the unfinished one. */
  lemma Composed<D>(step: (string, D) -> D, write: (string, nat) -> (string, nat), emit: (string, nat) -> (seq<string>, nat),
                    text: string, start: D)
    requires forall body, count :: OneLine(body) ==>
               write(body + "\n", count) == (Unlines(emit(body, count).0), emit(body, count).1) &&
               OneLineEach(emit(body, count).0)
    requires forall count: nat :: write("", count) == ("", count)
    ensures var rows := Split(text);
            var n := |rows| - 1;
            var out := Split(Write(write, Lines(text), |Lines(text)|).0);
            var (d, count) := Fused(step, emit, rows[..n], n, start);
            var pieces := Split(write(rows[n], count).0);
            Consume(step, out, |out|, start) == Consume(step, pieces, |pieces|, d)
  {
    var rows := Split(text);
    var n := |rows| - 1;
    SplitIs(text);
    LinesAfter(rows[..n], rows[n]);
    TerminatedLines(rows[..n], rows[n], Lines(text));
    WriteWithTail(write, emit, rows[..n], rows[n], Lines(text));
    var (e, count) := Emit(emit, rows[..n], n);
    FusedIs(step, emit, rows[..n], n, start);
    SplitAfter(e, write(rows[n], count).0);
    FusedAndMore(step, emit, rows[..n], Split(write(rows[n], count).0), start);
  }
}
