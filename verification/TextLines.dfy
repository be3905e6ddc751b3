/** Cutting text into lines: where `str.splitlines` cuts, where a newline-delimited format does, and when
    the two agree. */
module TextLines {

  // ---------------------------------------------------------------------------------------
  // splitlines(keepends=True)
  // ---------------------------------------------------------------------------------------

  predicate IsBreak(c: char) {
    || c == '\n' || c == '\r' || c == '\U{0B}' || c == '\U{0C}' || c == '\U{1C}' || c == '\U{1D}' || c == '\U{1E}'
    || c == '\U{85}' || c == '\U{2028}' || c == '\U{2029}'
  }

  /** Where the first line of a non-empty text ends, terminator included. */
  function FirstLine(s: string): (n: nat)
    requires s != ""
    ensures 1 <= n <= |s|
  {
    if s[0] == '\r' && |s| > 1 && s[1] == '\n' then 2
    else if IsBreak(s[0]) || |s| == 1 then 1
    else 1 + FirstLine(s[1..])
  }

  function SplitLines(s: string): seq<string>
    decreases |s|
  {
    if s == "" then [] else [s[..FirstLine(s)]] + SplitLines(s[FirstLine(s)..])
  }

  function Concat(lines: seq<string>): string {
    if lines == [] then "" else lines[0] + Concat(lines[1..])
  }

  lemma {:induction false} SplitLinesConserves(s: string)
    ensures Concat(SplitLines(s)) == s
    decreases |s|
  {
    if s != "" {
      var n := FirstLine(s);
      SplitLinesConserves(s[n..]);
      assert SplitLines(s)[1..] == SplitLines(s[n..]);
      assert s[..n] + s[n..] == s;
    }
  }

  predicate EndsInBreak(line: string) {
    line != "" && IsBreak(line[|line| - 1])
  }

  predicate NoBreaks(s: string) {
    forall i :: 0 <= i < |s| ==> !IsBreak(s[i])
  }

  /** One line by itself, whatever text may follow it. */
  predicate IsLine(line: string) {
    line != "" && FirstLine(line) == |line|
  }

  /** Two lines that stay two when joined. */
  predicate Separated(a: string, b: string) {
    EndsInBreak(a) && !(a[|a| - 1] == '\r' && b != "" && b[0] == '\n')
  }

  ghost predicate WellSeparated(lines: seq<string>) {
    && (forall i :: 0 <= i < |lines| ==> IsLine(lines[i]))
    && (forall i :: 0 <= i < |lines| - 1 ==> Separated(lines[i], lines[i + 1]))
  }

  lemma {:induction false} FirstLineCut(s: string)
    requires s != ""
    ensures IsLine(s[..FirstLine(s)])
    ensures FirstLine(s) < |s| ==> Separated(s[..FirstLine(s)], s[FirstLine(s)..])
  {
    var n := FirstLine(s);
    if n == 2 && s[0] == '\r' && |s| > 1 && s[1] == '\n' {
      assert s[..2][1] == '\n';
    } else if !(IsBreak(s[0]) || |s| == 1) {
      FirstLineCut(s[1..]);
      assert s[..n][1..] == s[1..][..n - 1];
      assert s[n..] == s[1..][n - 1..];
      assert s[..n][|s[..n]| - 1] == s[1..][..n - 1][n - 2];
    }
  }

  lemma {:induction false} FirstLineOfJoin(line: string, rest: string)
    requires IsLine(line) && (rest != "" ==> Separated(line, rest))
    ensures FirstLine(line + rest) == |line|
  {
    var s := line + rest;
    if rest == "" {
      assert s == line;
    } else if |line| > 1 && !IsBreak(line[0]) {
      assert s[1..] == line[1..] + rest;
      FirstLineOfJoin(line[1..], rest);
    }
  }

  lemma SeparatedFromConcat(a: string, lines: seq<string>)
    requires lines != [] && lines[0] != "" && Separated(a, lines[0])
    ensures Separated(a, Concat(lines))
  {
    assert Concat(lines)[0] == lines[0][0];
  }

  /** Splitting gives well separated lines. */
  lemma {:induction false} SplitIsWellSeparated(s: string)
    ensures WellSeparated(SplitLines(s))
    decreases |s|
  {
    if s != "" {
      var n := FirstLine(s);
      var rest := SplitLines(s[n..]);
      FirstLineCut(s);
      SplitIsWellSeparated(s[n..]);
      SplitLinesConserves(s[n..]);
      var all := SplitLines(s);
      assert all == [s[..n]] + rest;
      if rest != [] {
        assert Concat(rest)[0] == rest[0][0];
        assert Separated(s[..n], rest[0]);
      }
      forall i | 0 <= i < |all| - 1 ensures Separated(all[i], all[i + 1]) {
        if i > 0 {
          assert Separated(rest[i - 1], rest[i]);
        }
      }
    }
  }

  /** Well separated lines are recovered by splitting their concatenation, and only those are. */
  lemma {:induction false} SplitRecovers(lines: seq<string>)
    ensures SplitLines(Concat(lines)) == lines <==> WellSeparated(lines)
  {
    if SplitLines(Concat(lines)) == lines {
      SplitIsWellSeparated(Concat(lines));
    }
    if WellSeparated(lines) && lines != [] {
      assert IsLine(lines[0]);
      forall i | 0 <= i < |lines[1..]| - 1 ensures Separated(lines[1..][i], lines[1..][i + 1]) {
        assert Separated(lines[i + 1], lines[i + 2]);
      }
      SplitRecovers(lines[1..]);
      var rest := Concat(lines[1..]);
      if |lines| > 1 {
        assert Separated(lines[0], lines[1]) && IsLine(lines[1]);
        SeparatedFromConcat(lines[0], lines[1..]);
      }
      FirstLineOfJoin(lines[0], rest);
      assert (lines[0] + rest)[..|lines[0]|] == lines[0] && (lines[0] + rest)[|lines[0]|..] == rest;
    }
  }

  lemma {:induction false} LoneLine(s: string)
    requires s != "" && NoBreaks(s)
    ensures IsLine(s) && IsLine(s + "\n")
  {
    if |s| > 1 {
      LoneLine(s[1..]);
      assert (s + "\n")[1..] == s[1..] + "\n";
    } else {
      assert (s + "\n")[1..] == "\n";
      assert FirstLine("\n") == 1;
    }
  }

  lemma SplitOne(s: string)
    requires s != "" && NoBreaks(s)
    ensures SplitLines(s) == [s]
  {
    LoneLine(s);
    assert s[|s|..] == "" && s[..|s|] == s;
  }

  lemma ConcatPair(a: string, b: string)
    ensures Concat([a, b]) == a + b
  {
    assert [a, b][1..] == [b];
    assert [b][1..] == [];
    assert Concat([b]) == b + Concat([]) == b;
  }

  lemma {:induction false} LineEndsAtBreak(s: string, b: char)
    requires s != "" && NoBreaks(s) && IsBreak(b)
    ensures IsLine(s + [b])
  {
    assert (s + [b])[1..] == s[1..] + [b];
    if |s| > 1 {
      LineEndsAtBreak(s[1..], b);
    } else {
      assert (s + [b])[1..] == [b] && FirstLine([b]) == 1;
    }
  }

  lemma SplitAtBreak(a: string, b: char, rest: string)
    requires a != "" && NoBreaks(a) && IsBreak(b) && IsLine(rest) && (b == '\r' ==> rest[0] != '\n')
    ensures SplitLines(a + [b] + rest) == [a + [b], rest]
  {
    LineEndsAtBreak(a, b);
    ConcatPair(a + [b], rest);
    SplitRecovers([a + [b], rest]);
  }

  /** The ten characters at which Python cuts, and no others. */
  lemma BreaksAre(c: char)
    ensures SplitLines(['a', c, 'b']) ==
            if c in {'\n', '\r', '\U{0B}', '\U{0C}', '\U{1C}', '\U{1D}', '\U{1E}', '\U{85}', '\U{2028}', '\U{2029}'}
            then [['a', c], ['b']] else [['a', c, 'b']]
  {
    if IsBreak(c) {
      LoneLine("b");
      assert "a" + [c] + "b" == ['a', c, 'b'] && "a" + [c] == ['a', c] && "b" == ['b'];
      SplitAtBreak("a", c, "b");
    } else {
      SplitOne(['a', c, 'b']);
    }
  }

  // ---------------------------------------------------------------------------------------
  // Lines ended by newlines only
  // ---------------------------------------------------------------------------------------

  /** Where the first line ends when only a newline ends a line, as in the JSON Lines format. */
  function FirstNewline(s: string): (n: nat)
    requires s != ""
    ensures 1 <= n <= |s|
  {
    if s[0] == '\n' || |s| == 1 then 1 else 1 + FirstNewline(s[1..])
  }

  function NewlineLines(s: string): seq<string>
    decreases |s|
  {
    if s == "" then [] else [s[..FirstNewline(s)]] + NewlineLines(s[FirstNewline(s)..])
  }

  predicate EndsInNewline(line: string) {
    line != "" && line[|line| - 1] == '\n'
  }

  predicate IsNewlineLine(line: string) {
    line != "" && FirstNewline(line) == |line|
  }

  /** Lines that are each one line, all but the last ended by a newline. */
  ghost predicate NewlineEnded(lines: seq<string>) {
    && (forall i :: 0 <= i < |lines| ==> IsNewlineLine(lines[i]))
    && (forall i :: 0 <= i < |lines| - 1 ==> EndsInNewline(lines[i]))
  }

  lemma {:induction false} FirstNewlineCut(s: string)
    requires s != ""
    ensures IsNewlineLine(s[..FirstNewline(s)])
    ensures FirstNewline(s) < |s| ==> EndsInNewline(s[..FirstNewline(s)])
  {
    if !(s[0] == '\n' || |s| == 1) {
      var n := FirstNewline(s);
      FirstNewlineCut(s[1..]);
      assert s[..n][1..] == s[1..][..n - 1];
      assert s[..n][|s[..n]| - 1] == s[1..][..n - 1][n - 2];
    }
  }

  lemma {:induction false} NewlineLinesEnded(s: string)
    ensures NewlineEnded(NewlineLines(s))
    decreases |s|
  {
    if s != "" {
      var n := FirstNewline(s);
      FirstNewlineCut(s);
      NewlineLinesEnded(s[n..]);
      var all, rest := NewlineLines(s), NewlineLines(s[n..]);
      assert all == [s[..n]] + rest;
      forall i | 0 <= i < |all| - 1 ensures EndsInNewline(all[i]) {
        if i > 0 { assert EndsInNewline(rest[i - 1]); }
      }
    }
  }

  lemma {:induction false} FirstNewlineOfJoin(line: string, rest: string)
    requires IsNewlineLine(line) && (rest != "" ==> EndsInNewline(line))
    ensures FirstNewline(line + rest) == |line|
  {
    if rest == "" {
      assert line + rest == line;
    } else if |line| > 1 {
      assert (line + rest)[1..] == line[1..] + rest;
      FirstNewlineOfJoin(line[1..], rest);
    }
  }

  lemma {:induction false} NewlineLinesRecover(lines: seq<string>)
    requires NewlineEnded(lines)
    ensures NewlineLines(Concat(lines)) == lines
  {
    if lines != [] {
      forall i | 0 <= i < |lines[1..]| - 1 ensures EndsInNewline(lines[1..][i]) {
        assert EndsInNewline(lines[i + 1]);
      }
      NewlineLinesRecover(lines[1..]);
      var rest := Concat(lines[1..]);
      assert |lines| > 1 ==> EndsInNewline(lines[0]);
      FirstNewlineOfJoin(lines[0], rest);
      assert (lines[0] + rest)[..|lines[0]|] == lines[0] && (lines[0] + rest)[|lines[0]|..] == rest;
    }
  }

  lemma {:induction false} LoneNewlineLine(s: string)
    requires s != "" && NoBreaks(s)
    ensures IsNewlineLine(s) && IsNewlineLine(s + "\n")
  {
    if |s| > 1 {
      LoneNewlineLine(s[1..]);
      assert (s + "\n")[1..] == s[1..] + "\n";
    } else {
      assert (s + "\n")[1..] == "\n";
      assert FirstNewline("\n") == 1;
    }
  }

  lemma {:induction false} WholeNewlineLine(d: string)
    requires d != "" && '\n' !in d
    ensures FirstNewline(d + "\n") == |d| + 1
  {
    assert (d + "\n")[1..] == d[1..] + "\n";
    if |d| > 1 {
      WholeNewlineLine(d[1..]);
    } else {
      assert (d + "\n")[1..] == "\n" && FirstNewline("\n") == 1;
    }
  }

  // ---------------------------------------------------------------------------------------
  // When the two agree
  // ---------------------------------------------------------------------------------------

  /** A break other than a newline stands here only as the last character, or as the return of a
      return and newline. */
  predicate PlainAt(s: string, i: nat)
    requires i < |s|
  {
    IsBreak(s[i]) && s[i] != '\n' ==> i == |s| - 1 || (s[i] == '\r' && s[i + 1] == '\n')
  }

  ghost predicate Plain(s: string) {
    forall i :: 0 <= i < |s| ==> PlainAt(s, i)
  }

  ghost predicate PlainUpTo(s: string, n: nat)
    requires n <= |s|
  {
    forall i :: 0 <= i < n ==> PlainAt(s, i)
  }

  lemma PlainTail(s: string, n: nat, i: nat)
    requires n <= |s| && i < |s| - n
    ensures PlainAt(s[n..], i) <==> PlainAt(s, n + i)
  {
  }

  lemma PlainUpToTail(s: string, n: nat)
    requires 1 <= n <= |s|
    ensures PlainUpTo(s, n) <==> PlainAt(s, 0) && PlainUpTo(s[1..], n - 1)
  {
    forall i | 0 <= i < n - 1 ensures PlainAt(s[1..], i) <==> PlainAt(s, i + 1) {
      PlainTail(s, 1, i);
    }
    if PlainAt(s, 0) && PlainUpTo(s[1..], n - 1) {
      forall i | 0 <= i < n ensures PlainAt(s, i) {
        if i > 0 { assert PlainAt(s[1..], i - 1); }
      }
    }
    if PlainUpTo(s, n) {
      forall i | 0 <= i < n - 1 ensures PlainAt(s[1..], i) {
        assert PlainAt(s, i + 1);
      }
    }
  }

  lemma PlainSplit(s: string, n: nat)
    requires n <= |s|
    ensures Plain(s) <==> PlainUpTo(s, n) && Plain(s[n..])
  {
    if Plain(s) {
      forall i | 0 <= i < |s[n..]| ensures PlainAt(s[n..], i) {
        PlainTail(s, n, i);
        assert PlainAt(s, n + i);
      }
    }
    if PlainUpTo(s, n) && Plain(s[n..]) {
      forall i | 0 <= i < |s| ensures PlainAt(s, i) {
        if n <= i {
          PlainTail(s, n, i - n);
          assert PlainAt(s[n..], i - n);
        }
      }
    }
  }

  lemma {:induction false} FirstCutsAgree(s: string)
    requires s != ""
    ensures FirstLine(s) == FirstNewline(s) <==> PlainUpTo(s, FirstNewline(s))
  {
    var n := FirstNewline(s);
    PlainUpToTail(s, n);
    if s[0] == '\r' && |s| > 1 && s[1] == '\n' {
      assert PlainAt(s[1..], 0);
    } else if !(IsBreak(s[0]) || |s| == 1) {
      FirstCutsAgree(s[1..]);
    } else if n > 1 {
      assert !PlainAt(s, 0);
    }
  }

  /** The code cuts a text where JSON Lines does, if and only if every other break in it is harmless. */
  lemma {:induction false} CutsAgree(s: string)
    ensures SplitLines(s) == NewlineLines(s) <==> Plain(s)
    decreases |s|
  {
    if s != "" {
      var n := FirstNewline(s);
      FirstCutsAgree(s);
      PlainSplit(s, n);
      CutsAgree(s[n..]);
      var split, cut := SplitLines(s), NewlineLines(s);
      assert split[0] == s[..FirstLine(s)] && cut[0] == s[..n];
      assert split[1..] == SplitLines(s[FirstLine(s)..]) && cut[1..] == NewlineLines(s[n..]);
      assert split == cut <==> split[0] == cut[0] && split[1..] == cut[1..] by {
        assert split == [split[0]] + split[1..] && cut == [cut[0]] + cut[1..];
      }
    }
  }

  // ---------------------------------------------------------------------------------------
  // Each line by itself
  // ---------------------------------------------------------------------------------------

  lemma {:induction false} ConcatAppend(x: seq<string>, y: seq<string>)
    ensures Concat(x + y) == Concat(x) + Concat(y)
  {
    if x == [] {
      assert x + y == y;
    } else {
      ConcatAppend(x[1..], y);
      assert (x + y)[1..] == x[1..] + y && (x + y)[0] == x[0];
      assert x[0] + (Concat(x[1..]) + Concat(y)) == x[0] + Concat(x[1..]) + Concat(y);
    }
  }

  lemma {:induction false} LastEndsInNewline(s: string)
    requires EndsInNewline(s)
    ensures SplitLines(s) != [] && EndsInNewline(SplitLines(s)[|SplitLines(s)| - 1])
    decreases |s|
  {
    var n := FirstLine(s);
    if n < |s| {
      LastEndsInNewline(s[n..]);
    } else {
      assert s[n..] == "" && s[..n] == s;
    }
  }

  lemma WellSeparatedAppend(x: seq<string>, y: seq<string>)
    requires WellSeparated(x) && WellSeparated(y) && x != [] && EndsInNewline(x[|x| - 1])
    ensures WellSeparated(x + y)
  {
    var all := x + y;
    forall i | 0 <= i < |all| ensures IsLine(all[i]) {
      assert if i < |x| then IsLine(x[i]) else IsLine(y[i - |x|]);
    }
    forall i | 0 <= i < |all| - 1 ensures Separated(all[i], all[i + 1]) {
      assert if i < |x| - 1 then Separated(x[i], x[i + 1])
             else if i < |x| then EndsInNewline(all[i])
             else Separated(y[i - |x|], y[i - |x| + 1]);
    }
  }

  /** What comes after a newline is cut by itself. */
  lemma SplitAfterNewline(a: string, b: string)
    requires EndsInNewline(a)
    ensures SplitLines(a + b) == SplitLines(a) + SplitLines(b)
  {
    var x, y := SplitLines(a), SplitLines(b);
    SplitIsWellSeparated(a);
    SplitIsWellSeparated(b);
    SplitLinesConserves(a);
    SplitLinesConserves(b);
    ConcatAppend(x, y);
    LastEndsInNewline(a);
    WellSeparatedAppend(x, y);
    SplitRecovers(x + y);
  }

  function SplitAll(lines: seq<string>): seq<string> {
    if lines == [] then [] else SplitLines(lines[0]) + SplitAll(lines[1..])
  }

  /** The code cuts each line of a JSON Lines file by itself, */
  lemma {:induction false} CutsEachLine(raw: string)
    ensures SplitLines(raw) == SplitAll(NewlineLines(raw))
    decreases |raw|
  {
    if raw != "" {
      var n := FirstNewline(raw);
      var head, tail := raw[..n], raw[n..];
      assert raw == head + tail;
      assert NewlineLines(raw)[1..] == NewlineLines(tail);
      FirstNewlineCut(raw);
      CutsEachLine(tail);
      if tail == "" {
        assert head == raw && SplitLines(head) + [] == SplitLines(head);
      } else {
        SplitAfterNewline(head, tail);
      }
    }
  }

  lemma {:induction false} SplitAllHas(lines: seq<string>, line: string, piece: string)
    requires line in lines && piece in SplitLines(line)
    ensures piece in SplitAll(lines)
  {
    if line != lines[0] {
      SplitAllHas(lines[1..], line, piece);
    }
  }

  /** and keeps it whole if and only if its own breaks are harmless. */
  lemma LineIsKeptWhole(raw: string, line: string)
    requires line in NewlineLines(raw)
    ensures SplitLines(line) == [line] <==> Plain(line)
  {
    NewlineLinesEnded(raw);
    assert IsNewlineLine(line);
    assert line[|line|..] == "" && line[..|line|] == line;
    assert NewlineLines(line) == [line];
    CutsAgree(line);
  }
}
