/** Redacting a JSON Lines file: one document per line, lines cut where `str.splitlines` cuts them.

    The JSON text format itself is a pair of functions, `parse` and `dump`. */
module JsonLines {
  import opened Wrappers
  import opened TextLines
  import opened SecretRedaction

  // ---------------------------------------------------------------------------------------
  // Redacting line by line
  // ---------------------------------------------------------------------------------------

  predicate IsSpace(c: char) {
    || IsBreak(c) || c == ' ' || c == '\t' || c == '\U{1F}' || c == '\U{A0}' || c == '\U{1680}'
    || '\U{2000}' <= c <= '\U{200A}' || c == '\U{202F}' || c == '\U{205F}' || c == '\U{3000}'
  }

  function TrimLeft(s: string): string {
    if s != "" && IsSpace(s[0]) then TrimLeft(s[1..]) else s
  }

  function TrimRight(s: string): string {
    if s != "" && IsSpace(s[|s| - 1]) then TrimRight(s[..|s| - 1]) else s
  }

  /** `line.strip()`. */
  function Strip(s: string): string {
    TrimLeft(TrimRight(s))
  }

  datatype Codec = Codec(parse: string -> Option<Json>, dump: Json -> string)

  /** What `json.dumps` and `json.loads` promise each other: a document prints on one line and reads
      back as itself, with or without a newline after it. */
  ghost predicate Prints(c: Codec, j: Json) {
    && c.dump(j) != "" && NoBreaks(c.dump(j))
    && c.parse(Strip(c.dump(j))) == Some(j) && c.parse(Strip(c.dump(j) + "\n")) == Some(j)
    && Strip(c.dump(j)) != "" && Strip(c.dump(j) + "\n") != ""
  }

  /** Asked only of the values the code prints: redacted documents that were read from text. */
  ghost predicate PrintsRedacted(c: Codec, text: string) {
    c.parse(text).Some? ==> Prints(c, Redact(c.parse(text).value))
  }

  ghost predicate Faithful(c: Codec) {
    forall text :: PrintsRedacted(c, text)
  }

  function Document(c: Codec, line: string): Option<Json> {
    if Strip(line) == "" then None else c.parse(Strip(line))
  }

  /** Blank and unparsable lines are kept verbatim; a document is printed anew, and only a newline
      survives as its terminator. */
  function RedactLine(c: Codec, line: string): string {
    match Document(c, line)
    case None => line
    case Some(j) => c.dump(Redact(j)) + if line != "" && line[|line| - 1] == '\n' then "\n" else ""
  }

  function RedactLines(c: Codec, lines: seq<string>): (r: seq<string>)
    ensures |r| == |lines|
  {
    seq(|lines|, i requires 0 <= i < |lines| => RedactLine(c, lines[i]))
  }

  predicate LineIsClean(c: Codec, line: string) {
    var d := Document(c, line);
    d.Some? ==> Clean(d.value)
  }

  ghost predicate AllClean(c: Codec, lines: seq<string>) {
    forall line :: line in lines ==> LineIsClean(c, line)
  }

  lemma AllCleanSnoc(c: Codec, lines: seq<string>, i: nat)
    requires i < |lines|
    ensures AllClean(c, lines[..i + 1]) <==> AllClean(c, lines[..i]) && LineIsClean(c, lines[i])
  {
    assert lines[..i + 1] == lines[..i] + [lines[i]];
    if AllClean(c, lines[..i + 1]) {
      assert lines[i] in lines[..i + 1];
      forall line | line in lines[..i] ensures LineIsClean(c, line) {
        assert line in lines[..i + 1];
      }
    }
  }

  /** One round of its loop. */
  method RedactOne(c: Codec, line: string) returns (r: string, changed: bool)
    ensures r == RedactLine(c, line)
    ensures changed <==> !LineIsClean(c, line)
  {
    var stripped := Strip(line);
    if stripped == "" {
      return line, false;
    }
    var parsed := c.parse(stripped);
    if parsed.None? {
      return line, false;
    }
    var obj, dirty := RedactDocument(parsed.value);
    var newline := if line[|line| - 1] == '\n' then "\n" else "";
    return c.dump(obj) + newline, dirty;
  }

  /** `redacted_json_bytes` for a `.jsonl` file, on decoded text: nothing when no line holds a
      secret, else all lines redacted. */
  method RedactedJsonLines(c: Codec, raw: string) returns (r: Option<string>)
    ensures r.None? <==> AllClean(c, SplitLines(raw))
    ensures r.Some? ==> r.value == Concat(RedactLines(c, SplitLines(raw)))
    ensures Plain(raw) && r.None? ==> AllClean(c, NewlineLines(raw))
    ensures Plain(raw) && r.Some? ==> !AllClean(c, NewlineLines(raw)) && r.value == NewlineRedaction(c, raw)
  {
    var lines := SplitLines(raw);
    var changed := false;
    var out: seq<string> := [];
    for i := 0 to |lines|
      invariant |out| == i && forall k :: 0 <= k < i ==> out[k] == RedactLine(c, lines[k])
      invariant !changed <==> AllClean(c, lines[..i])
    {
      AllCleanSnoc(c, lines, i);
      var line, dirty := RedactOne(c, lines[i]);
      changed := changed || dirty;
      out := out + [line];
    }
    assert out == RedactLines(c, lines) && lines[..|lines|] == lines;
    r := if changed then Some(Concat(out)) else None;
    CutsAgree(raw);
  }

  // ---------------------------------------------------------------------------------------
  // When the lines of the result are the redacted lines
  // ---------------------------------------------------------------------------------------

  /** Every document but the last is terminated by a newline, rather than by one of the other
      characters at which Python cuts lines. */
  ghost predicate NewlineSeparated(c: Codec, lines: seq<string>) {
    forall i :: 0 <= i < |lines| - 1 ==> Terminated(c, lines[i])
  }

  predicate Terminated(c: Codec, line: string) {
    Document(c, line).Some? ==> line != "" && line[|line| - 1] == '\n'
  }

  lemma RedactedIsLine(c: Codec, line: string)
    requires Faithful(c) && IsLine(line)
    ensures IsLine(RedactLine(c, line))
  {
    if Document(c, line).Some? {
      var d := c.dump(Redact(Document(c, line).value));
      assert PrintsRedacted(c, Strip(line));
      LoneLine(d);
      assert d + "" == d;
    }
  }

  lemma RedactedSeparated(c: Codec, a: string, b: string)
    requires Faithful(c) && IsLine(a) && IsLine(b) && Separated(a, b)
    ensures Separated(RedactLine(c, a), RedactLine(c, b)) <==> Terminated(c, a)
  {
    var a', b' := RedactLine(c, a), RedactLine(c, b);
    if Document(c, a).Some? {
      var d := c.dump(Redact(Document(c, a).value));
      assert PrintsRedacted(c, Strip(a));
      assert !IsBreak(d[|d| - 1]);
    }
    if Document(c, b).Some? {
      var d := c.dump(Redact(Document(c, b).value));
      assert PrintsRedacted(c, Strip(b));
      assert b'[0] == d[0] && !IsBreak(d[0]);
    }
  }

  lemma RedactedNeighbours(c: Codec, lines: seq<string>, i: nat)
    requires Faithful(c) && WellSeparated(lines) && i < |lines|
    ensures IsLine(RedactLines(c, lines)[i])
    ensures i + 1 < |lines| ==>
              (Separated(RedactLines(c, lines)[i], RedactLines(c, lines)[i + 1]) <==> Terminated(c, lines[i]))
  {
    assert IsLine(lines[i]);
    RedactedIsLine(c, lines[i]);
    if i + 1 < |lines| {
      assert IsLine(lines[i + 1]) && Separated(lines[i], lines[i + 1]);
      RedactedSeparated(c, lines[i], lines[i + 1]);
    }
  }

  lemma RedactedLinesSeparated(c: Codec, lines: seq<string>)
    requires Faithful(c) && WellSeparated(lines)
    ensures WellSeparated(RedactLines(c, lines)) <==> NewlineSeparated(c, lines)
  {
    var out := RedactLines(c, lines);
    forall i | 0 <= i < |lines| ensures IsLine(out[i]) {
      RedactedNeighbours(c, lines, i);
    }
    if NewlineSeparated(c, lines) {
      forall i | 0 <= i < |out| - 1 ensures Separated(out[i], out[i + 1]) {
        RedactedNeighbours(c, lines, i);
      }
    }
    if WellSeparated(out) {
      forall i | 0 <= i < |lines| - 1 ensures Terminated(c, lines[i]) {
        assert Separated(out[i], out[i + 1]);
        RedactedNeighbours(c, lines, i);
      }
    }
  }

  /** The lines of the result are the redacted lines of the input if and only if every document but
      the last was terminated by a newline; otherwise neighbouring documents run together. */
  lemma ResultIsLineByLine(c: Codec, raw: string)
    requires Faithful(c)
    ensures SplitLines(Concat(RedactLines(c, SplitLines(raw)))) == RedactLines(c, SplitLines(raw))
       <==> NewlineSeparated(c, SplitLines(raw))
  {
    SplitIsWellSeparated(raw);
    RedactedLinesSeparated(c, SplitLines(raw));
    SplitRecovers(RedactLines(c, SplitLines(raw)));
  }

  predicate Trimmed(d: string) {
    d != "" && !IsSpace(d[0]) && !IsSpace(d[|d| - 1])
  }

  predicate Compact(d: string) {
    Trimmed(d) && NoBreaks(d)
  }

  lemma StripTrimmed(d: string, e: string)
    requires Trimmed(d) && (e == "" || (|e| == 1 && IsSpace(e[0])))
    ensures Strip(d + e) == d
  {
    assert e == "" ==> d + e == d;
    assert e != "" ==> (d + e)[..|d + e| - 1] == d;
    assert TrimRight(d + e) == d;
  }

  lemma RedactLast(c: Codec, d: string, e: string)
    requires Compact(d) && c.parse(d).Some? && (e == "" || e == "\r")
    ensures Document(c, d + e) == c.parse(d) && RedactLine(c, d + e) == c.dump(Redact(c.parse(d).value))
  {
    StripTrimmed(d, e);
    var p := c.dump(Redact(c.parse(d).value));
    assert p + "" == p;
    assert (d + e)[|d + e| - 1] != '\n';
  }

  /** Two documents with a carriage return between them are two lines, and come out as one. */
  lemma CarriageReturnJoins(c: Codec, d1: string, d2: string)
    requires Faithful(c) && Compact(d1) && Compact(d2) && c.parse(d1).Some? && c.parse(d2).Some?
    ensures SplitLines(d1 + "\r" + d2) == [d1 + "\r", d2]
    ensures |SplitLines(Concat(RedactLines(c, [d1 + "\r", d2])))| == 1
    ensures LineIsClean(c, d1 + "\r") <==> Clean(c.parse(d1).value)
  {
    var p1, p2 := c.dump(Redact(c.parse(d1).value)), c.dump(Redact(c.parse(d2).value));
    LoneLine(d2);
    SplitAtBreak(d1, '\r', d2);
    RedactLast(c, d1, "\r");
    RedactLast(c, d2, "");
    assert d2 + "" == d2;
    assert RedactLines(c, [d1 + "\r", d2]) == [p1, p2];
    ConcatPair(p1, p2);
    assert PrintsRedacted(c, d1) && PrintsRedacted(c, d2);
    SplitOne(p1 + p2);
  }

  const SECRET_DOCUMENT: string := "{\"api_key\": \"k\"}"

  /** A file at which the property fails: it holds a secret, so it is rewritten, and its second document
      ends up on the line of the first. */
  lemma ReturnTerminatedFile(c: Codec)
    requires Faithful(c)
    requires c.parse(SECRET_DOCUMENT) == Some(Object([Member("api_key", String("k"))]))
    requires c.parse("1") == Some(Number("1"))
    ensures var lines := SplitLines(SECRET_DOCUMENT + "\r" + "1");
            && !AllClean(c, lines)
            && SplitLines(Concat(RedactLines(c, lines))) != RedactLines(c, lines)
  {
    CarriageReturnJoins(c, SECRET_DOCUMENT, "1");
    var j := Object([Member("api_key", String("k"))]);
    assert IsSecret(ChildKey(j, 0), Child(j, 0));
    assert [SECRET_DOCUMENT + "\r", "1"][0] in [SECRET_DOCUMENT + "\r", "1"];
  }

  lemma RedactedLineIsClean(c: Codec, line: string)
    requires Faithful(c)
    ensures LineIsClean(c, RedactLine(c, line))
  {
    if Document(c, line).Some? {
      var j := Document(c, line).value;
      RedactIsClean(j);
      assert PrintsRedacted(c, Strip(line));
      var d := c.dump(Redact(j));
      assert d + "" == d;
    }
  }

  /** A second pass over a redacted file finds nothing to redact. */
  lemma SecondPassFindsNothing(c: Codec, raw: string)
    requires Faithful(c) && NewlineSeparated(c, SplitLines(raw))
    ensures AllClean(c, SplitLines(Concat(RedactLines(c, SplitLines(raw)))))
  {
    ResultIsLineByLine(c, raw);
    forall i | 0 <= i < |SplitLines(raw)| ensures LineIsClean(c, RedactLines(c, SplitLines(raw))[i]) {
      RedactedLineIsClean(c, SplitLines(raw)[i]);
    }
  }

  // ---------------------------------------------------------------------------------------
  // Documents separated by newlines
  // ---------------------------------------------------------------------------------------

  lemma RedactedNewlineLine(c: Codec, line: string)
    requires Faithful(c) && IsNewlineLine(line)
    ensures IsNewlineLine(RedactLine(c, line)) && (EndsInNewline(line) ==> EndsInNewline(RedactLine(c, line)))
  {
    if Document(c, line).Some? {
      var d := c.dump(Redact(Document(c, line).value));
      assert PrintsRedacted(c, Strip(line));
      LoneNewlineLine(d);
      assert d + "" == d;
    }
  }

  /** One line of the result: the same line if it is blank or does not parse, else a line that reads as the
      redacted document, ended by a newline if the line was. */
  lemma RedactedLineReads(c: Codec, line: string)
    requires Faithful(c)
    ensures Strip(line) == "" || c.parse(Strip(line)).None? ==> RedactLine(c, line) == line
    ensures Strip(line) != "" && c.parse(Strip(line)).Some? ==>
              && RedactLine(c, line) != ""
              && (RedactLine(c, line)[|RedactLine(c, line)| - 1] == '\n' <==> line != "" && line[|line| - 1] == '\n')
              && c.parse(Strip(RedactLine(c, line))) == Some(Redact(c.parse(Strip(line)).value))
  {
    if Document(c, line).Some? {
      assert PrintsRedacted(c, Strip(line));
      var d := c.dump(Redact(c.parse(Strip(line)).value));
      assert d + "" == d;
    }
  }

  /** What redaction of a JSON Lines file is meant to be. */
  function NewlineRedaction(c: Codec, raw: string): string {
    Concat(RedactLines(c, NewlineLines(raw)))
  }

  /** For every text, its lines are the redacted lines, none of which has anything left to redact. */
  lemma NewlineRedactionIsLineByLine(c: Codec, raw: string)
    requires Faithful(c)
    ensures NewlineLines(NewlineRedaction(c, raw)) == RedactLines(c, NewlineLines(raw))
    ensures AllClean(c, NewlineLines(NewlineRedaction(c, raw)))
  {
    var lines := NewlineLines(raw);
    var out := RedactLines(c, lines);
    NewlineLinesEnded(raw);
    forall i | 0 <= i < |lines| ensures IsNewlineLine(out[i]) && LineIsClean(c, out[i]) {
      RedactedNewlineLine(c, lines[i]);
      RedactedLineIsClean(c, lines[i]);
    }
    forall i | 0 <= i < |lines| - 1 ensures EndsInNewline(out[i]) {
      assert EndsInNewline(lines[i]);
      RedactedNewlineLine(c, lines[i]);
    }
    NewlineLinesRecover(out);
  }

  /** On a text whose other breaks are harmless, the code does just that: it finds a secret if and only
      if a line of the file has one, what it writes is the redaction meant, and that has again only
      harmless breaks and no secret that the code would find. */
  lemma PlainFileIsRedacted(c: Codec, raw: string)
    requires Faithful(c) && Plain(raw)
    ensures AllClean(c, SplitLines(raw)) <==> AllClean(c, NewlineLines(raw))
    ensures Concat(RedactLines(c, SplitLines(raw))) == NewlineRedaction(c, raw)
    ensures Plain(NewlineRedaction(c, raw)) && AllClean(c, SplitLines(NewlineRedaction(c, raw)))
  {
    CutsAgree(raw);
    NewlineLinesEnded(raw);
    forall i | 0 <= i < |SplitLines(raw)| - 1 ensures Terminated(c, SplitLines(raw)[i]) {
      assert EndsInNewline(NewlineLines(raw)[i]);
    }
    ResultIsLineByLine(c, raw);
    NewlineRedactionIsLineByLine(c, raw);
    CutsAgree(NewlineRedaction(c, raw));
  }

  // ---------------------------------------------------------------------------------------
  // Any file: each line by itself
  // ---------------------------------------------------------------------------------------

  lemma {:induction false} CleanOverall(c: Codec, lines: seq<string>)
    ensures AllClean(c, SplitAll(lines)) <==> forall line :: line in lines ==> AllClean(c, SplitLines(line))
  {
    if lines != [] {
      CleanOverall(c, lines[1..]);
      assert forall x :: x in SplitAll(lines) <==> x in SplitLines(lines[0]) || x in SplitAll(lines[1..]);
      assert forall x :: x in lines <==> x == lines[0] || x in lines[1..];
    }
  }

  /** In every file, a line with only harmless breaks is redacted as one of the lines of the result. */
  lemma PlainLineIsRedacted(c: Codec, raw: string, line: string)
    requires line in NewlineLines(raw) && Plain(line)
    ensures line in SplitLines(raw) && RedactLine(c, line) in RedactLines(c, SplitLines(raw))
  {
    LineIsKeptWhole(raw, line);
    CutsEachLine(raw);
    assert line in [line];
    SplitAllHas(NewlineLines(raw), line, line);
    var i :| 0 <= i < |SplitLines(raw)| && SplitLines(raw)[i] == line;
    assert RedactLines(c, SplitLines(raw))[i] == RedactLine(c, line);
  }

  /** A file is left alone although one of its documents has a secret, only if the line of that very
      document has a break inside it. */
  lemma MissedOnlyByInnerBreak(c: Codec, raw: string, line: string)
    requires AllClean(c, SplitLines(raw)) && line in NewlineLines(raw) && !LineIsClean(c, line)
    ensures !Plain(line)
  {
    CutsEachLine(raw);
    CleanOverall(c, NewlineLines(raw));
    LineIsKeptWhole(raw, line);
    assert line in [line];
  }

  /** It does happen. A document on a line of its own, with a break inside a string, is cut at that
      break. When the two parts are not documents, nothing is found to redact, and the file is left as
      it is. */
  lemma BreakHidesSecret(c: Codec, a: string, b: char, e: string)
    requires Compact(a) && Compact(e) && IsBreak(b) && b != '\n' && b != '\r'
    requires c.parse(a).None? && c.parse(e).None?
    requires c.parse(a + [b] + e).Some? && !Clean(c.parse(a + [b] + e).value)
    ensures NewlineLines(a + [b] + e + "\n") == [a + [b] + e + "\n"]
    ensures !AllClean(c, NewlineLines(a + [b] + e + "\n"))
    ensures AllClean(c, SplitLines(a + [b] + e + "\n"))
  {
    var d := a + [b] + e;
    assert d[0] == a[0] && d[|d| - 1] == e[|e| - 1];
    WholeLineIsDirty(c, d);
    PartsAreClean(c, a, b, e);
  }

  lemma WholeLineIsDirty(c: Codec, d: string)
    requires Trimmed(d) && '\n' !in d && c.parse(d).Some? && !Clean(c.parse(d).value)
    ensures NewlineLines(d + "\n") == [d + "\n"] && !AllClean(c, [d + "\n"])
  {
    var line := d + "\n";
    WholeNewlineLine(d);
    assert line[|line|..] == "" && line[..|line|] == line;
    StripTrimmed(d, "\n");
    assert !LineIsClean(c, line) && line in [line];
  }

  lemma PartsAreClean(c: Codec, a: string, b: char, e: string)
    requires Compact(a) && Compact(e) && IsBreak(b) && b != '\n' && b != '\r'
    requires c.parse(a).None? && c.parse(e).None?
    ensures AllClean(c, SplitLines(a + [b] + e + "\n"))
  {
    LoneLine(e);
    SplitAtBreak(a, b, e + "\n");
    assert a + [b] + (e + "\n") == a + [b] + e + "\n";
    StripTrimmed(a, [b]);
    StripTrimmed(e, "\n");
    assert LineIsClean(c, a + [b]) && LineIsClean(c, e + "\n");
  }

  const SECRET_START: string := "{\"api_key\": \"k\", \"note\": \"a"
  const SECRET_END: string := "b\"}"

  /** A file with an API key that is exported as it is: one document, one newline, and a line separator
      inside a string. */
  lemma SeparatorHidesKey(c: Codec)
    requires c.parse(SECRET_START).None? && c.parse(SECRET_END).None?
    requires c.parse(SECRET_START + ['\U{2028}'] + SECRET_END)
          == Some(Object([Member("api_key", String("k")), Member("note", String(['a', '\U{2028}', 'b']))]))
    ensures !AllClean(c, NewlineLines(SECRET_START + ['\U{2028}'] + SECRET_END + "\n"))
    ensures AllClean(c, SplitLines(SECRET_START + ['\U{2028}'] + SECRET_END + "\n"))
  {
    var j := Object([Member("api_key", String("k")), Member("note", String(['a', '\U{2028}', 'b']))]);
    assert IsSecret(ChildKey(j, 0), Child(j, 0));
    BreakHidesSecret(c, SECRET_START, '\U{2028}', SECRET_END);
  }
}
