/** Normalising a legacy skill name, and the validator it must satisfy.

    `str.lower` is a parameter: all that is used of it is that it leaves ASCII text without
    capitals alone. */
module SkillNames {

  // ---------------------------------------------------------------------------------------
  // The validator
  // ---------------------------------------------------------------------------------------

  predicate IsAlnum(c: char) {
    'a' <= c <= 'z' || '0' <= c <= '9'
  }

  predicate IsWord(s: string) {
    s != "" && forall i :: 0 <= i < |s| ==> IsAlnum(s[i])
  }

  /** The language of `[a-z0-9]+(-[a-z0-9]+)*`. */
  ghost predicate InLanguage(s: string)
    decreases |s|
  {
    IsWord(s) || exists k :: 0 <= k < |s| && s[k] == '-' && IsWord(s[..k]) && InLanguage(s[k + 1..])
  }

  /** `re.match` with `$`: a single newline may follow at the end. */
  ghost predicate Matches(s: string) {
    InLanguage(s) || (s != "" && s[|s| - 1] == '\n' && InLanguage(s[..|s| - 1]))
  }

  datatype NameError = Empty | TooLong(length: nat) | BadPattern

  // ---------------------------------------------------------------------------------------
  // The pipeline
  // ---------------------------------------------------------------------------------------

  predicate IsAllowed(c: char) {
    IsAlnum(c) || c == '-'
  }

  function Hyphenate(s: string): (r: string)
    ensures |r| == |s|
  {
    seq(|s|, i requires 0 <= i < |s| => if s[i] == '_' then '-' else s[i])
  }

  /** `re.sub(r"[^a-z0-9-]", "", s)`. */
  function Filter(s: string): (r: string)
    ensures forall i :: 0 <= i < |r| ==> IsAllowed(r[i])
  {
    if s == "" then "" else (if IsAllowed(s[0]) then [s[0]] else "") + Filter(s[1..])
  }

  /** `re.sub(r"-+", "-", s)`. */
  function Collapse(s: string): (r: string)
    ensures s != "" ==> r != "" && r[0] == s[0]
  {
    if |s| >= 2 && s[0] == '-' && s[1] == '-' then Collapse(s[1..])
    else if s == "" then ""
    else [s[0]] + Collapse(s[1..])
  }

  function TrimLeft(s: string): string {
    if s != "" && s[0] == '-' then TrimLeft(s[1..]) else s
  }

  function TrimRight(s: string): string {
    if s != "" && s[|s| - 1] == '-' then TrimRight(s[..|s| - 1]) else s
  }

  function NormalizeSkillName(lower: string -> string, name: string): string {
    TrimRight(TrimLeft(Collapse(Filter(Hyphenate(lower(name))))))
  }

  // ---------------------------------------------------------------------------------------
  // The language, flattened
  // ---------------------------------------------------------------------------------------

  predicate Plain(s: string) {
    forall i :: 0 <= i < |s| ==> IsAllowed(s[i])
  }

  predicate SingleHyphens(s: string) {
    forall i :: 0 <= i < |s| - 1 ==> !(s[i] == '-' && s[i + 1] == '-')
  }

  /** Allowed characters, no hyphen at either end, no two in a row. */
  predicate Tidy(s: string) {
    s != "" && Plain(s) && SingleHyphens(s) && s[0] != '-' && s[|s| - 1] != '-'
  }

  /** The regular language is the set of tidy strings. */
  lemma {:induction false} LanguageIsTidy(s: string)
    ensures InLanguage(s) <==> Tidy(s)
    decreases |s|
  {
    if InLanguage(s) && !IsWord(s) {
      var k :| 0 <= k < |s| && s[k] == '-' && IsWord(s[..k]) && InLanguage(s[k + 1..]);
      LanguageIsTidy(s[k + 1..]);
      TidyJoin(s, k);
    }
    if Tidy(s) && !IsWord(s) {
      var k := FirstHyphen(s);
      var tail := s[k + 1..];
      TidyTail(s, k);
      LanguageIsTidy(tail);
    }
  }

  lemma SuffixSingle(s: string, k: nat)
    requires SingleHyphens(s) && k <= |s|
    ensures SingleHyphens(s[k..])
  {
    forall i | 0 <= i < |s[k..]| - 1 ensures !(s[k..][i] == '-' && s[k..][i + 1] == '-') {
      assert s[k..][i] == s[k + i];
    }
  }

  lemma TidyTail(s: string, k: nat)
    requires Tidy(s) && k < |s| && s[k] == '-'
    ensures Tidy(s[k + 1..])
  {
    SuffixSingle(s, k + 1);
    assert k + 1 < |s| && s[k + 1] != '-';
  }

  lemma TidyJoin(s: string, k: nat)
    requires k < |s| && s[k] == '-' && IsWord(s[..k]) && Tidy(s[k + 1..])
    ensures Tidy(s)
  {
    var word, tail := s[..k], s[k + 1..];
    assert forall i :: 0 <= i < k ==> s[i] == word[i];
    assert forall i :: k < i < |s| ==> s[i] == tail[i - k - 1];
  }

  lemma FirstHyphen(s: string) returns (k: nat)
    requires Tidy(s) && !IsWord(s)
    ensures k < |s| && s[k] == '-' && IsWord(s[..k])
  {
    k := 0;
    while k < |s| && s[k] != '-'
      invariant k <= |s| && forall i :: 0 <= i < k ==> IsAlnum(s[i])
    {
      k := k + 1;
    }
  }

  /** Matching is being tidy, up to one trailing newline. */
  lemma MatchesIsTidy(name: string)
    requires name != ""
    ensures Matches(name) <==> Tidy(if name[|name| - 1] == '\n' then name[..|name| - 1] else name)
  {
    LanguageIsTidy(name);
    LanguageIsTidy(name[..|name| - 1]);
  }

  /** `validate_skill_name`: one error per rule that is broken; an empty name gets just its own. */
  method ValidateSkillName(name: string) returns (errors: seq<NameError>)
    ensures errors == [] <==> 1 <= |name| <= 64 && Matches(name)
    ensures Empty in errors <==> name == ""
    ensures BadPattern in errors <==> name != "" && !Matches(name)
    ensures TooLong(|name|) in errors <==> |name| > 64
  {
    errors := [];
    if name == "" {
      return [Empty];
    }
    if |name| > 64 {
      errors := errors + [TooLong(|name|)];
    }
    var body := if name[|name| - 1] == '\n' then name[..|name| - 1] else name;
    MatchesIsTidy(name);
    if !Tidy(body) {
      errors := errors + [BadPattern];
    }
  }

  // ---------------------------------------------------------------------------------------
  // What the steps keep
  // ---------------------------------------------------------------------------------------

  lemma {:induction false} CollapseTidies(s: string)
    requires Plain(s)
    ensures Plain(Collapse(s)) && SingleHyphens(Collapse(s))
  {
    if s != "" {
      CollapseTidies(s[1..]);
    }
  }

  lemma {:induction false} TrimLeftTidies(s: string)
    requires Plain(s) && SingleHyphens(s)
    ensures var r := TrimLeft(s); Plain(r) && SingleHyphens(r) && (r != "" ==> r[0] != '-')
  {
    if s != "" && s[0] == '-' {
      SuffixSingle(s, 1);
      TrimLeftTidies(s[1..]);
    }
  }

  lemma {:induction false} TrimRightTidies(s: string)
    requires Plain(s) && SingleHyphens(s) && (s != "" ==> s[0] != '-')
    ensures var r := TrimRight(s); Plain(r) && SingleHyphens(r) && (r != "" ==> r[0] != '-' && r[|r| - 1] != '-')
  {
    if s != "" && s[|s| - 1] == '-' {
      TrimRightTidies(s[..|s| - 1]);
    }
  }

  /** For every input, whatever `lower` does to it, the result is empty or in the language. */
  lemma NormalizedIsInLanguage(lower: string -> string, name: string)
    ensures var r := NormalizeSkillName(lower, name); r == "" || InLanguage(r)
  {
    var s := Filter(Hyphenate(lower(name)));
    CollapseTidies(s);
    TrimLeftTidies(Collapse(s));
    TrimRightTidies(TrimLeft(Collapse(s)));
    LanguageIsTidy(NormalizeSkillName(lower, name));
  }

  // ---------------------------------------------------------------------------------------
  // What the pipeline leaves alone
  // ---------------------------------------------------------------------------------------

  /** ASCII without capitals. */
  predicate LowerAscii(s: string) {
    forall i :: 0 <= i < |s| ==> s[i] < '\U{80}' && !('A' <= s[i] <= 'Z')
  }

  ghost predicate IsLower(lower: string -> string) {
    forall s :: LowerAscii(s) ==> lower(s) == s
  }

  lemma {:induction false} FilterKeepsPlain(s: string)
    requires Plain(s)
    ensures Filter(s) == s
  {
    if s != "" {
      FilterKeepsPlain(s[1..]);
      assert [s[0]] + s[1..] == s;
    }
  }

  lemma {:induction false} CollapseKeepsSingle(s: string)
    requires SingleHyphens(s)
    ensures Collapse(s) == s
  {
    if s != "" {
      SuffixSingle(s, 1);
      CollapseKeepsSingle(s[1..]);
      assert [s[0]] + s[1..] == s;
    }
  }

  /** Names already in the language are left unchanged. */
  lemma LanguageIsFixed(lower: string -> string, name: string)
    requires IsLower(lower) && InLanguage(name)
    ensures NormalizeSkillName(lower, name) == name
  {
    LanguageIsTidy(name);
    assert LowerAscii(name);
    assert Hyphenate(name) == name;
    FilterKeepsPlain(name);
    CollapseKeepsSingle(name);
  }

  lemma NormalizeIdempotent(lower: string -> string, name: string)
    requires IsLower(lower)
    ensures NormalizeSkillName(lower, NormalizeSkillName(lower, name)) == NormalizeSkillName(lower, name)
  {
    var r := NormalizeSkillName(lower, name);
    NormalizedIsInLanguage(lower, name);
    if r == "" {
      assert LowerAscii(r);
      assert Hyphenate(r) == r;
    } else {
      LanguageIsFixed(lower, r);
    }
  }

  /** A name the validator accepts is left unchanged exactly if it has no trailing newline: `$` also
      matches before one, so the validator accepts such names, and normalising drops it. */
  lemma AcceptedIsFixedUnlessNewline(lower: string -> string, name: string)
    requires IsLower(lower) && Matches(name)
    ensures NormalizeSkillName(lower, name) == name <==> name[|name| - 1] != '\n'
  {
    if name[|name| - 1] == '\n' {
      NormalizedIsInLanguage(lower, name);
      LanguageIsTidy(NormalizeSkillName(lower, name));
    } else {
      LanguageIsFixed(lower, name);
    }
  }

  lemma NewlineIsAccepted()
    ensures Matches("a\n")
  {
    assert "a\n"[..1] == "a";
    assert IsWord("a");
  }

  /** The validator accepts a normalised name unless it is empty or too long. */
  lemma NormalizedMatches(lower: string -> string, name: string)
    ensures var r := NormalizeSkillName(lower, name); Matches(r) <==> r != ""
  {
    NormalizedIsInLanguage(lower, name);
    LanguageIsTidy(NormalizeSkillName(lower, name));
    var r := NormalizeSkillName(lower, name);
    if r == "" {
      assert !InLanguage(r) by { LanguageIsTidy(r); }
    }
  }

  // ---------------------------------------------------------------------------------------
  // In one pass: letters and digits in order, a hyphen where hyphens or underscores stood
  // ---------------------------------------------------------------------------------------

  /** A letter or digit, and whether a hyphen goes before it. */
  datatype Letter = Letter(c: char, hyphen: bool)

  /** The letters and digits of a text, in order. One that is not the first gets a hyphen exactly if a
      hyphen or an underscore stands between it and the one before. */
  function Letters(s: string, separated: bool, started: bool): seq<Letter> {
    if s == "" then []
    else if 'a' <= s[0] <= 'z' || '0' <= s[0] <= '9' then
      [Letter(s[0], started && separated)] + Letters(s[1..], false, true)
    else
      Letters(s[1..], separated || s[0] == '-' || s[0] == '_', started)
  }

  function Spell(letters: seq<Letter>): string {
    if letters == [] then ""
    else (if letters[0].hyphen then ['-', letters[0].c] else [letters[0].c]) + Spell(letters[1..])
  }

  lemma {:induction false} HyphenateKeepsLetters(s: string, separated: bool, started: bool)
    ensures Letters(Hyphenate(s), separated, started) == Letters(s, separated, started)
  {
    if s != "" {
      assert Hyphenate(s)[1..] == Hyphenate(s[1..]);
      HyphenateKeepsLetters(s[1..], false, true);
      HyphenateKeepsLetters(s[1..], separated || s[0] == '-' || s[0] == '_', started);
    }
  }

  lemma {:induction false} FilterKeepsLetters(s: string, separated: bool, started: bool)
    requires '_' !in s
    ensures Letters(Filter(s), separated, started) == Letters(s, separated, started)
  {
    if s != "" {
      assert IsAllowed(s[0]) ==> Filter(s)[0] == s[0] && Filter(s)[1..] == Filter(s[1..]);
      assert !IsAllowed(s[0]) ==> Filter(s) == Filter(s[1..]) && s[0] != '_';
      FilterKeepsLetters(s[1..], false, true);
      FilterKeepsLetters(s[1..], separated || s[0] == '-', started);
    }
  }

  lemma {:induction false} CollapseKeepsLetters(s: string, separated: bool, started: bool)
    ensures Letters(Collapse(s), separated, started) == Letters(s, separated, started)
  {
    if |s| >= 2 && s[0] == '-' && s[1] == '-' {
      CollapseKeepsLetters(s[1..], separated, started);
    } else if s != "" {
      assert Collapse(s)[1..] == Collapse(s[1..]);
      CollapseKeepsLetters(s[1..], false, true);
      CollapseKeepsLetters(s[1..], separated || s[0] == '-' || s[0] == '_', started);
    }
  }

  lemma {:induction false} BeforeTheFirst(s: string, a: bool, b: bool)
    ensures Letters(s, a, false) == Letters(s, b, false)
  {
    if s != "" {
      BeforeTheFirst(s[1..], a || s[0] == '-' || s[0] == '_', b || s[0] == '-' || s[0] == '_');
    }
  }

  lemma {:induction false} TrimLeftKeepsLetters(s: string)
    ensures Letters(TrimLeft(s), false, false) == Letters(s, false, false)
  {
    if s != "" && s[0] == '-' {
      TrimLeftKeepsLetters(s[1..]);
      BeforeTheFirst(s[1..], true, false);
    }
  }

  lemma {:induction false} LastHyphen(s: string, separated: bool, started: bool)
    ensures Letters(s + "-", separated, started) == Letters(s, separated, started)
  {
    if s != "" {
      assert (s + "-")[1..] == s[1..] + "-";
      LastHyphen(s[1..], false, true);
      LastHyphen(s[1..], separated || s[0] == '-' || s[0] == '_', started);
    } else {
      assert (s + "-")[1..] == "";
    }
  }

  lemma {:induction false} TrimRightKeepsLetters(s: string)
    ensures Letters(TrimRight(s), false, false) == Letters(s, false, false)
  {
    if s != "" && s[|s| - 1] == '-' {
      var front := s[..|s| - 1];
      TrimRightKeepsLetters(front);
      assert s == front + "-";
      LastHyphen(front, false, false);
    }
  }

  lemma {:induction false} SpellRest(s: string)
    requires Plain(s) && SingleHyphens(s) && (s != "" ==> s[|s| - 1] != '-')
    ensures Spell(Letters(s, false, true)) == s
    decreases |s|
  {
    if s != "" && s[0] == '-' {
      SuffixSingle(s, 2);
      SpellRest(s[2..]);
      assert s[1..][1..] == s[2..];
      assert Letters(s, false, true) == [Letter(s[1], true)] + Letters(s[2..], false, true);
      assert s == ['-', s[1]] + s[2..];
    } else if s != "" {
      SuffixSingle(s, 1);
      SpellRest(s[1..]);
      assert s == [s[0]] + s[1..];
    }
  }

  lemma SpellTidy(s: string)
    requires s == "" || Tidy(s)
    ensures Spell(Letters(s, false, false)) == s
  {
    if s != "" {
      SuffixSingle(s, 1);
      SpellRest(s[1..]);
      assert Letters(s, false, false) == [Letter(s[0], false)] + Letters(s[1..], false, true);
      assert s == [s[0]] + s[1..];
    }
  }

  /** The five passes do what one pass would: keep the letters and digits in order, with one hyphen between
      two of them exactly if a hyphen or an underscore stood between. */
  lemma NormalizeIsOnePass(lower: string -> string, name: string)
    ensures NormalizeSkillName(lower, name) == Spell(Letters(lower(name), false, false))
  {
    var h := Hyphenate(lower(name));
    var f := Filter(h);
    var c := Collapse(f);
    HyphenateKeepsLetters(lower(name), false, false);
    FilterKeepsLetters(h, false, false);
    CollapseKeepsLetters(f, false, false);
    TrimLeftKeepsLetters(c);
    TrimRightKeepsLetters(TrimLeft(c));
    NormalizedIsInLanguage(lower, name);
    LanguageIsTidy(NormalizeSkillName(lower, name));
    SpellTidy(NormalizeSkillName(lower, name));
  }
}
