/** The translation of a SQL LIKE pattern into a regular expression: the text it produces,
    what a regular expression engine reads out of that text, and what it then matches. */
module Like {
  import opened Text

  // ----- SQL LIKE, no escape character -----

  predicate Like(pattern: string, s: string)
    decreases |pattern|, |s|
  {
    if pattern == "" then s == ""
    else if pattern[0] == '%' then Like(pattern[1..], s) || (s != "" && Like(pattern, s[1..]))
    else if pattern[0] == '_' then s != "" && Like(pattern[1..], s[1..])
    else s != "" && s[0] == pattern[0] && Like(pattern[1..], s[1..])
  }

  // ----- the translation -----

  /** The characters `re.escape` puts a backslash before. */
  predicate Special(c: char) {
    c in "()[]{}?*+-|^$\\.&~# \t\n\r" || c == '\U{000B}' || c == '\U{000C}'
  }

  function Escape(c: char): string { if Special(c) then ['\\', c] else [c] }

  function Part(c: char): string {
    if c == '%' then ".*" else if c == '_' then "." else Escape(c)
  }

  function Body(pattern: string): string {
    if pattern == "" then "" else Part(pattern[0]) + Body(pattern[1..])
  }

  function Joined(parts: seq<string>): string {
    if parts == [] then "" else Joined(parts[..|parts| - 1]) + parts[|parts| - 1]
  }

  lemma JoinedNext(parts: seq<string>, x: string)
    ensures Joined(parts + [x]) == Joined(parts) + x
  {
    assert (parts + [x])[..|parts|] == parts;
  }

  lemma BodyNext(pattern: string, i: nat)
    requires i < |pattern|
    ensures Body(pattern[i..]) == Part(pattern[i]) + Body(pattern[i + 1..])
  {
    assert pattern[i..][1..] == pattern[i + 1..];
  }

  lemma NothingLeft(pattern: string)
    ensures pattern[0..] == pattern && Body(pattern[|pattern|..]) == "" && Joined([]) == ""
  {
  }

  /** `_compile_like` up to the text handed to the engine. */
  method CompileLike(pattern: string) returns (text: string)
    ensures text == "^" + Body(pattern) + "$"
  {
    hide Joined, Body, Escape;
    NothingLeft(pattern);
    var parts := ["^"];
    JoinedNext([], "^");
    assert [] + ["^"] == parts;
    for i := 0 to |pattern|
      invariant "^" + Body(pattern) == Joined(parts) + Body(pattern[i..])
    {
      var ch := pattern[i];
      BodyNext(pattern, i);
      JoinedNext(parts, Part(ch));
      if ch == '%' {
        parts := parts + [".*"];
      } else if ch == '_' {
        parts := parts + ["."];
      } else {
        parts := parts + [Escape(ch)];
      }
    }
    JoinedNext(parts, "$");
    parts := parts + ["$"];
    text := Joined(parts);
  }

  // ----- what the engine reads -----

  datatype Token = Start | End | Any | AnyRun | Literal(c: char)

  predicate Word(c: char) { 'a' <= c <= 'z' || 'A' <= c <= 'Z' || '0' <= c <= '9' }

  /** The fragment of the regular expression syntax that occurs; None for anything else,
      such as an unescaped bracket, a stray repetition or a class like `\d`. */
  function Parse(text: string): Option<seq<Token>> {
    if text == "" then Some([])
    else if text[0] == '\\' then
      if |text| < 2 || Word(text[1]) then None else Prepend(Literal(text[1]), Parse(text[2..]))
    else if text[0] == '.' then
      if |text| > 1 && text[1] == '*' then Prepend(AnyRun, Parse(text[2..])) else Prepend(Any, Parse(text[1..]))
    else if text[0] == '^' then Prepend(Start, Parse(text[1..]))
    else if text[0] == '$' then Prepend(End, Parse(text[1..]))
    else if text[0] in "()[]{}?*+|" then None
    else Prepend(Literal(text[0]), Parse(text[1..]))
  }

  function Prepend(t: Token, rest: Option<seq<Token>>): Option<seq<Token>> {
    match rest case None => None case Some(ts) => Some([t] + ts)
  }

  function TokenOf(c: char): Token {
    if c == '%' then AnyRun else if c == '_' then Any else Literal(c)
  }

  function Tokens(pattern: string): seq<Token> {
    if pattern == "" then [] else [TokenOf(pattern[0])] + Tokens(pattern[1..])
  }

  /** What follows a part never turns into a repetition of it. */
  lemma PartsKeepApart(pattern: string)
    ensures var rest := Body(pattern) + "$"; rest[0] != '*'
  {
  }

  lemma ParsePart(c: char, rest: string)
    requires rest != "" && rest[0] != '*'
    ensures Parse(Part(c) + rest) == Prepend(TokenOf(c), Parse(rest))
  {
    var text := Part(c) + rest;
    if c == '%' {
      assert text[0] == '.' && text[1] == '*' && text[2..] == rest;
    } else if c == '_' {
      assert text[0] == '.' && text[1] == rest[0] && text[1..] == rest;
    } else if Special(c) {
      assert text[0] == '\\' && text[1] == c && text[2..] == rest;
    } else {
      assert text[0] == c && text[1..] == rest;
    }
  }

  lemma {:induction false} ParseBody(pattern: string)
    ensures Parse(Body(pattern) + "$") == Some(Tokens(pattern) + [End])
  {
    if pattern == "" {
      assert Body(pattern) + "$" == "$" && "$"[1..] == "";
      assert Parse("$") == Prepend(End, Parse(""));
      assert [End] + [] == [End] && Tokens("") + [End] == [End];
    } else {
      var rest := Body(pattern[1..]) + "$";
      ParseBody(pattern[1..]);
      PartsKeepApart(pattern[1..]);
      ParsePart(pattern[0], rest);
      assert Body(pattern) + "$" == Part(pattern[0]) + rest;
      assert Tokens(pattern) + [End] == [TokenOf(pattern[0])] + (Tokens(pattern[1..]) + [End]);
    }
  }

  /** The engine reads back exactly the pattern: escaping loses and invents nothing. */
  lemma TextReadsBack(pattern: string)
    ensures Parse("^" + Body(pattern) + "$") == Some([Start] + Tokens(pattern) + [End])
  {
    ParseBody(pattern);
    var text := "^" + Body(pattern) + "$";
    assert text[1..] == Body(pattern) + "$";
    assert [Start] + Tokens(pattern) + [End] == [Start] + (Tokens(pattern) + [End]);
  }

  // ----- what the engine matches -----

  /** `re.match` at a position: `.` takes no newline, and `$` also holds before a final one. */
  predicate Matches(ts: seq<Token>, s: string, at: nat)
    requires at <= |s|
    decreases |ts|, |s| - at
  {
    if ts == [] then true
    else match ts[0]
      case Start => at == 0 && Matches(ts[1..], s, at)
      case End => (at == |s| || (at == |s| - 1 && s[at] == '\n')) && Matches(ts[1..], s, at)
      case Any => at < |s| && s[at] != '\n' && Matches(ts[1..], s, at + 1)
      case AnyRun => Matches(ts[1..], s, at) || (at < |s| && s[at] != '\n' && Matches(ts, s, at + 1))
      case Literal(c) => at < |s| && s[at] == c && Matches(ts[1..], s, at + 1)
  }

  /** `_compile_like(pattern).match(s)`. */
  predicate Accepts(pattern: string, s: string) {
    match Parse("^" + Body(pattern) + "$")
    case None => false
    case Some(ts) => Matches(ts, s, 0)
  }

  /** LIKE whose wildcards do not cross a line end. */
  predicate LineLike(pattern: string, s: string)
    decreases |pattern|, |s|
  {
    if pattern == "" then s == ""
    else if pattern[0] == '%' then LineLike(pattern[1..], s) || (s != "" && s[0] != '\n' && LineLike(pattern, s[1..]))
    else if pattern[0] == '_' then s != "" && s[0] != '\n' && LineLike(pattern[1..], s[1..])
    else s != "" && s[0] == pattern[0] && LineLike(pattern[1..], s[1..])
  }

  predicate EndsInNewline(s: string) { s != "" && s[|s| - 1] == '\n' }

  lemma {:induction false} MatchesIsLineLike(pattern: string, s: string, at: nat)
    requires at <= |s|
    ensures Matches(Tokens(pattern) + [End], s, at) <==>
            (LineLike(pattern, s[at..]) || (at < |s| && EndsInNewline(s) && LineLike(pattern, s[at..|s| - 1])))
    decreases |pattern|, |s| - at
  {
    var ts := Tokens(pattern) + [End];
    if pattern == "" {
      assert ts == [End] && ts[1..] == [];
    } else {
      assert ts[0] == TokenOf(pattern[0]) && ts[1..] == Tokens(pattern[1..]) + [End];
      if pattern[0] == '%' { MatchesIsLineLike(pattern[1..], s, at); }
      if at < |s| {
        assert s[at..][1..] == s[at + 1..];
        if at < |s| - 1 { assert s[at..|s| - 1][1..] == s[at + 1..|s| - 1]; }
        MatchesIsLineLike(if pattern[0] == '%' then pattern else pattern[1..], s, at + 1);
      }
    }
  }

  /** What the compiled expression accepts, for every pattern and every string. */
  lemma AcceptsExactly(pattern: string, s: string)
    ensures Accepts(pattern, s) <==> LineLike(pattern, s) || (EndsInNewline(s) && LineLike(pattern, s[..|s| - 1]))
  {
    TextReadsBack(pattern);
    var ts := [Start] + Tokens(pattern) + [End];
    assert ts[0] == Start && ts[1..] == Tokens(pattern) + [End];
    MatchesIsLineLike(pattern, s, 0);
    assert s[0..] == s;
  }

  predicate NewlineFree(s: string) { forall i :: 0 <= i < |s| ==> s[i] != '\n' }

  lemma {:induction false} LinesAreLike(pattern: string, s: string)
    requires NewlineFree(s)
    ensures LineLike(pattern, s) <==> Like(pattern, s)
    decreases |pattern|, |s|
  {
    if pattern != "" {
      if pattern[0] == '%' { LinesAreLike(pattern[1..], s); }
      if s != "" { LinesAreLike(if pattern[0] == '%' then pattern else pattern[1..], s[1..]); }
    }
  }

  /** For every pattern and every string without a newline, the compiled expression
      accepts exactly what LIKE selects. */
  lemma TranslationKeepsMeaning(pattern: string, s: string)
    requires NewlineFree(s)
    ensures Accepts(pattern, s) <==> Like(pattern, s)
  {
    AcceptsExactly(pattern, s);
    LinesAreLike(pattern, s);
  }

  ghost predicate AgreeOn(s: string) { forall p: string :: Accepts(p, s) <==> Like(p, s) }

  function Underscores(n: nat): string { if n == 0 then "" else "_" + Underscores(n - 1) }

  lemma {:induction false} UnderscoresCount(n: nat, s: string)
    ensures Like(Underscores(n), s) <==> |s| == n
    ensures LineLike(Underscores(n), s) <==> |s| == n && NewlineFree(s)
  {
    if n > 0 {
      assert Underscores(n)[0] == '_' && Underscores(n)[1..] == Underscores(n - 1);
      if s != "" {
        UnderscoresCount(n - 1, s[1..]);
        assert NewlineFree(s) <==> s[0] != '\n' && NewlineFree(s[1..]) by { FirstAndRest(s); }
      }
    }
  }

  lemma FirstAndRest(s: string)
    requires s != ""
    ensures NewlineFree(s) <==> s[0] != '\n' && NewlineFree(s[1..])
  {
    if s[0] != '\n' && NewlineFree(s[1..]) {
      forall i | 0 <= i < |s| ensures s[i] != '\n' { if i > 0 { assert s[i] == s[1..][i - 1]; } }
    }
  }

  lemma {:induction false} PercentTakes(s: string)
    ensures Like("%", s) && (LineLike("%", s) <==> NewlineFree(s))
  {
    assert "%"[1..] == "";
    if s != "" {
      PercentTakes(s[1..]);
      FirstAndRest(s);
      assert LineLike("%", s) <==> LineLike("", s) || (s[0] != '\n' && LineLike("%", s[1..]));
    }
  }

  /** Every pattern keeps its meaning on a string if and only if the string has no newline.
      On any other, "%" or a row of underscores tells the two apart. */
  lemma MeaningKeptExactly(s: string)
    ensures AgreeOn(s) <==> NewlineFree(s)
  {
    if NewlineFree(s) {
      forall p: string ensures Accepts(p, s) <==> Like(p, s) { TranslationKeepsMeaning(p, s); }
    } else {
      PercentTakes(s);
      AcceptsExactly("%", s);
      if Accepts("%", s) {
        var front := s[..|s| - 1];
        PercentTakes(front);
        UnderscoresCount(|front|, front);
        UnderscoresCount(|front|, s);
        AcceptsExactly(Underscores(|front|), s);
      }
    }
  }

  /** Two of the smallest: a newline at the end, and one that LIKE's wildcard crosses. */
  lemma NewlinesDiffer()
    ensures Accepts("A", "A\n") && !Like("A", "A\n")
    ensures Like("%", "\nA") && !Accepts("%", "\nA")
  {
    AcceptsExactly("A", "A\n");
    AcceptsExactly("%", "\nA");
    assert "A\n"[..1] == "A" && "\nA"[1..] == "A";
    assert "A"[1..] == "" && "%"[1..] == "" && "A\n"[1..] == "\n";
  }

  /** `gate_id.endswith("_A")`. */
  predicate EndsWithA(s: string) { |s| >= 2 && s[|s| - 2..] == "_A" }

  lemma {:induction false} DefaultPattern(s: string)
    ensures Like("%_A", s) <==> |s| >= 2 && s[|s| - 1] == 'A'
  {
    assert "%_A"[1..] == "_A" && "_A"[1..] == "A" && "A"[1..] == "";
    assert Like("_A", s) <==> s != "" && Like("A", s[1..]);
    forall t: string ensures Like("A", t) <==> t == "A" {
      assert Like("A", t) <==> t != "" && t[0] == 'A' && Like("", t[1..]);
    }
    if s != "" {
      DefaultPattern(s[1..]);
    }
  }

  /** Under the default pattern the gates whose name ends in "_A" are main gates; so is
      every other name of two letters or more that ends in "A". */
  lemma SuffixIsNarrower(s: string)
    requires NewlineFree(s)
    ensures EndsWithA(s) ==> Accepts("%_A", s)
    ensures Accepts("%_A", s) && !EndsWithA(s) <==> |s| >= 2 && s[|s| - 1] == 'A' && s[|s| - 2] != '_'
  {
    TranslationKeepsMeaning("%_A", s);
    DefaultPattern(s);
    if |s| >= 2 { assert s[|s| - 2..] == [s[|s| - 2], s[|s| - 1]]; }
  }
}
