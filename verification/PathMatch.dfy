/** Compiling path patterns, matching a path and testing two patterns for overlap.
    Models the string side of crates/gaviero-core/src/path_pattern.rs. */
module PathMatch {
  import opened Text
  import opened PathPattern

  // ---------------------------------------------------------------------------
  // Normalisation and lexing

  function StripDotSlash(s: string): string {
    if "./" <= s then s[2..] else s
  }

  function NormalizePath(path: string): string {
    StripDotSlash(Trim(path))
  }

  predicate IsDirectoryText(raw: string) {
    raw != "" && raw[|raw| - 1] == '/' && raw != "/"
  }

  function TrimEndSlashes(s: string): string {
    if s != "" && s[|s| - 1] == '/' then TrimEndSlashes(s[..|s| - 1]) else s
  }

  function PatternBody(raw: string): string {
    if IsDirectoryText(raw) then TrimEndSlashes(raw) else raw
  }

  function Lex(s: string): seq<Tok> {
    if s == "" then []
    else if s[0] == '*' then
      if |s| > 1 && s[1] == '*' then [StarStar] + Lex(s[2..]) else [Star] + Lex(s[1..])
    else if s[0] == '?' then [Question] + Lex(s[1..])
    else [Lit(s[0])] + Lex(s[1..])
  }

  function PrintTok(t: Tok): string {
    match t
    case Lit(c) => [c]
    case Question => "?"
    case Star => "*"
    case StarStar => "**"
  }

  function Print(ts: seq<Tok>): string {
    if ts == [] then "" else PrintTok(ts[0]) + Print(ts[1..])
  }

  /** The token lists the lexer can return: wildcards are never literals, and a lone star is
      never followed by another star. */
  predicate WellLexed(ts: seq<Tok>) {
    && (forall i :: 0 <= i < |ts| ==> ts[i] != Lit('*') && ts[i] != Lit('?'))
    && (forall i :: 0 <= i < |ts| - 1 ==> ts[i].Star? ==> !ts[i + 1].IsStar())
  }

  /** Lexing keeps every character of the pattern. */
  lemma {:induction false} PrintOfLex(s: string)
    ensures Print(Lex(s)) == s
    ensures WellLexed(Lex(s))
    ensures s != "" && s[0] != '*' ==> Lex(s) != [] && !Lex(s)[0].IsStar()
  {
    if s != "" {
      var n := if |s| > 1 && s[0] == '*' && s[1] == '*' then 2 else 1;
      PrintOfLex(s[n..]);
      var rest := Lex(s[n..]);
      assert Lex(s)[1..] == rest;
      assert s == s[..n] + s[n..];
      assert s[..n] == PrintTok(Lex(s)[0]);
      forall i | 0 <= i < |Lex(s)| - 1
        ensures Lex(s)[i].Star? ==> !Lex(s)[i + 1].IsStar()
      {
        if i > 0 {
          assert Lex(s)[i] == rest[i - 1] && Lex(s)[i + 1] == rest[i];
        } else {
          assert Lex(s)[1] == rest[0];
        }
      }
    }
  }

  /** Lexing is the only well-lexed reading of a pattern. */
  lemma {:induction false} LexOfPrint(ts: seq<Tok>)
    requires WellLexed(ts)
    ensures Lex(Print(ts)) == ts
  {
    if ts != [] {
      var rest := ts[1..];
      assert forall i :: 0 <= i < |rest| ==> rest[i] == ts[i + 1];
      hide Lex;
      LexOfPrint(rest);
      if ts[0].Star? && rest != [] { assert !rest[0].IsStar(); PrintBegins(rest); }
      LexOfTok(ts[0], Print(rest));
    } else {
      LexOfNothing();
    }
  }

  lemma LexOfNothing()
    ensures Lex("") == []
  {
  }

  lemma LexOfTok(tok: Tok, rest: string)
    requires tok != Lit('*') && tok != Lit('?') && (tok.Star? && rest != "" ==> rest[0] != '*')
    ensures Lex(PrintTok(tok) + rest) == [tok] + Lex(rest)
  {
    var head, s := PrintTok(tok), PrintTok(tok) + rest;
    assert s[|head|..] == rest;
    assert |head| == 1 ==> s[0] == head[0] && (rest != "" ==> s[1] == rest[0]);
  }

  lemma PrintBegins(ts: seq<Tok>)
    requires WellLexed(ts) && ts != [] && !ts[0].IsStar()
    ensures Print(ts) != "" && Print(ts)[0] != '*'
  {
    assert ts[0] != Lit('*');
  }

  function Tokens(pattern: string): seq<Tok> {
    Lex(PatternBody(NormalizePath(pattern)))
  }

  predicate IsDirectory(pattern: string) {
    IsDirectoryText(NormalizePath(pattern))
  }

  lemma LexHead(chars: string, i: nat)
    requires i < |chars|
    ensures Lex(chars[i..]) ==
            if chars[i] == '*' then
              if i + 1 < |chars| && chars[i + 1] == '*' then [StarStar] + Lex(chars[i + 2..])
              else [Star] + Lex(chars[i + 1..])
            else [if chars[i] == '?' then Question else Lit(chars[i])] + Lex(chars[i + 1..])
  {
    var rest := chars[i..];
    assert rest[1..] == chars[i + 1..];
    assert |rest| > 1 ==> rest[2..] == chars[i + 2..];
  }

  method Compile(pattern: string) returns (tokens: seq<Tok>, dirTrail: bool)
    ensures tokens == Tokens(pattern)
    ensures dirTrail == IsDirectory(pattern)
  {
    hide Lex, NormalizePath, TrimEndSlashes, IsDirectoryText;
    var raw := NormalizePath(pattern);
    dirTrail := IsDirectoryText(raw);
    var chars := if dirTrail then TrimEndSlashes(raw) else raw;
    tokens := [];
    var i := 0;
    assert chars[0..] == chars;
    while i < |chars|
      invariant 0 <= i <= |chars|
      invariant tokens + Lex(chars[i..]) == Lex(chars)
    {
      var c := chars[i];
      LexHead(chars, i);
      Assoc(tokens, if c == '*' then if i + 1 < |chars| && chars[i + 1] == '*' then [StarStar] else [Star]
                    else [if c == '?' then Question else Lit(c)],
            Lex(chars[if c == '*' && i + 1 < |chars| && chars[i + 1] == '*' then i + 2 else i + 1..]));
      if c == '*' {
        if i + 1 < |chars| && chars[i + 1] == '*' {
          tokens := tokens + [StarStar];
          i := i + 2;
        } else {
          tokens := tokens + [Star];
          i := i + 1;
        }
      } else if c == '?' {
        tokens := tokens + [Question];
        i := i + 1;
      } else {
        tokens := tokens + [Lit(c)];
        i := i + 1;
      }
    }
    assert chars[i..] == "";
    LexNothing();
  }

  lemma LexNothing()
    ensures Lex("") == []
  {
  }

  lemma Assoc(a: seq<Tok>, b: seq<Tok>, c: seq<Tok>)
    ensures a + (b + c) == a + b + c
  {
  }

  function Literals(text: string): (ts: seq<Tok>)
    ensures |ts| == |text|
    ensures forall i :: 0 <= i < |ts| ==> ts[i] == Lit(text[i])
  {
    seq(|text|, i requires 0 <= i < |text| => Lit(text[i]))
  }

  // ---------------------------------------------------------------------------
  // What a pattern covers

  /** The pattern `.`, which only `matches` treats as the whole workspace. */
  predicate IsRootPattern(pattern: string) {
    Trim(pattern) == "."
  }

  /** `text` lies below a directory that `body` accepts. */
  ghost predicate Under(body: seq<Tok>, text: string) {
    exists k :: 0 <= k < |text| && text[k] == '/' && Accepts(body, text[..k])
  }

  /** The normalised paths that `matches` accepts. */
  ghost predicate Covers(pattern: string, text: string) {
    || IsRootPattern(pattern)
    || (if IsDirectory(pattern) then Tokens(pattern) == Literals(text) || Under(Tokens(pattern), text)
        else Accepts(Tokens(pattern), text))
  }

  /** The normalised paths that `patterns_overlap` attributes to a pattern: wildcards in the
      name of a directory also apply to the bare directory. */
  ghost predicate MayCover(pattern: string, text: string) {
    || Accepts(Tokens(pattern), text)
    || (IsDirectory(pattern) && Under(Tokens(pattern), text))
  }

  ghost predicate MayCoverBoth(a: string, b: string, text: string) {
    MayCover(a, text) && MayCover(b, text)
  }

  ghost predicate Overlap(a: string, b: string) {
    exists text :: MayCoverBoth(a, b, text)
  }

  ghost predicate CoverBoth(a: string, b: string, text: string) {
    Covers(a, text) && Covers(b, text)
  }

  lemma {:induction false} LiteralsAccept(literal: string, text: string)
    ensures Accepts(Literals(literal), text) <==> text == literal
  {
    if literal != "" {
      assert Literals(literal)[1..] == Literals(literal[1..]);
      if text != "" {
        LiteralsAccept(literal[1..], text[1..]);
        assert text == [text[0]] + text[1..] && literal == [literal[0]] + literal[1..];
      }
    }
  }

  lemma MeetLiteral(ts: seq<Tok>, text: string)
    ensures Meet(ts, Literals(text)) <==> Accepts(ts, text)
  {
    if other :| AcceptBoth(ts, Literals(text), other) {
      LiteralsAccept(text, other);
    }
    LiteralsAccept(text, text);
    assert Accepts(ts, text) ==> AcceptBoth(ts, Literals(text), text);
  }

  const TAIL: seq<Tok> := [Lit('/'), StarStar]

  lemma TailAccepts(text: string)
    ensures Accepts(TAIL, text) <==> text != "" && text[0] == '/'
  {
    assert TAIL[1..] == [StarStar] && TAIL[1..][1..] == [];
    if text != "" {
      var rest := text[1..];
      assert rest[|rest|..] == "";
      assert Passes(StarStar, rest[..|rest|]) && Accepts([], rest[|rest|..]);
    }
  }

  predicate FitsChar(t: Tok, c: char) {
    match t
    case Lit(d) => c == d
    case Question => c != '/'
    case _ => false
  }

  lemma AcceptsChar(ts: seq<Tok>, text: string)
    requires ts != [] && !ts[0].IsStar()
    ensures Accepts(ts, text) <==> text != "" && FitsChar(ts[0], text[0]) && Accepts(ts[1..], text[1..])
  {
  }

  lemma AcceptsNothing(text: string)
    ensures Accepts([], text) <==> text == ""
  {
  }

  lemma {:induction false} ExpansionLiesUnder(body: seq<Tok>, text: string) returns (k: nat)
    requires Accepts(body + TAIL, text)
    ensures k < |text| && text[k] == '/' && Accepts(body, text[..k])
    decreases |body|
  {
    hide Accepts;
    var whole := body + TAIL;
    if body == [] {
      assert whole == TAIL;
      TailAccepts(text);
      AcceptsNothing(text[..0]);
      k := 0;
    } else {
      assert whole[1..] == body[1..] + TAIL;
      if body[0].IsStar() {
        var m := StarSplit(whole, text);
        k := ExpansionLiesUnder(body[1..], text[m..]);
        k := k + m;
        assert text[..k][..m] == text[..m] && text[..k][m..] == text[m..][..k - m];
        StarJoin(body, text[..k], m);
      } else {
        AcceptsChar(whole, text);
        k := ExpansionLiesUnder(body[1..], text[1..]);
        k := k + 1;
        assert text[..k][1..] == text[1..][..k - 1];
        AcceptsChar(body, text[..k]);
      }
    }
  }

  lemma {:induction false} UnderIsExpanded(body: seq<Tok>, text: string, k: nat)
    requires k < |text| && text[k] == '/' && Accepts(body, text[..k])
    ensures Accepts(body + TAIL, text)
    decreases |body|
  {
    hide Accepts;
    var whole := body + TAIL;
    if body == [] {
      assert whole == TAIL;
      AcceptsNothing(text[..k]);
      TailAccepts(text);
    } else {
      assert whole[1..] == body[1..] + TAIL;
      if body[0].IsStar() {
        var m := StarSplit(body, text[..k]);
        assert text[..k][..m] == text[..m] && text[..k][m..] == text[m..][..k - m];
        assert text[m..][k - m] == '/';
        UnderIsExpanded(body[1..], text[m..], k - m);
        StarJoin(whole, text, m);
      } else {
        AcceptsChar(body, text[..k]);
        AcceptsChar(whole, text);
        assert text[..k][1..] == text[1..][..k - 1] && text[1..][k - 1] == '/';
        UnderIsExpanded(body[1..], text[1..], k - 1);
      }
    }
  }

  // The expansion of a directory accepts exactly what lies below it.
  lemma ExpansionIsUnder(body: seq<Tok>, text: string)
    ensures Accepts(body + TAIL, text) <==> Under(body, text)
  {
    if Accepts(body + TAIL, text) {
      var k := ExpansionLiesUnder(body, text);
    }
    if k :| 0 <= k < |text| && text[k] == '/' && Accepts(body, text[..k]) {
      UnderIsExpanded(body, text, k);
    }
  }

  // ---------------------------------------------------------------------------
  // The two public operations

  predicate EqualsLiteral(pat: seq<Tok>, target: seq<Tok>) {
    |pat| == |target| && forall i :: 0 <= i < |pat| ==> pat[i].Lit? && target[i].Lit? && pat[i].c == target[i].c
  }

  /** Decides the cover relation for one path; only the path is normalised here, the pattern by
      the compiler. */
  method Matches(pattern: string, path: string) returns (r: bool)
    ensures r <==> Covers(pattern, NormalizePath(path))
  {
    if Trim(pattern) == "." {
      return true;
    }
    var pat, dirTrail := Compile(pattern);
    var text := NormalizePath(path);
    var target := Literals(text);
    if dirTrail {
      var meets, _ := Intersect(pat, target);
      MeetLiteral(pat, text);
      LiteralsAccept(text, text);
      assert EqualsLiteral(pat, target) <==> pat == target;
      if meets && EqualsLiteral(pat, target) {
        return true;
      }
      var below, _ := Intersect(pat + [Lit('/'), StarStar], target);
      r := below;
      MeetLiteral(pat + TAIL, text);
      ExpansionIsUnder(pat, text);
    } else {
      var meets, _ := Intersect(pat, target);
      r := meets;
      MeetLiteral(pat, text);
    }
  }

  function ExpandDir(tokens: seq<Tok>, dirTrail: bool): seq<seq<Tok>> {
    if !dirTrail then [tokens] else [tokens, tokens + [Lit('/'), StarStar]]
  }

  lemma ExpansionsAccept(pattern: string, text: string)
    ensures MayCover(pattern, text) <==>
            exists alt :: alt in ExpandDir(Tokens(pattern), IsDirectory(pattern)) && Accepts(alt, text)
  {
    var alts := ExpandDir(Tokens(pattern), IsDirectory(pattern));
    ExpansionIsUnder(Tokens(pattern), text);
    assert alts[0] in alts && alts[0] == Tokens(pattern);
    assert IsDirectory(pattern) ==> alts[1] in alts && alts[1] == Tokens(pattern) + TAIL;
  }

  /** Tries every alternative of one pattern against every alternative of the other. */
  method PatternsOverlap(a: string, b: string) returns (r: bool)
    ensures r <==> Overlap(a, b)
  {
    var pa, da := Compile(a);
    var pb, db := Compile(b);
    var aAlts, bAlts := ExpandDir(pa, da), ExpandDir(pb, db);
    for i := 0 to |aAlts|
      invariant forall m, n :: 0 <= m < i && 0 <= n < |bAlts| ==> !Meet(aAlts[m], bAlts[n])
    {
      for j := 0 to |bAlts|
        invariant forall n :: 0 <= n < j ==> !Meet(aAlts[i], bAlts[n])
      {
        var meets, _ := Intersect(aAlts[i], bAlts[j]);
        if meets {
          ghost var text :| AcceptBoth(aAlts[i], bAlts[j], text);
          ExpansionsAccept(a, text);
          ExpansionsAccept(b, text);
          assert aAlts[i] in aAlts && bAlts[j] in bAlts;
          assert MayCoverBoth(a, b, text);
          return true;
        }
      }
    }
    forall text ensures !MayCoverBoth(a, b, text) {
      ExpansionsAccept(a, text);
      ExpansionsAccept(b, text);
      if MayCoverBoth(a, b, text) {
        var m :| 0 <= m < |aAlts| && Accepts(aAlts[m], text);
        var n :| 0 <= n < |bAlts| && Accepts(bAlts[n], text);
        assert AcceptBoth(aAlts[m], bAlts[n], text);
        assert Meet(aAlts[m], bAlts[n]);
      }
    }
    return false;
  }

  // ---------------------------------------------------------------------------
  // How the two operations relate

  lemma LiteralCoverIsAccepted(pattern: string, text: string)
    requires Tokens(pattern) == Literals(text)
    ensures Accepts(Tokens(pattern), text)
  {
    LiteralsAccept(text, text);
  }

  /** A path that matches both patterns makes them overlap, unless one of them is `.`. */
  lemma OverlapIsConservative(a: string, b: string, text: string)
    requires !IsRootPattern(a) && !IsRootPattern(b)
    requires CoverBoth(a, b, text)
    ensures Overlap(a, b) && Overlap(b, a)
  {
    if Tokens(a) == Literals(text) { LiteralCoverIsAccepted(a, text); }
    if Tokens(b) == Literals(text) { LiteralCoverIsAccepted(b, text); }
    assert MayCoverBoth(a, b, text) && MayCoverBoth(b, a, text);
  }

  /** Any path shared with `other` shows in the overlap test. */
  ghost predicate ConservativeAgainst(pattern: string, other: string) {
    (exists text :: CoverBoth(pattern, other, text)) ==> Overlap(pattern, other)
  }

  lemma SourceFolder()
    ensures Trim("src/") == "src/" == NormalizePath("src/") && Tokens("src/") == Literals("src")
  {
    assert Trim("src/") == "src/";
    assert NormalizePath("src/") == "src/";
    assert TrimEndSlashes("src/") == TrimEndSlashes("src") == "src" by {
      assert "src/"[..3] == "src";
    }
    calc {
      Tokens("src/");
      Lex("src");
      { assert "src"[1..] == "rc"; }
      [Lit('s')] + Lex("rc");
      { assert "rc"[1..] == "c"; }
      [Lit('s')] + ([Lit('r')] + Lex("c"));
      { assert "c"[1..] == ""; }
      [Lit('s')] + ([Lit('r')] + ([Lit('c')] + []));
      [Lit('s'), Lit('r'), Lit('c')];
      Literals("src");
    }
  }

  lemma RootTokens(pattern: string)
    requires IsRootPattern(pattern)
    ensures NormalizePath(pattern) == "." && Tokens(pattern) == Literals(".")
  {
    assert NormalizePath(pattern) == ".";
    assert Tokens(pattern) == [Lit('.')] + Lex("."[1..]) == Literals(".");
  }

  /** `.` matches every path, yet it overlaps `src/` no more than a file called `.` would. */
  lemma RootPatternMissesOverlap(pattern: string)
    requires IsRootPattern(pattern)
    ensures CoverBoth(pattern, "src/", "src/a") && !Overlap(pattern, "src/")
  {
    SourceFolder();
    RootTokens(pattern);
    hide Lex, Tokens, NormalizePath, TrimEndSlashes, Trim;
    var body := Tokens("src/");
    assert "src/a"[3] == '/' && "src/a"[..3] == "src";
    LiteralsAccept("src", "src/a"[..3]);
    assert Under(body, "src/a");
    forall text ensures !MayCoverBoth(pattern, "src/", text) {
      LiteralsAccept(".", text);
      LiteralsAccept("src", text);
      if k :| 0 <= k < |text| && text[k] == '/' && Accepts(body, text[..k]) {
        LiteralsAccept("src", text[..k]);
      }
    }
  }

  /** The overlap test is conservative against every other pattern exactly when the pattern
      is not `.`. */
  lemma ConservativeExactlyUnlessRoot(pattern: string)
    ensures (forall other :: !IsRootPattern(other) ==> ConservativeAgainst(pattern, other)) <==> !IsRootPattern(pattern)
  {
    if IsRootPattern(pattern) {
      RootPatternMissesOverlap(pattern);
      assert Trim("src/") == "src/";
      assert !ConservativeAgainst(pattern, "src/");
    } else {
      forall other | !IsRootPattern(other) ensures ConservativeAgainst(pattern, other) {
        if text :| CoverBoth(pattern, other, text) {
          OverlapIsConservative(pattern, other, text);
        }
      }
    }
  }

  predicate IsLiteral(ts: seq<Tok>) {
    forall i :: 0 <= i < |ts| ==> ts[i].Lit?
  }

  /** A shortest accepted text: every star left empty. */
  function Shortest(ts: seq<Tok>): string {
    if ts == [] then ""
    else match ts[0]
      case Lit(c) => [c] + Shortest(ts[1..])
      case Question => "x" + Shortest(ts[1..])
      case _ => Shortest(ts[1..])
  }

  lemma {:induction false} ShortestIsAccepted(ts: seq<Tok>)
    ensures Accepts(ts, Shortest(ts))
  {
    if ts != [] {
      ShortestIsAccepted(ts[1..]);
      if ts[0].IsStar() {
        StarAcceptsRest(ts, Shortest(ts));
      } else {
        assert Shortest(ts)[1..] == Shortest(ts[1..]);
      }
    }
  }

  lemma {:induction false} ShortestIsShortest(ts: seq<Tok>, text: string)
    requires Accepts(ts, text)
    ensures |text| >= |Shortest(ts)|
    decreases |ts|
  {
    if ts != [] {
      if ts[0].IsStar() {
        var k :| 0 <= k <= |text| && Passes(ts[0], text[..k]) && Accepts(ts[1..], text[k..]);
        ShortestIsShortest(ts[1..], text[k..]);
      } else {
        ShortestIsShortest(ts[1..], text[1..]);
      }
    }
  }

  lemma LiteralAcceptsOnlyItself(ts: seq<Tok>, text: string)
    requires IsLiteral(ts)
    ensures Accepts(ts, text) <==> ts == Literals(text)
  {
    var spelled := seq(|ts|, i requires 0 <= i < |ts| => ts[i].c);
    assert ts == Literals(spelled);
    LiteralsAccept(spelled, text);
    if ts == Literals(text) {
      forall i | 0 <= i < |text| ensures text[i] == spelled[i] { assert Literals(text)[i] == ts[i]; }
      assert text == spelled;
    }
  }

  /** The two operations read a pattern alike exactly when it is not `.` and, if it names a
      directory, the name has no wildcard. */
  lemma ReadAlikeExactlyWhenLiteralDirectory(pattern: string)
    ensures (forall text :: Covers(pattern, text) <==> MayCover(pattern, text)) <==>
            !IsRootPattern(pattern) && (IsDirectory(pattern) ==> IsLiteral(Tokens(pattern)))
  {
    var body := Tokens(pattern);
    if IsRootPattern(pattern) {
      assert NormalizePath(pattern) == ".";
      assert body == [Lit('.')] + Lex("."[1..]) == Literals(".");
      LiteralsAccept(".", "");
      assert Covers(pattern, "") && !MayCover(pattern, "");
    } else if !IsDirectory(pattern) {
    } else if IsLiteral(body) {
      forall text ensures Covers(pattern, text) <==> MayCover(pattern, text) {
        LiteralAcceptsOnlyItself(body, text);
      }
    } else {
      var text := Shortest(body);
      ShortestIsAccepted(body);
      forall k | 0 <= k < |text| ensures !Accepts(body, text[..k]) {
        if Accepts(body, text[..k]) { ShortestIsShortest(body, text[..k]); }
      }
      assert body != Literals(text);
      assert MayCover(pattern, text) && !Covers(pattern, text);
    }
  }

  /** Between patterns read alike the overlap test is exact: it finds a shared path if and
      only if there is one. */
  lemma OverlapIsExact(a: string, b: string)
    requires !IsRootPattern(a) && (IsDirectory(a) ==> IsLiteral(Tokens(a)))
    requires !IsRootPattern(b) && (IsDirectory(b) ==> IsLiteral(Tokens(b)))
    ensures Overlap(a, b) <==> exists text :: CoverBoth(a, b, text)
  {
    ReadAlikeExactlyWhenLiteralDirectory(a);
    ReadAlikeExactlyWhenLiteralDirectory(b);
    if text :| MayCoverBoth(a, b, text) { assert CoverBoth(a, b, text); }
    if text :| CoverBoth(a, b, text) { assert MayCoverBoth(a, b, text); }
  }
}
