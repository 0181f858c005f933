/** Path patterns in terms of characters: what normalising takes away, and which paths a pattern
    covers, without its tokens. Models crates/gaviero-core/src/path_pattern.rs and `normalize_path`
    of crates/gaviero-core/src/types.rs. */
module PathText {
  import opened Text
  import opened PathPattern
  import opened PathMatch

  // ---------------------------------------------------------------------------
  // Normalising

  /** White space around the text, and one `./` in front of it, go; nothing else does. */
  lemma NormalizedInCharacters(before: string, p: string, after: string)
    requires IsBlank(before) && IsBlank(after) && IsTrimmed(p)
    ensures !("./" <= p) ==> NormalizePath(before + p + after) == p
    ensures p != "" ==> NormalizePath(before + "./" + p + after) == p
  {
    TrimOfPadded(before, p, after);
    if p != "" {
      assert before + "./" + p + after == before + ("./" + p) + after;
      TrimOfPadded(before, "./" + p, after);
      assert ("./" + p)[2..] == p;
    }
  }

  /** A pattern or path that is nothing but `./` means the empty path. */
  lemma BareDotSlash(before: string, after: string)
    requires IsBlank(before) && IsBlank(after)
    ensures NormalizePath(before + "./" + after) == ""
  {
    TrimOfPadded(before, "./", after);
  }

  /** Two spellings that normalise alike and are or are not `.` alike. */
  lemma SameSpelling(a: string, b: string, text: string)
    requires NormalizePath(a) == NormalizePath(b)
    ensures MayCover(a, text) <==> MayCover(b, text)
    ensures (IsRootPattern(a) <==> IsRootPattern(b)) ==> (Covers(a, text) <==> Covers(b, text))
  {
    hide NormalizePath, Lex, PatternBody, IsDirectoryText, Accepts, Under;
  }

  /** White space around a pattern and a `./` before it change neither what `matches` nor what the
      overlap test takes it to cover, but for `./.`, which is not the whole workspace. */
  lemma RespelledPattern(before: string, p: string, after: string, text: string)
    requires IsBlank(before) && IsBlank(after) && IsTrimmed(p) && p != "" && !("./" <= p)
    ensures Covers(before + p + after, text) <==> Covers(p, text)
    ensures MayCover(before + p + after, text) <==> MayCover(p, text)
    ensures p != "." ==> (Covers(before + "./" + p + after, text) <==> Covers(p, text))
    ensures MayCover(before + "./" + p + after, text) <==> MayCover(p, text)
    ensures IsRootPattern(before + p + after) <==> p == "."
    ensures !IsRootPattern(before + "./" + p + after)
  {
    hide *;
    SpelledAlike(before, p, after);
    SameSpelling(before + p + after, p, text);
    SameSpelling(before + "./" + p + after, p, text);
  }

  lemma SpelledAlike(before: string, p: string, after: string)
    requires IsBlank(before) && IsBlank(after) && IsTrimmed(p) && p != "" && !("./" <= p)
    ensures NormalizePath(before + p + after) == NormalizePath(before + "./" + p + after) == NormalizePath(p) == p
    ensures IsRootPattern(before + p + after) <==> p == "."
    ensures IsRootPattern(p) <==> p == "."
    ensures !IsRootPattern(before + "./" + p + after)
  {
    assert "" + p + "" == p && IsBlank("");
    assert before + "./" + p + after == before + ("./" + p) + after;
    hide IsBlank, Trim, NormalizePath;
    NormalizedInCharacters(before, p, after);
    NormalizedInCharacters("", p, "");
    TrimOfPadded(before, p, after);
    TrimOfPadded("", p, "");
    TrimOfPadded(before, "./" + p, after);
  }

  /** A second `./` stays. */
  lemma OneDotSlashGoes(before: string, p: string, after: string)
    requires IsBlank(before) && IsBlank(after) && IsTrimmed(p) && p != ""
    ensures NormalizePath(before + "././" + p + after) == "./" + p
  {
    assert before + "././" + p + after == before + "./" + ("./" + p) + after;
    NormalizedInCharacters(before, "./" + p, after);
  }

  // ---------------------------------------------------------------------------
  // Wildcards

  /** The reference: `**` stands for any text, `*` for any text without a slash, `?` for one
      character that is no slash, every other character for itself. */
  ghost predicate Glob(p: string, text: string)
    decreases |p|
  {
    if p == "" then text == ""
    else if p[0] == '*' && |p| > 1 && p[1] == '*' then
      exists k :: 0 <= k <= |text| && Glob(p[2..], text[k..])
    else if p[0] == '*' then
      exists k :: 0 <= k <= |text| && '/' !in text[..k] && Glob(p[1..], text[k..])
    else if p[0] == '?' then text != "" && text[0] != '/' && Glob(p[1..], text[1..])
    else text != "" && text[0] == p[0] && Glob(p[1..], text[1..])
  }

  /** The tokens of a pattern accept exactly the texts that its characters stand for. */
  lemma {:induction false} TokensMeanCharacters(p: string, text: string)
    ensures Accepts(Lex(p), text) <==> Glob(p, text)
    decreases |p|
  {
    if p == "" {
    } else if p[0] == '*' {
      var n := if |p| > 1 && p[1] == '*' then 2 else 1;
      LexStar(p);
      var ts, rest := Lex(p), p[n..];
      forall k | 0 <= k <= |text| ensures Accepts(Lex(rest), text[k..]) <==> Glob(rest, text[k..]) {
        TokensMeanCharacters(rest, text[k..]);
      }
      hide Lex;
      assert ts[1..] == Lex(rest);
    } else {
      LexPlain(p);
      if text != "" { TokensMeanCharacters(p[1..], text[1..]); }
      AcceptsChar(Lex(p), text);
      hide Lex, Accepts;
    }
  }

  lemma LexStar(p: string)
    requires p != "" && p[0] == '*'
    ensures Lex(p) == if |p| > 1 && p[1] == '*' then [StarStar] + Lex(p[2..]) else [Star] + Lex(p[1..])
  {
  }

  lemma LexPlain(p: string)
    requires p != "" && p[0] != '*'
    ensures Lex(p) != [] && Lex(p)[0] == (if p[0] == '?' then Question else Lit(p[0])) && Lex(p)[1..] == Lex(p[1..])
  {
  }

  predicate HasWildcard(p: string) {
    exists i :: 0 <= i < |p| && (p[i] == '*' || p[i] == '?')
  }

  lemma WildcardBehind(p: string)
    requires p != "" && p[0] != '*'
    ensures HasWildcard(p) <==> p[0] == '?' || HasWildcard(p[1..])
  {
    if i :| 0 <= i < |p| && (p[i] == '*' || p[i] == '?') { if i > 0 { assert p[1..][i - 1] == p[i]; } }
    if i :| 0 <= i < |p[1..]| && (p[1..][i] == '*' || p[1..][i] == '?') { assert p[i + 1] == p[1..][i]; }
  }

  lemma LiteralHead(tok: Tok, ts: seq<Tok>, text: string)
    ensures [tok] + ts == Literals(text) <==> text != "" && tok == Lit(text[0]) && ts == Literals(text[1..])
  {
    if text != "" {
      assert Literals(text) == [Lit(text[0])] + Literals(text[1..]);
      assert ([tok] + ts)[0] == tok && ([tok] + ts)[1..] == ts;
      assert Literals(text)[0] == Lit(text[0]) && Literals(text)[1..] == Literals(text[1..]);
    } else {
      assert Literals(text) == [];
    }
  }

  lemma StarIsNoLiteral(p: string, text: string)
    requires p != "" && p[0] == '*'
    ensures Lex(p) != Literals(text) && HasWildcard(p)
  {
    LexStar(p);
    assert Lex(p)[0].IsStar();
  }

  lemma LexOfPlain(p: string)
    requires p != "" && p[0] != '*'
    ensures Lex(p) == [if p[0] == '?' then Question else Lit(p[0])] + Lex(p[1..])
  {
  }

  lemma LexOfEmpty(text: string)
    ensures Lex("") == Literals(text) <==> text == ""
    ensures !HasWildcard("")
  {
    assert Lex("") == [];
  }

  lemma SameText(p: string, text: string)
    requires p != "" && text != ""
    ensures p == text <==> p[0] == text[0] && p[1..] == text[1..]
  {
    assert p == [p[0]] + p[1..] && text == [text[0]] + text[1..];
  }

  lemma {:induction false} LiteralTokens(p: string, text: string)
    ensures Lex(p) == Literals(text) <==> p == text && !HasWildcard(p)
    decreases |p|
  {
    hide *;
    if p == "" {
      LexOfEmpty(text);
    } else if p[0] == '*' {
      StarIsNoLiteral(p, text);
    } else {
      LexOfPlain(p);
      LiteralHead(if p[0] == '?' then Question else Lit(p[0]), Lex(p[1..]), text);
      if text != "" {
        LiteralTokens(p[1..], text[1..]);
        SameText(p, text);
        WildcardBehind(p);
      }
    }
  }

  // ---------------------------------------------------------------------------
  // Patterns in characters

  function Slashes(n: nat): string {
    if n == 0 then "" else Slashes(n - 1) + "/"
  }

  lemma {:induction false} SlashesTrimmed(name: string, n: nat)
    requires name == "" || name[|name| - 1] != '/'
    ensures |Slashes(n)| == n && TrimEndSlashes(name + Slashes(n)) == name
    ensures n > 0 ==> (name + Slashes(n))[|name + Slashes(n)| - 1] == '/'
  {
    if n == 0 {
      assert name + "" == name;
    } else {
      SlashesTrimmed(name, n - 1);
      assert (name + Slashes(n))[..|name + Slashes(n)| - 1] == name + Slashes(n - 1);
    }
  }

  /** A slash at the end, unless it is the whole pattern, makes it a directory. */
  predicate NamesDirectory(name: string, n: nat) {
    n > 0 && (name != "" || n > 1)
  }

  /** The text lies below a directory that the name stands for. */
  ghost predicate Below(name: string, text: string) {
    exists k :: 0 <= k < |text| && text[k] == '/' && Glob(name, text[..k])
  }

  lemma BelowIsUnder(name: string, text: string)
    ensures Under(Lex(name), text) <==> Below(name, text)
  {
    forall k | 0 <= k < |text| ensures Accepts(Lex(name), text[..k]) <==> Glob(name, text[..k]) {
      TokensMeanCharacters(name, text[..k]);
    }
    hide Lex, Glob, Accepts;
  }

  lemma CompiledName(pattern: string, name: string, n: nat)
    requires NormalizePath(pattern) == name + Slashes(n) && (name == "" || name[|name| - 1] != '/')
    ensures IsDirectory(pattern) <==> NamesDirectory(name, n)
    ensures Tokens(pattern) == Lex(if NamesDirectory(name, n) then name else name + Slashes(n))
  {
    SlashesTrimmed(name, n);
    if n == 0 { assert name + Slashes(n) == name; }
    if name == "" && n == 1 { assert Slashes(1) == Slashes(0) + "/" == "/"; }
    hide Lex, NormalizePath, Slashes, TrimEndSlashes;
  }

  /** What a pattern covers, by its characters: any path for `.`; for a name with slashes behind it
      the bare name, read as `matches` does without wildcards, and everything below; else what the
      characters stand for. White space around it and a `./` before it are no part of it. */
  lemma CoversInCharacters(before: string, dot: bool, name: string, n: nat, after: string, text: string)
    requires IsBlank(before) && IsBlank(after) && (name == "" || name[|name| - 1] != '/')
    requires IsTrimmed(name + Slashes(n)) && name + Slashes(n) != "" && !("./" <= name + Slashes(n))
    ensures var pattern := before + (if dot then "./" else "") + (name + Slashes(n)) + after;
            && (Covers(pattern, text) <==>
                  if !dot && name == "." && n == 0 then true
                  else if NamesDirectory(name, n) then (text == name && !HasWildcard(name)) || Below(name, text)
                  else Glob(name + Slashes(n), text))
            && (MayCover(pattern, text) <==>
                  if NamesDirectory(name, n) then Glob(name, text) || Below(name, text)
                  else Glob(name + Slashes(n), text))
  {
    var core := name + Slashes(n);
    var pattern := before + (if dot then "./" else "") + core + after;
    assert before + "" + core + after == before + core + after;
    SpelledAlike(before, core, after);
    CoreIsDot(name, n);
    hide NormalizePath, IsTrimmed, IsBlank, Slashes;
    CompiledName(pattern, name, n);
    BelowIsUnder(name, text);
    LiteralTokens(name, text);
    TokensMeanCharacters(name, text);
    TokensMeanCharacters(core, text);
    hide Lex, Accepts, Glob, Below, Under, HasWildcard, IsRootPattern, Tokens, IsDirectory;
  }

  lemma CoreIsDot(name: string, n: nat)
    requires name == "" || name[|name| - 1] != '/'
    ensures name + Slashes(n) == "." <==> name == "." && n == 0
  {
    SlashesTrimmed(name, n);
    if n > 0 { assert (name + Slashes(n))[|name + Slashes(n)| - 1] == '/'; } else { assert name + Slashes(0) == name; }
  }

  /** A path is compared in its normalised spelling, so that padding and a `./` do not matter. */
  lemma RespelledPath(before: string, p: string, after: string, pattern: string)
    requires IsBlank(before) && IsBlank(after) && IsTrimmed(p) && p != "" && !("./" <= p)
    ensures Covers(pattern, NormalizePath(before + p + after)) <==> Covers(pattern, p)
    ensures Covers(pattern, NormalizePath(before + "./" + p + after)) <==> Covers(pattern, p)
  {
    hide *;
    SpelledAlike(before, p, after);
  }
}
