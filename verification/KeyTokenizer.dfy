/** The lenient tokenizer of the settings-key scanner. Models `tokenize` of
    crates/gaviero-core/src/settings_overrides.rs. */
module KeyTokenizer {
  import opened Json
  import opened Text

  datatype Tok = Open(isArray: bool) | Close | Colon | Comma | Str(s: string) | Other

  datatype Token = Token(tok: Tok, line: nat, startCol: nat, endCol: nat)

  // ---------------------------------------------------------------------------
  // Positions

  /** The number of line feeds before offset `i`. */
  function LineOf(text: string, i: nat): nat
    requires i <= |text|
  {
    if i == 0 then 0 else LineOf(text, i - 1) + if text[i - 1] == '\n' then 1 else 0
  }

  /** The number of characters since the last line feed before offset `i`. */
  function ColOf(text: string, i: nat): nat
    requires i <= |text|
  {
    if i == 0 || text[i - 1] == '\n' then 0 else ColOf(text, i - 1) + 1
  }

  lemma {:induction false} AlongLine(text: string, i: nat, j: nat)
    requires i <= j <= |text| && forall k :: i <= k < j ==> text[k] != '\n'
    ensures LineOf(text, j) == LineOf(text, i) && ColOf(text, j) == ColOf(text, i) + (j - i)
    decreases j
  {
    if i < j { AlongLine(text, i, j - 1); }
  }

  // ---------------------------------------------------------------------------
  // The lexemes of a text, by offset

  datatype Lexeme = Lexeme(tok: Tok, from: nat, to: nat)

  function LineEnd(text: string, i: nat): (j: nat)
    requires i <= |text|
    ensures i <= j <= |text|
    ensures forall k :: i <= k < j ==> text[k] != '\n'
    ensures j < |text| ==> text[j] == '\n'
    decreases |text| - i
  {
    if i < |text| && text[i] != '\n' then LineEnd(text, i + 1) else i
  }

  /** Where the block comment that is open at `i` ends, or the end of the text. */
  function BlockEnd(text: string, i: nat): (j: nat)
    requires i <= |text|
    ensures i <= j <= |text|
    ensures j < |text| ==> text[j] == '*' && j + 1 < |text| && text[j + 1] == '/'
    decreases |text| - i
  {
    if i < |text| && !(text[i] == '*' && i + 1 < |text| && text[i + 1] == '/') then BlockEnd(text, i + 1) else i
  }

  predicate Escapes(text: string, i: nat)
    requires i < |text|
  {
    text[i] == '\\' && i + 1 < |text| && text[i + 1] != '\n'
  }

  /** Where the string whose content starts at `i` stops: a quote, a line feed or the end. */
  function StringStop(text: string, i: nat): (j: nat)
    requires i <= |text|
    ensures i <= j <= |text|
    ensures forall k :: i <= k < j ==> text[k] != '\n'
    ensures j < |text| ==> text[j] == '"' || text[j] == '\n'
    decreases |text| - i
  {
    if i < |text| && text[i] != '"' && text[i] != '\n' then StringStop(text, if Escapes(text, i) then i + 2 else i + 1)
    else i
  }

  function StringValue(text: string, i: nat): string
    requires i <= |text|
    decreases |text| - i
  {
    if i < |text| && text[i] != '"' && text[i] != '\n' then
      if Escapes(text, i) then [text[i + 1]] + StringValue(text, i + 2) else [text[i]] + StringValue(text, i + 1)
    else ""
  }

  function StringEnd(text: string, i: nat): (j: nat)
    requires i <= |text|
    ensures i <= j <= |text|
    ensures forall k :: i <= k < j ==> text[k] != '\n'
  {
    var stop := StringStop(text, i);
    if stop < |text| && text[stop] == '"' then stop + 1 else stop
  }

  function MarkOf(c: char): Tok {
    match c
    case '{' => Open(false)
    case '[' => Open(true)
    case '}' => Close
    case ']' => Close
    case ':' => Colon
    case ',' => Comma
    case _ => Other
  }

  predicate At(text: string, i: nat, c: char) {
    i < |text| && text[i] == c
  }

  /** One turn of the tokenizer's loop at offset `i`: the lexeme found there, if any, and where
      the next turn starts. */
  function LexStep(text: string, i: nat): (step: (Option<Lexeme>, nat))
    requires i < |text|
    ensures step.1 > i
    ensures step.0.Some? ==>
              var l := step.0.value;
              l.from == i && l.to == step.1 <= |text| && (l.tok.Str? <==> text[i] == '"') &&
              forall c :: l.from <= c < l.to ==> text[c] != '\n'
  {
    if IsWhitespace(text[i]) then (None, i + 1)
    else if text[i] == '/' && At(text, i + 1, '/') then (None, LineEnd(text, i))
    else if text[i] == '/' && At(text, i + 1, '*') then (None, BlockEnd(text, i + 2) + 2)
    else if text[i] == '"' then
      (Some(Lexeme(Str(StringValue(text, i + 1)), i, StringEnd(text, i + 1))), StringEnd(text, i + 1))
    else (Some(Lexeme(MarkOf(text[i]), i, i + 1)), i + 1)
  }

  function Lex(text: string, i: nat): seq<Lexeme>
    decreases |text| - i
  {
    if i >= |text| then []
    else
      var (found, next) := LexStep(text, i);
      if found.Some? then [found.value] + Lex(text, next) else Lex(text, next)
  }

  /** The lexemes are non-empty, in order, disjoint, inside the text and never span a line
      break, whatever comments, escapes and unterminated strings the text holds. */
  ghost predicate InOrder(text: string, lexemes: seq<Lexeme>, start: nat) {
    && (forall k :: 0 <= k < |lexemes| ==> start <= lexemes[k].from < lexemes[k].to <= |text|)
    && (forall k, m :: 0 <= k < m < |lexemes| ==> lexemes[k].to <= lexemes[m].from)
    && (forall k, c :: 0 <= k < |lexemes| && lexemes[k].from <= c < lexemes[k].to ==> text[c] != '\n')
    && (forall k :: 0 <= k < |lexemes| ==> (lexemes[k].tok.Str? <==> text[lexemes[k].from] == '"'))
  }

  lemma InOrderCons(text: string, head: Lexeme, tail: seq<Lexeme>, start: nat)
    requires start <= head.from < head.to <= |text| && InOrder(text, tail, head.to)
    requires forall c :: head.from <= c < head.to ==> text[c] != '\n'
    requires head.tok.Str? <==> text[head.from] == '"'
    ensures InOrder(text, [head] + tail, start)
  {
  }

  lemma {:induction false} LexIsInOrder(text: string, i: nat)
    ensures InOrder(text, Lex(text, i), i)
    decreases |text| - i
  {
    if i < |text| {
      var (found, next) := LexStep(text, i);
      LexIsInOrder(text, next);
      if found.Some? {
        InOrderCons(text, found.value, Lex(text, next), i);
      }
    }
  }

  // ---------------------------------------------------------------------------
  // The tokenizer

  /** A token placed by the true position of its first character. */
  function Place(text: string, l: Lexeme): Token
    requires l.from < l.to <= |text|
  {
    Token(l.tok, LineOf(text, l.from), ColOf(text, l.from), ColOf(text, l.from) + (l.to - l.from))
  }

  function PlaceAll(text: string, lexemes: seq<Lexeme>): seq<Token>
    requires InOrder(text, lexemes, 0)
  {
    seq(|lexemes|, k requires 0 <= k < |lexemes| => Place(text, lexemes[k]))
  }

  function Tokens(text: string): seq<Token> {
    LexIsInOrder(text, 0);
    PlaceAll(text, Lex(text, 0))
  }

  method SkipBlockComment(text: string, start: nat, startLine: nat, startCol: nat) returns (i: nat, line: nat, col: nat)
    requires start <= |text| && startLine == LineOf(text, start) && startCol == ColOf(text, start)
    ensures i == BlockEnd(text, start)
    ensures line == LineOf(text, i) && col == ColOf(text, i)
  {
    i, line, col := start, startLine, startCol;
    while i < |text| && !(text[i] == '*' && i + 1 < |text| && text[i + 1] == '/')
      invariant start <= i <= |text| && BlockEnd(text, start) == BlockEnd(text, i)
      invariant line == LineOf(text, i) && col == ColOf(text, i)
    {
      if text[i] == '\n' {
        line := line + 1;
        col := 0;
      } else {
        col := col + 1;
      }
      i := i + 1;
    }
  }

  predicate Stops(text: string, i: nat) {
    i >= |text| || text[i] == '"' || text[i] == '\n'
  }

  lemma StringStep(text: string, i: nat)
    requires !Stops(text, i)
    ensures var n := if Escapes(text, i) then 2 else 1;
            && i + n <= |text| && StringStop(text, i) == StringStop(text, i + n)
            && StringValue(text, i) == [text[i + n - 1]] + StringValue(text, i + n)
  {
  }

  lemma StringIsOver(text: string, i: nat)
    requires i <= |text| && Stops(text, i)
    ensures StringStop(text, i) == i && StringValue(text, i) == ""
  {
  }

  lemma ValueGrows(s: string, c: char, rest: string)
    ensures s + ([c] + rest) == s + [c] + rest
  {
  }

  method ScanString(text: string, start: nat, startCol: nat) returns (s: string, i: nat, col: nat)
    requires start <= |text|
    ensures s == StringValue(text, start) && i == StringEnd(text, start)
    ensures col == startCol + (i - start)
  {
    hide StringStop, StringValue;
    s, i, col := "", start, startCol;
    while i < |text| && text[i] != '"' && text[i] != '\n'
      invariant start <= i <= |text| && col == startCol + (i - start)
      invariant s + StringValue(text, i) == StringValue(text, start)
      invariant StringStop(text, i) == StringStop(text, start)
    {
      StringStep(text, i);
      if text[i] == '\\' && i + 1 < |text| && text[i + 1] != '\n' {
        ValueGrows(s, text[i + 1], StringValue(text, i + 2));
        s := s + [text[i + 1]];
        i := i + 2;
        col := col + 2;
      } else {
        ValueGrows(s, text[i], StringValue(text, i + 1));
        s := s + [text[i]];
        i := i + 1;
        col := col + 1;
      }
    }
    StringIsOver(text, i);
    if i < |text| && text[i] == '"' {
      i := i + 1;
      col := col + 1;
    }
  }

  /** The running column is the true one, except where the next character is a line feed. */
  ghost predicate Positioned(text: string, i: nat, line: nat, col: nat) {
    && (i <= |text| ==> line == LineOf(text, i))
    && (i < |text| && text[i] != '\n' ==> col == ColOf(text, i))
  }

  lemma AfterLineFeed(text: string, i: nat)
    requires i < |text| && text[i] == '\n'
    ensures LineOf(text, i + 1) == LineOf(text, i) + 1 && ColOf(text, i + 1) == 0
  {
  }

  lemma AfterCharacter(text: string, i: nat)
    requires i < |text| && text[i] != '\n'
    ensures LineOf(text, i + 1) == LineOf(text, i) && ColOf(text, i + 1) == ColOf(text, i) + 1
  {
  }

  method SkipLine(text: string, start: nat) returns (i: nat)
    requires start <= |text|
    ensures i == LineEnd(text, start)
  {
    i := start;
    while i < |text| && text[i] != '\n'
      invariant start <= i <= |text| && LineEnd(text, start) == LineEnd(text, i)
    {
      i := i + 1;
    }
  }

  /** One turn of the loop. */
  method Advance(text: string, from: nat, fromLine: nat, fromCol: nat)
    returns (token: Option<Token>, i: nat, line: nat, col: nat)
    requires from < |text| && Positioned(text, from, fromLine, fromCol)
    ensures i == LexStep(text, from).1
    ensures token == if LexStep(text, from).0.Some? then Some(Place(text, LexStep(text, from).0.value)) else None
    ensures Positioned(text, i, line, col)
  {
    hide LineOf, ColOf, LineEnd, BlockEnd, StringEnd, StringValue, MarkOf;
    token, i, line, col := None, from, fromLine, fromCol;
    var c := text[i];
    var start := col;
    if c == '\n' {
      AfterLineFeed(text, i);
      line := line + 1;
      col := 0;
      i := i + 1;
    } else if IsWhitespace(c) {
      AfterCharacter(text, i);
      i := i + 1;
      col := col + 1;
    } else if c == '/' && At(text, i + 1, '/') {
      i := SkipLine(text, i);
      AlongLine(text, from, i);
    } else if c == '/' && At(text, i + 1, '*') {
      AlongLine(text, i, i + 2);
      i, line, col := SkipBlockComment(text, i + 2, line, col + 2);
      if i < |text| {
        AlongLine(text, i, i + 2);
      }
      i := i + 2;
      col := col + 2;
    } else if c == '"' {
      var s;
      s, i, col := ScanString(text, i + 1, col + 1);
      AlongLine(text, from, i);
      token := Some(Token(Str(s), line, start, col));
    } else {
      AfterCharacter(text, i);
      token := Some(Token(MarkOf(c), line, start, start + 1));
      i := i + 1;
      col := col + 1;
    }
  }

  lemma StartIsPositioned(text: string)
    ensures Positioned(text, 0, 0, 0)
  {
  }

  lemma LexUnfold(text: string, i: nat)
    requires i < |text|
    ensures var (found, next) := LexStep(text, i);
            if found.Some? then Lex(text, i) != [] && Lex(text, i)[0] == found.value && Lex(text, i)[1..] == Lex(text, next)
            else Lex(text, i) == Lex(text, next)
  {
    hide LexStep;
  }

  lemma LexIsOver(text: string, i: nat)
    requires i >= |text|
    ensures Lex(text, i) == []
  {
  }

  /** Its running line and column are the true positions, although a line comment leaves the
      column behind until the next line break. */
  method Tokenize(text: string) returns (out: seq<Token>)
    ensures out == Tokens(text)
  {
    hide Lex, LexStep, Positioned, LineOf, ColOf, Place;
    out := [];
    var i: nat, line: nat, col: nat := 0, 0, 0;
    StartIsPositioned(text);
    LexIsInOrder(text, 0);
    ghost var all := Lex(text, 0);
    while i < |text|
      invariant Positioned(text, i, line, col)
      invariant |out| <= |all| && all[|out|..] == Lex(text, i)
      invariant forall k :: 0 <= k < |out| ==> out[k] == Place(text, all[k])
      decreases |text| - i
    {
      ghost var rest := Lex(text, i);
      LexUnfold(text, i);
      var token;
      token, i, line, col := Advance(text, i, line, col);
      if token.Some? {
        assert all[|out|] == rest[0] && all[|out| + 1..] == rest[1..];
        out := out + [token.value];
      }
    }
    LexIsOver(text, i);
  }

  /** For any text every token carries the line and column of its first character, its end
      column is that of the character after its last, and tokens follow one another. */
  lemma TokensArePlaced(text: string)
    returns (from: seq<nat>, to: seq<nat>)
    ensures |from| == |to| == |Tokens(text)|
    ensures forall k :: 0 <= k < |from| ==>
              && from[k] < to[k] <= |text|
              && Tokens(text)[k].line == LineOf(text, from[k]) == LineOf(text, to[k])
              && Tokens(text)[k].startCol == ColOf(text, from[k]) && Tokens(text)[k].endCol == ColOf(text, to[k])
              && (Tokens(text)[k].tok.Str? <==> text[from[k]] == '"')
    ensures forall k, m :: 0 <= k < m < |from| ==> to[k] <= from[m]
  {
    var lexemes := Lex(text, 0);
    LexIsInOrder(text, 0);
    from := seq(|lexemes|, k requires 0 <= k < |lexemes| => lexemes[k].from);
    to := seq(|lexemes|, k requires 0 <= k < |lexemes| => lexemes[k].to);
    forall k | 0 <= k < |from|
      ensures LineOf(text, to[k]) == LineOf(text, from[k]) && ColOf(text, to[k]) == ColOf(text, from[k]) + (to[k] - from[k])
    {
      AlongLine(text, from[k], to[k]);
    }
  }
}
