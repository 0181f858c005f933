/** The key scanner on the text of JSON documents (RFC 8259): what it reads, and when that is what
    the document says. Models crates/gaviero-core/src/settings_overrides.rs. */
module KeyDocuments {
  import opened Json
  import opened Text
  import opened KeyTokenizer
  import opened KeySpans

  // ---------------------------------------------------------------------------
  // From text to tokens

  /** What JSON text is made of: white space, single characters, and quoted strings; and the
      comments that settings files may hold besides. */
  datatype Item = Space(c: char) | Mark(c: char) | Quoted(raw: string) | LineComment(body: string) | BlockComment(body: string)

  predicate WellQuoted(raw: string) {
    if raw == "" then true
    else if raw[0] == '\\' then |raw| > 1 && raw[1] != '\n' && WellQuoted(raw[2..])
    else raw[0] != '"' && raw[0] != '\n' && WellQuoted(raw[1..])
  }

  /** The tokenizer's reading of escapes: the escaped character stands for itself. */
  function Unescaped(raw: string): (value: string)
    requires WellQuoted(raw)
  {
    if raw == "" then ""
    else if raw[0] == '\\' then [raw[1]] + Unescaped(raw[2..])
    else [raw[0]] + Unescaped(raw[1..])
  }

  predicate GoodItem(item: Item) {
    match item
    case Space(c) => IsWhitespace(c)
    case Mark(c) => !IsWhitespace(c) && c != '"' && c != '/'
    case Quoted(raw) => WellQuoted(raw)
    case LineComment(body) => '\n' !in body
    case BlockComment(body) => forall k :: 0 <= k < |body| - 1 && body[k] == '*' ==> body[k + 1] != '/'
  }

  function ItemText(item: Item): string {
    match item
    case Space(c) => [c]
    case Mark(c) => [c]
    case Quoted(raw) => "\"" + raw + "\""
    case LineComment(body) => "//" + body
    case BlockComment(body) => "/*" + body + "*/"
  }

  function Written(items: seq<Item>): string {
    if items == [] then "" else ItemText(items[0]) + Written(items[1..])
  }

  function ItemTok(item: Item): seq<Tok>
    requires GoodItem(item)
  {
    match item
    case Mark(c) => [MarkOf(c)]
    case Quoted(raw) => [Str(Unescaped(raw))]
    case _ => []
  }

  /** A line comment runs to the end of its line. */
  predicate GoodItems(items: seq<Item>) {
    items == [] ||
    (GoodItem(items[0]) && (items[0].LineComment? ==> LineIsOver(items[1..])) && GoodItems(items[1..]))
  }

  predicate LineIsOver(items: seq<Item>) {
    items == [] || items[0] == Space('\n')
  }

  function ItemToks(items: seq<Item>): seq<Tok>
    requires GoodItems(items)
  {
    if items == [] then [] else ItemTok(items[0]) + ItemToks(items[1..])
  }

  lemma {:induction false} QuotedStops(text: string, i: nat, raw: string, rest: string)
    requires i <= |text| && text[i..] == raw + "\"" + rest && WellQuoted(raw)
    ensures StringStop(text, i) == i + |raw| && StringValue(text, i) == Unescaped(raw)
    decreases |raw|
  {
    if raw == "" {
      assert text[i] == text[i..][0] == '"';
    } else {
      var n := if raw[0] == '\\' then 2 else 1;
      assert text[i] == text[i..][0] == raw[0];
      if n == 2 { assert text[i + 1] == text[i..][1] == raw[1]; }
      assert text[i + n..] == text[i..][n..] == raw[n..] + "\"" + rest;
      QuotedStops(text, i + n, raw[n..], rest);
    }
  }

  function LexemeToks(lexemes: seq<Lexeme>): seq<Tok> {
    if lexemes == [] then [] else [lexemes[0].tok] + LexemeToks(lexemes[1..])
  }

  lemma {:induction false} LexemeToksAt(lexemes: seq<Lexeme>)
    ensures |LexemeToks(lexemes)| == |lexemes|
    ensures forall k :: 0 <= k < |lexemes| ==> LexemeToks(lexemes)[k] == lexemes[k].tok
  {
    if lexemes != [] { LexemeToksAt(lexemes[1..]); }
  }

  lemma {:induction false} BlockStops(text: string, i: nat, body: string, rest: string)
    requires i <= |text| && text[i..] == body + "*/" + rest && GoodItem(BlockComment(body))
    ensures BlockEnd(text, i) == i + |body| && i + |body| + 2 <= |text|
    decreases |body|
  {
    assert text[i] == text[i..][0] && text[i + 1] == text[i..][1];
    if body != "" {
      assert text[i + 1..] == text[i..][1..] == body[1..] + "*/" + rest;
      BlockStops(text, i + 1, body[1..], rest);
    }
  }

  lemma LineStops(text: string, i: nat, line: string, rest: string)
    requires i <= |text| && text[i..] == line + rest && '\n' !in line && (rest == "" || rest[0] == '\n')
    ensures LineEnd(text, i) == i + |line|
  {
    assert forall k :: 0 <= k < |line| ==> line[k] in line && text[i + k] == text[i..][k] == line[k];
    assert forall k :: i <= k < i + |line| ==> text[k] == line[k - i];
    if rest != "" { assert text[i + |line|] == text[i..][|line|] == rest[0]; }
  }

  lemma CommentStops(text: string, i: nat, item: Item, rest: string)
    requires (item.LineComment? || item.BlockComment?) && GoodItem(item)
    requires i <= |text| && text[i..] == ItemText(item) + rest
    requires item.LineComment? ==> rest == "" || rest[0] == '\n'
    ensures i + 1 < |text| && text[i] == '/' && text[i + 1] == (if item.LineComment? then '/' else '*')
    ensures item.LineComment? ==> LineEnd(text, i) == i + |ItemText(item)|
    ensures item.BlockComment? ==> BlockEnd(text, i + 2) + 2 == i + |ItemText(item)|
  {
    hide LineEnd, BlockEnd, GoodItem;
    if item.LineComment? {
      LineCommentStops(text, i, item.body, rest);
    } else {
      BlockCommentStops(text, i, item.body, rest);
    }
  }

  lemma TwoCharacters(text: string, i: nat, a: char, b: char, rest: string)
    requires i <= |text| && text[i..] == [a, b] + rest
    ensures i + 1 < |text| && text[i] == a && text[i + 1] == b && text[i + 2..] == rest
  {
    assert text[i] == text[i..][0] && text[i + 1] == text[i..][1] && text[i + 2..] == text[i..][2..];
  }

  lemma LineCommentStops(text: string, i: nat, body: string, rest: string)
    requires GoodItem(LineComment(body)) && i <= |text| && text[i..] == "//" + body + rest
    requires rest == "" || rest[0] == '\n'
    ensures i + 1 < |text| && text[i] == '/' && text[i + 1] == '/' && LineEnd(text, i) == i + 2 + |body|
  {
    hide LineEnd;
    assert "//" + body + rest == ['/', '/'] + (body + rest);
    TwoCharacters(text, i, '/', '/', body + rest);
    LineStops(text, i, "//" + body, rest);
  }

  lemma BlockCommentStops(text: string, i: nat, body: string, rest: string)
    requires GoodItem(BlockComment(body)) && i <= |text| && text[i..] == "/*" + body + "*/" + rest
    ensures i + 1 < |text| && text[i] == '/' && text[i + 1] == '*' && BlockEnd(text, i + 2) == i + 2 + |body|
  {
    hide BlockEnd, GoodItem;
    var tail := body + "*/" + rest;
    assert "/*" + body + "*/" + rest == ['/', '*'] + tail;
    TwoCharacters(text, i, '/', '*', tail);
    BlockStops(text, i + 2, body, rest);
  }

  lemma StepOfItem(text: string, i: nat, item: Item, rest: string)
    requires GoodItem(item) && i <= |text| && text[i..] == ItemText(item) + rest
    requires item.LineComment? ==> rest == "" || rest[0] == '\n'
    ensures i < |text| && LexStep(text, i).1 == i + |ItemText(item)|
    ensures ItemTok(item) == if LexStep(text, i).0.Some? then [LexStep(text, i).0.value.tok] else []
  {
    assert text[i] == text[i..][0] == ItemText(item)[0];
    hide StringStop, StringValue, Unescaped, WellQuoted, LineEnd, BlockEnd;
    if item.Quoted? { QuotedItemStops(text, i, item.raw, rest); }
    if item.LineComment? || item.BlockComment? { CommentStops(text, i, item, rest); }
  }

  lemma QuotedItemStops(text: string, i: nat, raw: string, rest: string)
    requires WellQuoted(raw) && i <= |text| && text[i..] == "\"" + raw + "\"" + rest
    ensures i + 1 + |raw| < |text| && text[i + 1 + |raw|] == '"'
    ensures StringStop(text, i + 1) == i + 1 + |raw| && StringValue(text, i + 1) == Unescaped(raw)
  {
    hide StringStop, StringValue, Unescaped, WellQuoted;
    assert text[i + 1..] == text[i..][1..] == raw + "\"" + rest;
    QuotedStops(text, i + 1, raw, rest);
    assert text[i + 1 + |raw|] == text[i..][1 + |raw|] == '"';
  }

  lemma RestOf(text: string, i: nat, a: string, b: string)
    requires i <= |text| && text[i..] == a + b
    ensures i + |a| <= |text| && text[i + |a|..] == b
  {
    assert text[i + |a|..] == text[i..][|a|..];
  }

  lemma LexUnfolds(text: string, i: nat)
    requires i < |text|
    ensures LexemeToks(Lex(text, i)) ==
            (if LexStep(text, i).0.Some? then [LexStep(text, i).0.value.tok] else []) + LexemeToks(Lex(text, LexStep(text, i).1))
  {
    var (found, next) := LexStep(text, i);
    if found.Some? {
      assert Lex(text, i) == [found.value] + Lex(text, next);
      assert Lex(text, i)[1..] == Lex(text, next);
    }
  }

  lemma LexAtEnd(text: string, i: nat)
    requires i == |text|
    ensures LexemeToks(Lex(text, i)) == []
  {
  }

  lemma LineIsOverInText(items: seq<Item>)
    requires LineIsOver(items)
    ensures Written(items) == "" || Written(items)[0] == '\n'
  {
  }

  lemma {:induction false} LexOfItems(text: string, i: nat, items: seq<Item>)
    requires GoodItems(items)
    requires i <= |text| && text[i..] == Written(items)
    ensures LexemeToks(Lex(text, i)) == ItemToks(items)
    decreases |items|
  {
    hide LexStep, Lex, LexemeToks, ItemText, ItemTok, GoodItem;
    if items == [] {
      LexAtEnd(text, i);
    } else {
      var written := Written(items[1..]);
      if items[0].LineComment? { LineIsOverInText(items[1..]); }
      StepOfItem(text, i, items[0], written);
      RestOf(text, i, ItemText(items[0]), written);
      LexUnfolds(text, i);
      LexOfItems(text, LexStep(text, i).1, items[1..]);
    }
  }

  // ---------------------------------------------------------------------------
  // What a quoted string means (section 7 of RFC 8259)

  /** The escapes whose letter does not stand for itself. */
  predicate IsNamed(letter: char) {
    letter in {'b', 'f', 'n', 'r', 't', 'u'}
  }

  /** Every escape is of a quote, a backslash or a slash. */
  predicate PlainEscapes(raw: string) {
    if raw == "" then true
    else if raw[0] == '\\' then |raw| > 1 && !IsNamed(raw[1]) && PlainEscapes(raw[2..])
    else PlainEscapes(raw[1..])
  }

  lemma HexIsPlain(c: char)
    requires HexValue(c).Some?
    ensures c != '\\' && c != '"' && c != '\n'
  {
  }

  lemma CodeUnitReadPlainly(raw: string)
    requires CodeUnit(raw).Some?
    ensures |raw| >= 4
    ensures WellQuoted(raw) <==> WellQuoted(raw[4..])
    ensures WellQuoted(raw) ==> |Unescaped(raw)| == 4 + |Unescaped(raw[4..])|
  {
    HexIsPlain(raw[0]);
    HexIsPlain(raw[1]);
    HexIsPlain(raw[2]);
    HexIsPlain(raw[3]);
    hide CodeUnit;
    OnePlain(raw);
    OnePlain(raw[1..]);
    OnePlain(raw[2..]);
    OnePlain(raw[3..]);
    assert raw[1..][1..] == raw[2..] && raw[2..][1..] == raw[3..] && raw[3..][1..] == raw[4..];
  }

  lemma OnePlain(raw: string)
    requires raw != "" && raw[0] != '\\' && raw[0] != '"' && raw[0] != '\n'
    ensures WellQuoted(raw) <==> WellQuoted(raw[1..])
    ensures WellQuoted(raw) ==> Unescaped(raw) == [raw[0]] + Unescaped(raw[1..])
  {
  }

  lemma OneEscape(raw: string)
    requires |raw| >= 2 && raw[0] == '\\' && raw[1] != '\n'
    ensures WellQuoted(raw) <==> WellQuoted(raw[2..])
    ensures WellQuoted(raw) ==> Unescaped(raw) == [raw[1]] + Unescaped(raw[2..])
  {
  }

  /** The tokenizer reads a `\u` escape as five or eleven characters. */
  lemma UnicodeEscapeReadPlainly(raw: string)
    requires UnicodeEscape(raw).Some?
    ensures var n := UnicodeEscape(raw).value.1;
            && 4 <= n <= |raw|
            && (WellQuoted(raw) <==> WellQuoted(raw[n..]))
            && (WellQuoted(raw) ==> |Unescaped(raw)| >= 4 + |Unescaped(raw[n..])|)
  {
    var n := UnicodeEscape(raw).value.1;
    CodeUnitReadPlainly(raw);
    if n == 10 {
      CodeUnitReadPlainly(raw[6..]);
      assert raw[6..][4..] == raw[10..];
      hide CodeUnit, UnicodeEscape;
      OneEscape(raw[4..]);
      assert raw[4..][2..] == raw[6..];
    }
  }

  /** The tokenizer reads a JSON string rightly exactly when no escape is one of the named ones
      or a `\u` escape. */
  lemma {:induction false} ReadRightlyExactlyWhenPlain(raw: string)
    requires JsonString(raw).Some?
    ensures WellQuoted(raw) && |Unescaped(raw)| >= |JsonString(raw).value|
    ensures Unescaped(raw) == JsonString(raw).value <==> PlainEscapes(raw)
    decreases |raw|
  {
    hide UnicodeEscape, CodeUnit;
    if raw == "" {
    } else if raw[0] == '\\' {
      if raw[1] == 'u' {
        var n := UnicodeEscape(raw[2..]).value.1;
        UnicodeEscapeReadPlainly(raw[2..]);
        assert raw[2..][n..] == raw[2 + n..];
        ReadRightlyExactlyWhenPlain(raw[2 + n..]);
        OneEscape(raw);
        assert |Unescaped(raw)| > |JsonString(raw).value|;
      } else {
        ReadRightlyExactlyWhenPlain(raw[2..]);
        OneEscape(raw);
        SameFirst(raw[1], Unescaped(raw[2..]), Unescape(raw[1]).value, JsonString(raw[2..]).value);
      }
    } else {
      ReadRightlyExactlyWhenPlain(raw[1..]);
      OnePlain(raw);
      SameFirst(raw[0], Unescaped(raw[1..]), raw[0], JsonString(raw[1..]).value);
    }
  }

  lemma SameFirst(c: char, s: string, d: char, t: string)
    ensures [c] + s == [d] + t <==> c == d && s == t
  {
    if [c] + s == [d] + t {
      assert ([c] + s)[0] == c && ([d] + t)[0] == d;
      assert ([c] + s)[1..] == s && ([d] + t)[1..] == t;
    }
  }

  // ---------------------------------------------------------------------------
  // Documents

  /** The tree of a document holds its strings as they are written; `f` reads them. */
  function Read(t: Tree, f: string -> string): Tree {
    match t
    case Scalar(_) => t
    case Text(raw) => Tree.Text(f(raw))
    case Arr(elements) => Arr(ReadElements(elements, f))
    case Obj(members) => Obj(ReadMembers(members, f))
  }

  function ReadElements(es: Elements, f: string -> string): Elements {
    match es
    case NoElement => NoElement
    case Element(value, next) => Element(Read(value, f), ReadElements(next, f))
  }

  function ReadMembers(ms: Members, f: string -> string): Members {
    match ms
    case NoMember => NoMember
    case Member(key, value, next) => Member(f(key), Read(value, f), ReadMembers(next, f))
  }

  function ReadTok(tok: Tok, f: string -> string): Tok {
    match tok
    case Str(raw) => Str(f(raw))
    case _ => tok
  }

  function ReadToks(toks: seq<Tok>, f: string -> string): (read: seq<Tok>)
    ensures |read| == |toks|
    ensures forall i :: 0 <= i < |toks| ==> read[i] == ReadTok(toks[i], f)
  {
    seq(|toks|, i requires 0 <= i < |toks| => ReadTok(toks[i], f))
  }

  lemma ReadToksAppend(a: seq<Tok>, b: seq<Tok>, f: string -> string)
    ensures ReadToks(a + b, f) == ReadToks(a, f) + ReadToks(b, f)
  {
  }

  lemma {:induction false} OthersAreRead(n: nat, f: string -> string)
    ensures ReadToks(Others(n), f) == Others(n)
  {
    if n > 0 {
      OthersAreRead(n - 1, f);
      ReadToksAppend(Others(n - 1), [Other], f);
    }
  }

  /** Reading the tokens of a tree gives the tokens of the read tree. */
  lemma {:induction false} RenderedRead(t: Tree, f: string -> string)
    ensures Rendered(Read(t, f)) == ReadToks(Rendered(t), f)
    decreases t, 0
  {
    match t {
      case Scalar(extra) =>
        OthersAreRead(extra, f);
        ReadToksAppend([Other], Others(extra), f);
      case Text(_) =>
      case Arr(elements) =>
        RenderedReadElements(elements, f);
        Bracketed([Open(true)], RenderedElements(elements), f);
      case Obj(members) =>
        RenderedReadMembers(members, f);
        Bracketed([Open(false)], RenderedMembers(members), f);
    }
  }

  lemma Bracketed(open: seq<Tok>, inner: seq<Tok>, f: string -> string)
    requires open == [Open(true)] || open == [Open(false)]
    ensures ReadToks(open + inner + [Close], f) == open + ReadToks(inner, f) + [Close]
  {
  }

  lemma {:induction false} RenderedReadElements(es: Elements, f: string -> string)
    ensures RenderedElements(ReadElements(es, f)) == ReadToks(RenderedElements(es), f)
    decreases es
  {
    match es {
      case NoElement =>
      case Element(value, next) =>
        RenderedRead(value, f);
        RenderedReadElements(next, f);
        ReadToksAppend(Rendered(value), Separator(next.Element?), f);
        ReadToksAppend(Rendered(value) + Separator(next.Element?), RenderedElements(next), f);
        SeparatorIsRead(next.Element?, f);
        hide Rendered, Read;
    }
  }

  lemma SeparatorIsRead(needed: bool, f: string -> string)
    ensures ReadToks(Separator(needed), f) == Separator(needed)
  {
  }

  lemma {:induction false} RenderedReadMembers(ms: Members, f: string -> string)
    ensures RenderedMembers(ReadMembers(ms, f)) == ReadToks(RenderedMembers(ms), f)
    decreases ms
  {
    match ms {
      case NoMember =>
      case Member(key, value, next) =>
        RenderedRead(value, f);
        RenderedReadMembers(next, f);
        MemberIsRead(key, value, f);
        ReadToksAppend(RenderedMember(key, value), Separator(next.Member?), f);
        ReadToksAppend(RenderedMember(key, value) + Separator(next.Member?), RenderedMembers(next), f);
        SeparatorIsRead(next.Member?, f);
        hide RenderedMember, Read;
    }
  }

  lemma MemberIsRead(key: string, value: Tree, f: string -> string)
    requires Rendered(Read(value, f)) == ReadToks(Rendered(value), f)
    ensures RenderedMember(f(key), Read(value, f)) == ReadToks(RenderedMember(key, value), f)
  {
    hide Rendered, Read;
    ReadToksAppend([Str(key), Colon], Rendered(value), f);
    assert ReadToks([Str(key), Colon], f) == [Str(f(key)), Colon];
  }

  /** Both readings give every reported key, that is every key outside arrays, the same name. */
  predicate KeysReadAlike(t: Tree, f: string -> string, g: string -> string) {
    match t
    case Obj(members) => MemberKeysReadAlike(members, f, g)
    case _ => true
  }

  predicate MemberKeysReadAlike(ms: Members, f: string -> string, g: string -> string) {
    match ms
    case NoMember => true
    case Member(key, value, next) => f(key) == g(key) && KeysReadAlike(value, f, g) && MemberKeysReadAlike(next, f, g)
  }

  /** The reported keys differ in nothing but the names in their paths. */
  predicate Parallel(a: seq<Key>, b: seq<Key>) {
    && |a| == |b|
    && forall i :: 0 <= i < |a| ==> a[i].index == b[i].index && a[i].isObject == b[i].isObject
  }

  predicate SamePaths(a: seq<Key>, b: seq<Key>) {
    |a| == |b| && forall i :: 0 <= i < |a| ==> JoinDots(a[i].segments) == JoinDots(b[i].segments)
  }

  lemma ParallelAppend(a: seq<Key>, a1: seq<Key>, b: seq<Key>, b1: seq<Key>)
    requires Parallel(a, a1) && Parallel(b, b1)
    ensures Parallel(a + b, a1 + b1)
    ensures SamePaths(a + b, a1 + b1) <==> SamePaths(a, a1) && SamePaths(b, b1)
  {
    hide JoinDots;
    if SamePaths(a + b, a1 + b1) {
      forall i | 0 <= i < |a| ensures JoinDots(a[i].segments) == JoinDots(a1[i].segments) {
        assert (a + b)[i] == a[i] && (a1 + b1)[i] == a1[i];
      }
      forall i | 0 <= i < |b| ensures JoinDots(b[i].segments) == JoinDots(b1[i].segments) {
        assert (a + b)[|a| + i] == b[i] && (a1 + b1)[|a| + i] == b1[i];
      }
    }
  }

  lemma SameLengthRendered(t: Tree, f: string -> string, g: string -> string)
    ensures |Rendered(Read(t, f))| == |Rendered(Read(t, g))| == |Rendered(t)|
  {
    RenderedRead(t, f);
    RenderedRead(t, g);
  }

  lemma {:induction false} JoinDotsSnoc(names: seq<string>, key: string)
    ensures JoinDots(names + [key]) == if names == [] then key else JoinDots(names) + "." + key
    decreases |names|
  {
    if |names| > 0 {
      var rest := names[1..];
      JoinDotsSnoc(rest, key);
      assert (names + [key])[1..] == rest + [key];
    }
  }

  /** Two paths that differ in the last segment differ as texts. */
  lemma LastSegmentShows(names: seq<string>, a: string, b: string)
    ensures JoinDots(names + [a]) == JoinDots(names + [b]) <==> a == b
  {
    JoinDotsSnoc(names, a);
    JoinDotsSnoc(names, b);
    hide JoinDots;
    if names != [] {
      var head := JoinDots(names) + ".";
      assert (head + a)[|head|..] == a && (head + b)[|head|..] == b;
    }
  }

  lemma {:induction false} ReportedKeys(t: Tree, f: string -> string, g: string -> string,
                                        names: seq<string>, other: seq<string>, at: nat)
    ensures Parallel(Keys(Read(t, f), names, at), Keys(Read(t, g), other, at))
    ensures names == other ==>
              (SamePaths(Keys(Read(t, f), names, at), Keys(Read(t, g), other, at)) <==> KeysReadAlike(t, f, g))
    decreases t, 0
  {
    if t.Obj? { ReportedMemberKeys(t.members, f, g, names, other, at + 1); }
  }

  lemma MemberKeysRead(key: string, value: Tree, next: Members, f: string -> string, names: seq<string>, at: nat)
    ensures MemberKeys(ReadMembers(Member(key, value, next), f), names, at) ==
            MemberKey(f(key), Read(value, f), names, at)
            + MemberKeys(ReadMembers(next, f), names, at + |RenderedMember(f(key), Read(value, f))| + |Separator(next.Member?)|)
  {
    hide RenderedMember, MemberKey, Read;
  }

  lemma {:induction false} ReportedMemberKeys(ms: Members, f: string -> string, g: string -> string,
                                              names: seq<string>, other: seq<string>, at: nat)
    ensures Parallel(MemberKeys(ReadMembers(ms, f), names, at), MemberKeys(ReadMembers(ms, g), other, at))
    ensures names == other ==>
              (SamePaths(MemberKeys(ReadMembers(ms, f), names, at), MemberKeys(ReadMembers(ms, g), other, at))
               <==> MemberKeysReadAlike(ms, f, g))
    decreases ms, 0
  {
    hide *;
    match ms {
      case NoMember => NothingReported(f, g, names, other, at);
      case Member(key, value, next) =>
        MemberKeysRead(key, value, next, f, names, at);
        MemberKeysRead(key, value, next, g, other, at);
        SameStep(key, value, next, f, g);
        var v, w := Read(value, f), Read(value, g);
        var step := |RenderedMember(f(key), v)| + |Separator(next.Member?)|;
        ReportedKeys(value, f, g, names + [f(key)], other + [g(key)], at + 2);
        ReportedMemberKeys(next, f, g, names, other, at + step);
        ReportedKey(value, f, g, key, names, other, at);
        ParallelAppend(MemberKey(f(key), v, names, at), MemberKey(g(key), w, other, at),
                       MemberKeys(ReadMembers(next, f), names, at + step), MemberKeys(ReadMembers(next, g), other, at + step));
    }
  }

  lemma NothingReported(f: string -> string, g: string -> string, names: seq<string>, other: seq<string>, at: nat)
    ensures Parallel(MemberKeys(ReadMembers(NoMember, f), names, at), MemberKeys(ReadMembers(NoMember, g), other, at))
    ensures SamePaths(MemberKeys(ReadMembers(NoMember, f), names, at), MemberKeys(ReadMembers(NoMember, g), other, at))
    ensures MemberKeysReadAlike(NoMember, f, g)
  {
  }

  lemma SameStep(key: string, value: Tree, next: Members, f: string -> string, g: string -> string)
    ensures |RenderedMember(f(key), Read(value, f))| == |RenderedMember(g(key), Read(value, g))|
    ensures MemberKeysReadAlike(Member(key, value, next), f, g)
            <==> f(key) == g(key) && KeysReadAlike(value, f, g) && MemberKeysReadAlike(next, f, g)
  {
    hide Rendered, Read;
    SameLengthRendered(value, f, g);
  }

  /** One member: its own key, then the keys of its value. */
  lemma ReportedKey(value: Tree, f: string -> string, g: string -> string, key: string,
                    names: seq<string>, other: seq<string>, at: nat)
    requires Parallel(Keys(Read(value, f), names + [f(key)], at + 2), Keys(Read(value, g), other + [g(key)], at + 2))
    requires names + [f(key)] == other + [g(key)] ==>
               (SamePaths(Keys(Read(value, f), names + [f(key)], at + 2), Keys(Read(value, g), other + [g(key)], at + 2))
                <==> KeysReadAlike(value, f, g))
    ensures Parallel(MemberKey(f(key), Read(value, f), names, at), MemberKey(g(key), Read(value, g), other, at))
    ensures names == other ==>
              (SamePaths(MemberKey(f(key), Read(value, f), names, at), MemberKey(g(key), Read(value, g), other, at))
               <==> f(key) == g(key) && KeysReadAlike(value, f, g))
  {
    var v, w := Read(value, f), Read(value, g);
    assert v.Obj? == w.Obj?;
    hide Keys, KeysReadAlike, JoinDots, Read;
    var a, b := [Key(names + [f(key)], at, v.Obj?)], [Key(other + [g(key)], at, w.Obj?)];
    ParallelAppend(a, b, Keys(v, names + [f(key)], at + 2), Keys(w, other + [g(key)], at + 2));
    if names == other {
      LastSegmentShows(names, f(key), g(key));
      assert SamePaths(a, b) <==> a[0].segments == b[0].segments by {
        if SamePaths(a, b) { assert JoinDots(a[0].segments) == JoinDots(b[0].segments); }
      }
    }
  }

  lemma SpansShowPaths(tokens: seq<Token>, a: seq<Key>, b: seq<Key>)
    requires InRange(tokens, a) && Parallel(a, b)
    ensures InRange(tokens, b)
    ensures SpansOf(tokens, a) == SpansOf(tokens, b) <==> SamePaths(a, b)
  {
    hide JoinDots;
    if SpansOf(tokens, a) == SpansOf(tokens, b) {
      forall i | 0 <= i < |a| ensures JoinDots(a[i].segments) == JoinDots(b[i].segments) {
        assert SpansOf(tokens, a)[i] == SpansOf(tokens, b)[i];
      }
    }
  }

  // ---------------------------------------------------------------------------
  // What the scanner reports of a document

  /** The tokenizer's reading of a string, and the one that JSON gives it. */
  function Scanned(raw: string): string {
    if WellQuoted(raw) then Unescaped(raw) else ""
  }

  function Meant(raw: string): string {
    if JsonString(raw).Some? then JsonString(raw).value else ""
  }

  /** The tokens of the document with the strings as they are written. */
  function RawToks(items: seq<Item>): seq<Tok> {
    if items == [] then [] else RawTok(items[0]) + RawToks(items[1..])
  }

  function RawTok(item: Item): seq<Tok> {
    match item
    case Mark(c) => [MarkOf(c)]
    case Quoted(raw) => [Str(raw)]
    case _ => []
  }

  lemma MarksAreNoStrings(c: char)
    ensures !MarkOf(c).Str?
  {
  }

  lemma {:induction false} ItemToksAreScanned(items: seq<Item>)
    requires GoodItems(items)
    ensures ItemToks(items) == ReadToks(RawToks(items), Scanned)
  {
    hide GoodItem, ItemTok, RawTok, Scanned;
    if items != [] {
      ItemToksAreScanned(items[1..]);
      ItemTokIsScanned(items[0]);
      ReadToksAppend(RawTok(items[0]), RawToks(items[1..]), Scanned);
    }
  }

  lemma ItemTokIsScanned(item: Item)
    requires GoodItem(item)
    ensures ItemTok(item) == ReadToks(RawTok(item), Scanned)
  {
    if item.Mark? { MarksAreNoStrings(item.c); }
    hide MarkOf, WellQuoted, Unescaped;
  }

  lemma KeysInRange(tokens: seq<Token>)
    ensures InRange(tokens, ScanKeys(ToksOf(tokens)))
  {
    TurnsInRange(tokens, |tokens|);
  }

  /** However a document is laid out, the scanner reports exactly its object keys outside arrays,
      in document order, under the names that the tokenizer reads. */
  lemma ScanOfWrittenDocument(items: seq<Item>, t: Tree)
    requires GoodItems(items) && RawToks(items) == Rendered(t)
    ensures ScanKeys(ToksOf(Tokens(Written(items)))) == Keys(Read(t, Scanned), [], 0)
    ensures InRange(Tokens(Written(items)), Keys(Read(t, Scanned), [], 0))
    ensures Scan(Tokens(Written(items))) == SpansOf(Tokens(Written(items)), Keys(Read(t, Scanned), [], 0))
  {
    hide Lex, Keys, Rendered, Written, LexemeToks, ItemToks, RawToks, GoodItems, Turns, PlaceAll;
    var text, tokens := Written(items), Tokens(Written(items));
    TokensOfItems(items);
    ItemToksAreScanned(items);
    RenderedRead(t, Scanned);
    ScanFindsKeys(Read(t, Scanned));
    KeysInRange(tokens);
  }

  lemma TokensOfItems(items: seq<Item>)
    requires GoodItems(items)
    ensures ToksOf(Tokens(Written(items))) == ItemToks(items)
  {
    hide Written, ItemToks, GoodItems, Lex;
    var text := Written(items);
    assert text[0..] == text;
    LexOfItems(text, 0, items);
    LexemeToksAt(Lex(text, 0));
    hide LexemeToks;
  }

  predicate AllJsonStrings(items: seq<Item>) {
    forall i :: 0 <= i < |items| && items[i].Quoted? ==> JsonString(items[i].raw).Some?
  }

  /** No reported key is written with a named or a `\u` escape. */
  predicate PlainKeys(t: Tree) {
    match t
    case Obj(members) => PlainMemberKeys(members)
    case _ => true
  }

  predicate PlainMemberKeys(ms: Members) {
    match ms
    case NoMember => true
    case Member(key, value, next) => PlainEscapes(key) && PlainKeys(value) && PlainMemberKeys(next)
  }

  predicate JsonToks(toks: seq<Tok>) {
    forall i :: 0 <= i < |toks| && toks[i].Str? ==> JsonString(toks[i].s).Some?
  }

  lemma {:induction false} RawToksAreJson(items: seq<Item>)
    requires AllJsonStrings(items)
    ensures JsonToks(RawToks(items))
  {
    if items != [] {
      assert forall i :: 0 <= i < |items[1..]| ==> items[1..][i] == items[i + 1];
      RawToksAreJson(items[1..]);
      if items[0].Mark? { MarksAreNoStrings(items[0].c); }
      hide MarkOf, JsonString;
    }
  }

  lemma JsonToksParts(a: seq<Tok>, b: seq<Tok>)
    requires JsonToks(a + b)
    ensures JsonToks(a) && JsonToks(b)
  {
    hide JsonString;
    forall i | 0 <= i < |a| && a[i].Str? ensures JsonString(a[i].s).Some? { assert (a + b)[i] == a[i]; }
    forall i | 0 <= i < |b| && b[i].Str? ensures JsonString(b[i].s).Some? { assert (a + b)[|a| + i] == b[i]; }
  }

  lemma {:induction false} PlainIsReadAlike(t: Tree)
    requires JsonToks(Rendered(t))
    ensures KeysReadAlike(t, Scanned, Meant) <==> PlainKeys(t)
    decreases t, 0
  {
    hide JsonToks;
    if t.Obj? {
      JsonToksParts([Open(false)] + RenderedMembers(t.members), [Close]);
      JsonToksParts([Open(false)], RenderedMembers(t.members));
      PlainMembersAreReadAlike(t.members);
    }
  }

  lemma {:induction false} PlainMembersAreReadAlike(ms: Members)
    requires JsonToks(RenderedMembers(ms))
    ensures MemberKeysReadAlike(ms, Scanned, Meant) <==> PlainMemberKeys(ms)
    decreases ms, 0
  {
    hide JsonToks, Scanned, Meant, PlainEscapes, Rendered;
    match ms {
      case NoMember =>
      case Member(key, value, next) =>
        JsonToksParts(RenderedMember(key, value) + Separator(next.Member?), RenderedMembers(next));
        JsonToksParts(RenderedMember(key, value), Separator(next.Member?));
        JsonToksParts([Str(key), Colon], Rendered(value));
        PlainKeyIsReadAlike(key);
        PlainIsReadAlike(value);
        PlainMembersAreReadAlike(next);
    }
  }

  lemma PlainKeyIsReadAlike(key: string)
    requires JsonToks([Str(key), Colon])
    ensures Scanned(key) == Meant(key) <==> PlainEscapes(key)
  {
    assert [Str(key), Colon][0] == Str(key);
    hide JsonToks;
    ReadRightlyExactlyWhenPlain(key);
  }

  /** The scanner reports the keys of a JSON document under their JSON names exactly when no key
      outside arrays is written with a named or a `\u` escape. */
  lemma ReportsDocumentKeysExactlyWhenPlain(items: seq<Item>, t: Tree)
    requires GoodItems(items) && AllJsonStrings(items) && RawToks(items) == Rendered(t)
    ensures InRange(Tokens(Written(items)), Keys(Read(t, Meant), [], 0))
    ensures Scan(Tokens(Written(items))) == SpansOf(Tokens(Written(items)), Keys(Read(t, Meant), [], 0))
            <==> PlainKeys(t)
  {
    hide *;
    var tokens := Tokens(Written(items));
    ScanOfWrittenDocument(items, t);
    ReportedKeys(t, Scanned, Meant, [], [], 0);
    SpansShowPaths(tokens, Keys(Read(t, Scanned), [], 0), Keys(Read(t, Meant), [], 0));
    RawToksAreJson(items);
    PlainIsReadAlike(t);
  }

  /** The document `{"a\u0062":1}`, whose key is `ab`, is reported to hold another key. */
  lemma UnicodeKeyIsMisread()
    ensures var raw := "a\\u0062";
            var items := [Mark('{'), Quoted(raw), Mark(':'), Mark('1'), Mark('}')];
            var t := Obj(Member(raw, Scalar(0), NoMember));
            && GoodItems(items) && AllJsonStrings(items) && RawToks(items) == Rendered(t) && Meant(raw) == "ab"
            && InRange(Tokens(Written(items)), Keys(Read(t, Meant), [], 0))
            && Scan(Tokens(Written(items))) != SpansOf(Tokens(Written(items)), Keys(Read(t, Meant), [], 0))
  {
    var raw := "a\\u0062";
    var items := [Mark('{'), Quoted(raw), Mark(':'), Mark('1'), Mark('}')];
    MisreadKey();
    MisreadDocument(raw);
    ReportsDocumentKeysExactlyWhenPlain(items, Obj(Member(raw, Scalar(0), NoMember)));
  }

  lemma MisreadKey()
    ensures var raw := "a\\u0062";
            JsonString(raw) == Some("ab") && !PlainEscapes(raw) && WellQuoted(raw)
  {
    var raw := "a\\u0062";
    var escape := "\\u0062";
    assert raw[1..] == escape && escape[1] == 'u' && escape[2..] == "0062" && escape[6..] == "";
    assert HexValue('0') == Some(0) && HexValue('6') == Some(6);
    assert HexValue('2') == Some(2);
    assert CodeUnit("0062") == Some(0x62);
    assert 0x62 as char == 'b';
    assert UnicodeEscape("0062") == Some(('b', 4));
    assert JsonString(escape[6..]) == Some("");
    assert JsonString(escape) == Prepend('b', JsonString(escape[6..]));
    assert ['b'] + "" == "b" && ['a'] + "b" == "ab";
    assert raw[0] == 'a' && !IsControl('a');
    assert JsonString(raw) == Prepend('a', JsonString(raw[1..]));
    assert !PlainEscapes(escape);
    ReadRightlyExactlyWhenPlain(raw);
  }

  lemma MisreadDocument(raw: string)
    requires WellQuoted(raw) && JsonString(raw).Some?
    ensures var items := [Mark('{'), Quoted(raw), Mark(':'), Mark('1'), Mark('}')];
            && GoodItems(items) && AllJsonStrings(items)
            && RawToks(items) == Rendered(Obj(Member(raw, Scalar(0), NoMember)))
  {
    RenderedOneKey(raw);
    hide Rendered, GoodItems, RawToks, JsonString, WellQuoted;
    MarksOfOneKey();
    EndOfOneKey();
    var end := [Mark(':'), Mark('1'), Mark('}')];
    ItemsCons(Quoted(raw), end);
    ItemsCons(Mark('{'), [Quoted(raw)] + end);
    assert [Mark('{')] + ([Quoted(raw)] + end) == [Mark('{'), Quoted(raw), Mark(':'), Mark('1'), Mark('}')];
  }

  lemma RenderedOneKey(raw: string)
    ensures Rendered(Obj(Member(raw, Scalar(0), NoMember))) == [Open(false), Str(raw), Colon, Other, Close]
  {
    assert Rendered(Scalar(0)) == [Other];
    assert RenderedMembers(Member(raw, Scalar(0), NoMember)) == [Str(raw), Colon, Other];
  }

  lemma MarksOfOneKey()
    ensures MarkOf('{') == Open(false) && MarkOf(':') == Colon && MarkOf('1') == Other && MarkOf('}') == Close
    ensures GoodItem(Mark('{')) && GoodItem(Mark(':')) && GoodItem(Mark('1')) && GoodItem(Mark('}'))
  {
  }

  lemma EndOfOneKey()
    ensures var items := [Mark(':'), Mark('1'), Mark('}')];
            GoodItems(items) && RawToks(items) == [Colon, Other, Close]
  {
    hide GoodItems, RawToks;
    MarksOfOneKey();
    NoItems();
    ItemsCons(Mark('}'), []);
    assert [Mark('}')] + [] == [Mark('}')];
    ItemsCons(Mark('1'), [Mark('}')]);
    assert [Mark('1')] + [Mark('}')] == [Mark('1'), Mark('}')];
    ItemsCons(Mark(':'), [Mark('1'), Mark('}')]);
    assert [Mark(':')] + [Mark('1'), Mark('}')] == [Mark(':'), Mark('1'), Mark('}')];
  }

  lemma NoItems()
    ensures GoodItems([]) && RawToks([]) == []
  {
  }

  lemma ItemsCons(item: Item, rest: seq<Item>)
    requires !item.LineComment?
    ensures GoodItems([item] + rest) <==> GoodItem(item) && GoodItems(rest)
    ensures RawToks([item] + rest) == RawTok(item) + RawToks(rest)
  {
    assert ([item] + rest)[1..] == rest;
  }
}
