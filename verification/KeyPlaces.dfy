/** Where the key scanner says the keys of a document are, in terms of its text. Models
    crates/gaviero-core/src/settings_overrides.rs. */
module KeyPlaces {
  import opened Json
  import opened KeyTokenizer
  import opened KeySpans
  import opened KeyDocuments
  import opened KeyPrefixes

  // ---------------------------------------------------------------------------
  // Documents by their characters

  /** What the token is written as. */
  predicate Spells(item: Item, tok: Tok) {
    match tok
    case Open(isArray) => item == Mark(if isArray then '[' else '{')
    case Close => item == Mark('}') || item == Mark(']')
    case Colon => item == Mark(':')
    case Comma => item == Mark(',')
    case Str(raw) => item == Quoted(raw)
    case Other => item.Mark? && item.c !in {'{', '}', '[', ']', ':', ','}
  }

  /** The items without white space and comments. */
  function Solid(items: seq<Item>): seq<Item> {
    if items == [] then []
    else (if items[0].Mark? || items[0].Quoted? then [items[0]] else []) + Solid(items[1..])
  }

  /** The text of the items, white space and comments aside, spells the tokens. */
  ghost predicate SpellsAll(solid: seq<Item>, toks: seq<Tok>) {
    |solid| == |toks| && forall k :: 0 <= k < |toks| ==> Spells(solid[k], toks[k])
  }

  lemma SpelledTok(item: Item, tok: Tok)
    requires Spells(item, tok)
    ensures RawTok(item) == [tok] && (item.Mark? || item.Quoted?)
  {
  }

  /** A document whose characters are those of the tree has the tokens of the tree. */
  lemma {:induction false} SpelledToks(items: seq<Item>, toks: seq<Tok>)
    requires SpellsAll(Solid(items), toks)
    ensures RawToks(items) == toks
    decreases |items|
  {
    hide *;
    if items == [] {
      NothingSpelled(toks);
    } else {
      SolidStep(items);
      if items[0].Mark? || items[0].Quoted? {
        SpelledFirst(items[0], Solid(items[1..]), toks);
        SpelledTok(items[0], toks[0]);
        SpelledToks(items[1..], toks[1..]);
        assert toks == [toks[0]] + toks[1..];
      } else {
        SilentItem(items[0]);
        SpelledToks(items[1..], toks);
        assert [] + toks == toks;
      }
    }
  }

  lemma NothingSpelled(toks: seq<Tok>)
    ensures SpellsAll(Solid([]), toks) ==> toks == [] == RawToks([])
  {
  }

  lemma SolidStep(items: seq<Item>)
    requires items != []
    ensures items[0].Mark? || items[0].Quoted? ==> Solid(items) == [items[0]] + Solid(items[1..])
    ensures !items[0].Mark? && !items[0].Quoted? ==> Solid(items) == Solid(items[1..])
    ensures RawToks(items) == RawTok(items[0]) + RawToks(items[1..])
  {
    hide RawTok;
  }

  lemma SpelledFirst(item: Item, rest: seq<Item>, toks: seq<Tok>)
    requires SpellsAll([item] + rest, toks)
    ensures toks != [] && Spells(item, toks[0]) && SpellsAll(rest, toks[1..])
  {
    hide Spells;
    assert ([item] + rest)[0] == item;
    assert forall k :: 0 <= k < |rest| ==> rest[k] == ([item] + rest)[k + 1];
  }

  lemma SilentItem(item: Item)
    requires !item.Mark? && !item.Quoted?
    ensures RawTok(item) == []
  {
  }

  // ---------------------------------------------------------------------------
  // Places in the text

  /** The line of an offset counts the line feeds before it, its column the characters since the
      last one. */
  lemma {:induction false} PlacesAreCounts(text: string, i: nat)
    requires i <= |text|
    ensures LineOf(text, i) == multiset(text[..i])['\n']
    ensures ColOf(text, i) <= i && (forall k :: i - ColOf(text, i) <= k < i ==> text[k] != '\n')
    ensures ColOf(text, i) < i ==> text[i - ColOf(text, i) - 1] == '\n'
    decreases i
  {
    if i > 0 {
      PlacesAreCounts(text, i - 1);
      assert text[..i] == text[..i - 1] + [text[i - 1]];
    }
  }

  /** A string token covers its quotes and what stands between them. */
  ghost predicate CoversString(text: string, l: Lexeme, tok: Tok) {
    l.from < l.to <= |text| && (tok.Str? ==> text[l.from..l.to] == "\"" + tok.s + "\"")
  }

  ghost predicate CoverStrings(text: string, lexemes: seq<Lexeme>, toks: seq<Tok>) {
    |lexemes| == |toks| && forall k :: 0 <= k < |toks| ==> CoversString(text, lexemes[k], toks[k])
  }

  lemma ItemCovers(text: string, i: nat, item: Item, rest: string)
    requires GoodItem(item) && i <= |text| && text[i..] == ItemText(item) + rest
    requires item.LineComment? ==> rest == "" || rest[0] == '\n'
    ensures i < |text|
    ensures CoverStrings(text, if LexStep(text, i).0.Some? then [LexStep(text, i).0.value] else [], RawTok(item))
  {
    hide LexStep, GoodItem, Unescaped, WellQuoted, ItemText, ItemTok;
    StepOfItem(text, i, item, rest);
    StepShape(text, i);
    TextOfItem(text, i, ItemText(item), rest);
    TokOfItem(item);
  }

  lemma StepShape(text: string, i: nat)
    requires i < |text|
    ensures var (found, next) := LexStep(text, i);
            found.Some? ==> found.value.from == i < found.value.to == next <= |text|
  {
  }

  lemma TextOfItem(text: string, i: nat, item: string, rest: string)
    requires i <= |text| && text[i..] == item + rest
    ensures i + |item| <= |text| && text[i..i + |item|] == item
  {
    assert text[i..i + |item|] == text[i..][..|item|];
  }

  lemma TokOfItem(item: Item)
    requires GoodItem(item)
    ensures |RawTok(item)| == |ItemTok(item)|
    ensures RawTok(item) != [] && RawTok(item)[0].Str? ==> ItemText(item) == "\"" + RawTok(item)[0].s + "\""
  {
    if item.Mark? { MarksAreNoStrings(item.c); }
    hide MarkOf, Unescaped, WellQuoted;
  }

  lemma CoverMore(text: string, lexemes: seq<Lexeme>, toks: seq<Tok>, more: seq<Lexeme>, moreToks: seq<Tok>)
    requires CoverStrings(text, lexemes, toks) && CoverStrings(text, more, moreToks)
    ensures CoverStrings(text, lexemes + more, toks + moreToks)
  {
    hide CoversString;
  }

  lemma {:induction false} LexemesCover(text: string, i: nat, items: seq<Item>)
    requires GoodItems(items) && i <= |text| && text[i..] == Written(items)
    ensures CoverStrings(text, Lex(text, i), RawToks(items))
    decreases |items|
  {
    hide LexStep, Lex, CoverStrings, ItemText, GoodItem, RawTok;
    if items == [] {
      NothingCovered(text, i);
    } else {
      var written := Written(items[1..]);
      if items[0].LineComment? { LineIsOverInText(items[1..]); }
      ItemCovers(text, i, items[0], written);
      StepOfItem(text, i, items[0], written);
      RestOf(text, i, ItemText(items[0]), written);
      LexUnfold(text, i);
      var next := LexStep(text, i).1;
      LexemesCover(text, next, items[1..]);
      var first := if LexStep(text, i).0.Some? then [LexStep(text, i).0.value] else [];
      CoverMore(text, first, RawTok(items[0]), Lex(text, next), RawToks(items[1..]));
      assert Lex(text, i) == first + Lex(text, next);
    }
  }

  lemma NothingCovered(text: string, i: nat)
    requires i == |text|
    ensures CoverStrings(text, Lex(text, i), [])
  {
  }

  // ---------------------------------------------------------------------------
  // Keys and their tokens

  function LastSegment(k: Key): string
    requires k.segments != []
  {
    k.segments[|k.segments| - 1]
  }

  /** The keys stand at string tokens that are their last segments. */
  ghost predicate KeysStand(toks: seq<Tok>, keys: seq<Key>) {
    forall k :: 0 <= k < |keys| ==>
      keys[k].segments != [] && keys[k].index < |toks| && toks[keys[k].index] == Str(LastSegment(keys[k]))
  }

  lemma KeysStandTogether(toks: seq<Tok>, a: seq<Key>, b: seq<Key>)
    requires KeysStand(toks, a) && KeysStand(toks, b)
    ensures KeysStand(toks, a + b)
  {
    hide LastSegment;
  }

  lemma {:induction false} TreeKeysStand(toks: seq<Tok>, t: Tree, names: seq<string>, at: nat)
    requires Stands(toks, at, Rendered(t))
    ensures KeysStand(toks, Keys(t, names, at))
    decreases t, 0
  {
    hide Stands;
    if t.Obj? {
      StandsBracketed(toks, at, Open(false), RenderedMembers(t.members));
      MembersStand(toks, t.members, names, at + 1);
    }
  }

  lemma {:induction false} MembersStand(toks: seq<Tok>, ms: Members, names: seq<string>, at: nat)
    requires Stands(toks, at, RenderedMembers(ms))
    ensures KeysStand(toks, MemberKeys(ms, names, at))
    decreases ms, 1
  {
    hide Stands, RenderedMember, MemberKey, KeysStand;
    match ms {
      case NoMember => NoKeysStand(toks);
      case Member(key, value, next) =>
        StandsInThree(toks, at, RenderedMember(key, value), Separator(next.Member?), RenderedMembers(next));
        MemberStands(toks, key, value, names, at);
        var rest := at + |RenderedMember(key, value)| + |Separator(next.Member?)|;
        MembersStand(toks, next, names, rest);
        KeysStandTogether(toks, MemberKey(key, value, names, at), MemberKeys(next, names, rest));
    }
  }

  lemma NoKeysStand(toks: seq<Tok>)
    ensures KeysStand(toks, [])
  {
  }

  lemma {:induction false} MemberStands(toks: seq<Tok>, key: string, value: Tree, names: seq<string>, at: nat)
    requires Stands(toks, at, RenderedMember(key, value))
    ensures KeysStand(toks, MemberKey(key, value, names, at))
    decreases value, 1
  {
    var heading := [Str(key), Colon];
    StandsSplit(toks, at, heading, Rendered(value));
    StandsAt(toks, at, heading, 0);
    StandsWithin(toks, at, heading);
    hide Stands, Rendered, Keys;
    TreeKeysStand(toks, value, names + [key], at + 2);
    var own := [Key(names + [key], at, value.Obj?)];
    assert KeysStand(toks, own);
    KeysStandTogether(toks, own, Keys(value, names + [key], at + 2));
  }

  // ---------------------------------------------------------------------------
  // The theorem

  lemma TokensAreLexemes(text: string)
    ensures |Tokens(text)| == |Lex(text, 0)|
    ensures forall k :: 0 <= k < |Lex(text, 0)| ==>
              var l := Lex(text, 0)[k];
              && l.from < l.to <= |text|
              && Tokens(text)[k].line == LineOf(text, l.from) && Tokens(text)[k].startCol == ColOf(text, l.from)
              && Tokens(text)[k].endCol == ColOf(text, l.from) + (l.to - l.from)
              && forall c :: l.from <= c < l.to ==> text[c] != '\n'
    ensures forall k, m :: 0 <= k < m < |Lex(text, 0)| ==> Lex(text, 0)[k].to <= Lex(text, 0)[m].from
  {
    LexIsInOrder(text, 0);
    hide Lex, LineOf, ColOf;
  }

  /** One reported span: the path of the key, and the place of the quoted key in the text. */
  ghost predicate SpanShows(text: string, span: JsonKeySpan, path: string, raw: string, from: nat, to: nat) {
    && from < to <= |text| && text[from..to] == "\"" + raw + "\""
    && span.path == path
    && span.line == LineOf(text, from) && span.startCol == ColOf(text, from) && span.endCol == ColOf(text, to)
  }

  /** However a document is laid out: the scanner reports one span for each object key outside
      arrays, in document order, and the span's line and columns are those of the opening quote of
      the key and of the character behind its closing quote. */
  lemma SpansArePlaced(items: seq<Item>, t: Tree) returns (from: seq<nat>, to: seq<nat>)
    requires GoodItems(items) && SpellsAll(Solid(items), Rendered(t))
    ensures var text, raw, keys := Written(items), Keys(t, [], 0), Keys(Read(t, Scanned), [], 0);
            && |Scan(Tokens(text))| == |keys| == |raw| == |from| == |to|
            && (forall k :: 0 <= k < |raw| ==>
                  && raw[k].segments != []
                  && SpanShows(text, Scan(Tokens(text))[k], JoinDots(keys[k].segments), LastSegment(raw[k]), from[k], to[k])
                  && Scan(Tokens(text))[k].isObject == raw[k].isObject)
            && (forall j, k :: 0 <= j < k < |raw| ==> to[j] <= from[k])
  {
    hide *;
    var text, raw, lexemes := Written(items), Keys(t, [], 0), Lex(Written(items), 0);
    KeysHaveLexemes(items, t);
    from := seq(|raw|, k requires 0 <= k < |raw| => lexemes[raw[k].index].from);
    to := seq(|raw|, k requires 0 <= k < |raw| => lexemes[raw[k].index].to);
    forall k | 0 <= k < |raw|
      ensures raw[k].segments != []
      ensures SpanShows(text, Scan(Tokens(text))[k], JoinDots(Keys(Read(t, Scanned), [], 0)[k].segments),
                        LastSegment(raw[k]), from[k], to[k])
      ensures Scan(Tokens(text))[k].isObject == raw[k].isObject
    {
      OneSpan(items, t, k);
    }
    forall j, k | 0 <= j < k < |raw| ensures to[j] <= from[k] { KeysInOrder(items, t, j, k); }
  }

  lemma {:induction false} ReadAsWritten(t: Tree, f: string -> string)
    requires forall s :: f(s) == s
    ensures Read(t, f) == t
    decreases t, 0
  {
    match t {
      case Scalar(_) =>
      case Text(_) =>
      case Arr(elements) => ElementsAsWritten(elements, f);
      case Obj(members) => MembersAsWritten(members, f);
    }
  }

  lemma {:induction false} ElementsAsWritten(es: Elements, f: string -> string)
    requires forall s :: f(s) == s
    ensures ReadElements(es, f) == es
    decreases es
  {
    if es.Element? {
      ReadAsWritten(es.value, f);
      ElementsAsWritten(es.next, f);
    }
  }

  lemma {:induction false} MembersAsWritten(ms: Members, f: string -> string)
    requires forall s :: f(s) == s
    ensures ReadMembers(ms, f) == ms
    decreases ms
  {
    if ms.Member? {
      ReadAsWritten(ms.value, f);
      MembersAsWritten(ms.next, f);
    }
  }

  /** Reading the strings changes the names of the keys, not which they are. */
  lemma SameKeysRead(t: Tree)
    ensures Parallel(Keys(Read(t, Scanned), [], 0), Keys(t, [], 0))
  {
    var same := (s: string) => s;
    ReadAsWritten(t, same);
    hide Keys, Read, Parallel, Scanned;
    ReportedKeys(t, Scanned, same, [], [], 0);
  }

  lemma ParallelAt(a: seq<Key>, b: seq<Key>, k: nat)
    requires Parallel(a, b) && k < |b|
    ensures |a| == |b| && a[k].index == b[k].index && a[k].isObject == b[k].isObject
  {
  }

  lemma SameCount(items: seq<Item>, t: Tree)
    requires GoodItems(items) && SpellsAll(Solid(items), Rendered(t))
    ensures var tokens, keys := Tokens(Written(items)), Keys(Read(t, Scanned), [], 0);
            && ScanKeys(ToksOf(tokens)) == keys && |Scan(tokens)| == |keys| == |Keys(t, [], 0)|
            && forall k :: 0 <= k < |keys| ==> keys[k].index < |tokens| && Scan(tokens)[k] == SpanOf(tokens, keys[k])
  {
    SpelledToks(items, Rendered(t));
    SameKeysRead(t);
    assert |Keys(Read(t, Scanned), [], 0)| == |Keys(t, [], 0)|;
    hide *;
    ScanOfWrittenDocument(items, t);
    SpansCounted(Tokens(Written(items)), Keys(Read(t, Scanned), [], 0));
  }

  /** The token of each key is a string in quotes. */
  lemma KeysHaveLexemes(items: seq<Item>, t: Tree)
    requires GoodItems(items) && SpellsAll(Solid(items), Rendered(t))
    ensures var text, raw, lexemes := Written(items), Keys(t, [], 0), Lex(Written(items), 0);
            && |Scan(Tokens(text))| == |Keys(Read(t, Scanned), [], 0)| == |raw|
            && forall k :: 0 <= k < |raw| ==>
                 && raw[k].segments != [] && raw[k].index < |lexemes|
                 && CoversString(text, lexemes[raw[k].index], Str(LastSegment(raw[k])))
  {
    var text := Written(items);
    assert text[0..] == text;
    hide *;
    SpelledToks(items, Rendered(t));
    SameCount(items, t);
    LexemesCover(text, 0, items);
    WholeStands(Rendered(t));
    TreeKeysStand(Rendered(t), t, [], 0);
    PlacesOfKeys(text, Lex(text, 0), Rendered(t), Keys(t, [], 0));
  }

  lemma OneSpan(items: seq<Item>, t: Tree, k: nat)
    requires GoodItems(items) && SpellsAll(Solid(items), Rendered(t)) && k < |Keys(t, [], 0)|
    ensures var text, raw, keys := Written(items), Keys(t, [], 0), Keys(Read(t, Scanned), [], 0);
            && |Scan(Tokens(text))| == |keys| == |raw| && raw[k].segments != [] && raw[k].index < |Lex(text, 0)|
            && var l := Lex(text, 0)[raw[k].index];
               && SpanShows(text, Scan(Tokens(text))[k], JoinDots(keys[k].segments), LastSegment(raw[k]), l.from, l.to)
               && Scan(Tokens(text))[k].isObject == raw[k].isObject
  {
    hide *;
    KeysHaveLexemes(items, t);
    SameCount(items, t);
    SameKeysRead(t);
    ParallelAt(Keys(Read(t, Scanned), [], 0), Keys(t, [], 0), k);
    PlacedSpan(Written(items), Keys(t, [], 0)[k], Keys(Read(t, Scanned), [], 0)[k]);
  }

  /** The keys stand at ever later tokens, all before token `j`. */
  predicate Ascending(keys: seq<Key>, j: nat) {
    && (forall i :: 0 <= i < |keys| ==> keys[i].index < j)
    && (forall i, k :: 0 <= i < k < |keys| ==> keys[i].index < keys[k].index)
  }

  lemma TurnAscends(toks: seq<Tok>, i: nat, s: State)
    requires i < |toks| && Ascending(s.out, i)
    ensures Ascending(Turn(toks, i, s).out, i + 1)
  {
    TurnReports(toks, i, s);
    hide Turn;
  }

  /** The machine reports the keys in the order of their tokens. */
  lemma {:induction false} KeysAscend(toks: seq<Tok>, j: nat)
    requires j <= |toks|
    ensures Ascending(Turns(toks, 0, j, START).out, j)
  {
    hide Turn, Ascending;
    if j > 0 {
      KeysAscend(toks, j - 1);
      TurnAscends(toks, j - 1, Turns(toks, 0, j - 1, START));
    } else {
      NoneAscend();
    }
  }

  lemma NoneAscend()
    ensures Ascending([], 0)
  {
  }

  lemma KeysInOrder(items: seq<Item>, t: Tree, j: nat, k: nat)
    requires GoodItems(items) && SpellsAll(Solid(items), Rendered(t)) && j < k < |Keys(t, [], 0)|
    ensures var raw, lexemes := Keys(t, [], 0), Lex(Written(items), 0);
            raw[j].index < |lexemes| && raw[k].index < |lexemes| && lexemes[raw[j].index].to <= lexemes[raw[k].index].from
  {
    var toks := ToksOf(Tokens(Written(items)));
    KeysAscend(toks, |toks|);
    assert ScanKeys(toks) == Turns(toks, 0, |toks|, START).out;
    hide *;
    SameCount(items, t);
    KeysHaveLexemes(items, t);
    SameKeysRead(t);
    ParallelAt(Keys(Read(t, Scanned), [], 0), Keys(t, [], 0), j);
    ParallelAt(Keys(Read(t, Scanned), [], 0), Keys(t, [], 0), k);
    TokensAreLexemes(Written(items));
  }

  lemma WholeStands(toks: seq<Tok>)
    ensures Stands(toks, 0, toks)
  {
    assert toks[0..0 + |toks|] == toks;
  }

  lemma PlacesOfKeys(text: string, lexemes: seq<Lexeme>, toks: seq<Tok>, raw: seq<Key>)
    requires CoverStrings(text, lexemes, toks) && KeysStand(toks, raw)
    ensures forall k :: 0 <= k < |raw| ==>
              && raw[k].segments != [] && raw[k].index < |lexemes|
              && CoversString(text, lexemes[raw[k].index], Str(LastSegment(raw[k])))
  {
    hide CoversString, LastSegment;
  }

  lemma SpansCounted(tokens: seq<Token>, keys: seq<Key>)
    requires InRange(tokens, keys) && Scan(tokens) == SpansOf(tokens, keys)
    ensures |Scan(tokens)| == |keys|
    ensures forall k :: 0 <= k < |keys| ==> keys[k].index < |tokens| && Scan(tokens)[k] == SpanOf(tokens, keys[k])
  {
    hide Scan;
  }

  lemma PlacedSpan(text: string, raw: Key, key: Key)
    requires key.index == raw.index < |Lex(text, 0)| && raw.segments != [] && key.isObject == raw.isObject
    requires CoversString(text, Lex(text, 0)[raw.index], Str(LastSegment(raw)))
    ensures key.index < |Tokens(text)|
    ensures var l, span := Lex(text, 0)[raw.index], SpanOf(Tokens(text), key);
            && SpanShows(text, span, JoinDots(key.segments), LastSegment(raw), l.from, l.to)
            && span.isObject == raw.isObject
  {
    TokensAreLexemes(text);
    hide Lex, JoinDots, LastSegment, Tokens;
    var l := Lex(text, 0)[raw.index];
    AlongLine(text, l.from, l.to);
    hide LineOf, ColOf;
  }
}
