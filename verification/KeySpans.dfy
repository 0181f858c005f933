/** Recovering dotted key paths from the token list. Models `json_key_spans` of
    crates/gaviero-core/src/settings_overrides.rs; the reference form is JSON text
    (RFC 8259, sections 4 and 5). */
module KeySpans {
  import opened Json
  import opened KeyTokenizer

  datatype JsonKeySpan = JsonKeySpan(path: string, line: nat, startCol: nat, endCol: nat, isObject: bool)

  datatype Frame = Frame(isArray: bool, name: Option<string>)

  datatype Stack = Bottom | Push(top: Frame, below: Stack)

  /** `join(".")`. */
  function JoinDots(parts: seq<string>): string {
    if parts == [] then ""
    else if |parts| == 1 then parts[0]
    else parts[0] + "." + JoinDots(parts[1..])
  }

  /** A key by its segments and the index of its token. */
  datatype Key = Key(segments: seq<string>, index: nat, isObject: bool)

  function SpanOf(tokens: seq<Token>, k: Key): JsonKeySpan
    requires k.index < |tokens|
  {
    var t := tokens[k.index];
    JsonKeySpan(JoinDots(k.segments), t.line, t.startCol, t.endCol, k.isObject)
  }

  predicate InRange(tokens: seq<Token>, keys: seq<Key>) {
    forall i :: 0 <= i < |keys| ==> keys[i].index < |tokens|
  }

  function SpansOf(tokens: seq<Token>, keys: seq<Key>): seq<JsonKeySpan>
    requires InRange(tokens, keys)
  {
    seq(|keys|, i requires 0 <= i < |keys| => SpanOf(tokens, keys[i]))
  }

  function ToksOf(tokens: seq<Token>): (toks: seq<Tok>)
    ensures |toks| == |tokens|
    ensures forall k :: 0 <= k < |toks| ==> toks[k] == tokens[k].tok
  {
    seq(|tokens|, k requires 0 <= k < |tokens| => tokens[k].tok)
  }

  // ---------------------------------------------------------------------------
  // The stack machine

  datatype State = State(stack: Stack, lastKey: Option<string>, out: seq<Key>)

  predicate InArray(stack: Stack) {
    stack.Push? && (stack.top.isArray || InArray(stack.below))
  }

  predicate DirectlyInArray(stack: Stack) {
    stack.Push? && stack.top.isArray
  }

  predicate DirectlyInObject(stack: Stack) {
    stack.Push? && !stack.top.isArray
  }

  function Names(stack: Stack): seq<string> {
    match stack
    case Bottom => []
    case Push(top, below) => Names(below) + if top.name.Some? then [top.name.value] else []
  }

  predicate TokAt(toks: seq<Tok>, i: int, tok: Tok) {
    0 <= i < |toks| && toks[i] == tok
  }

  /** A string directly inside an object, before a colon and not after one. */
  predicate IsKey(toks: seq<Tok>, i: nat, stack: Stack)
    requires i < |toks|
  {
    && toks[i].Str?
    && TokAt(toks, i + 1, Colon)
    && DirectlyInObject(stack)
    && !TokAt(toks, i - 1, Colon)
  }

  function Turn(toks: seq<Tok>, i: nat, s: State): State
    requires i < |toks|
  {
    match toks[i]
    case Open(isArray) =>
      if TokAt(toks, i - 1, Colon) then State(Push(Frame(isArray, s.lastKey), s.stack), None, s.out)
      else s.(stack := Push(Frame(isArray, None), s.stack))
    case Close => if s.stack.Push? then s.(stack := s.stack.below) else s
    case Str(key) =>
      if !IsKey(toks, i, s.stack) then s
      else
        var found := Key(Names(s.stack) + [key], i, TokAt(toks, i + 2, Open(false)));
        s.(lastKey := Some(key), out := if InArray(s.stack) then s.out else s.out + [found])
    case _ => s
  }

  function Turns(toks: seq<Tok>, i: nat, j: nat, s: State): State
    requires i <= j <= |toks|
  {
    if i == j then s else Turn(toks, j - 1, Turns(toks, i, j - 1, s))
  }

  function ScanKeys(toks: seq<Tok>): seq<Key> {
    Turns(toks, 0, |toks|, State(Bottom, None, [])).out
  }

  lemma {:induction false} TurnsInRange(tokens: seq<Token>, j: nat)
    requires j <= |tokens|
    ensures InRange(tokens, Turns(ToksOf(tokens), 0, j, State(Bottom, None, [])).out)
  {
    if j > 0 { TurnsInRange(tokens, j - 1); }
  }

  function Scan(tokens: seq<Token>): seq<JsonKeySpan> {
    TurnsInRange(tokens, |tokens|);
    SpansOf(tokens, ScanKeys(ToksOf(tokens)))
  }

  lemma SpansSnoc(tokens: seq<Token>, keys: seq<Key>, k: Key)
    requires InRange(tokens, keys) && k.index < |tokens|
    ensures InRange(tokens, keys + [k]) && SpansOf(tokens, keys + [k]) == SpansOf(tokens, keys) + [SpanOf(tokens, k)]
  {
  }

  method JsonKeySpans(text: string) returns (out: seq<JsonKeySpan>)
    ensures out == Scan(Tokens(text))
  {
    var tokens := Tokenize(text);
    ghost var toks := ToksOf(tokens);
    var stack := Bottom;
    var lastKey: Option<string> := None;
    ghost var keys: seq<Key> := [];
    out := [];
    for i := 0 to |tokens|
      invariant State(stack, lastKey, keys) == Turns(toks, 0, i, State(Bottom, None, []))
      invariant InRange(tokens, keys) && out == SpansOf(tokens, keys)
    {
      match tokens[i].tok {
        case Open(isArray) =>
          if i > 0 && tokens[i - 1].tok == Colon {
            stack := Push(Frame(isArray, lastKey), stack);
            lastKey := None;
          } else {
            stack := Push(Frame(isArray, None), stack);
          }
        case Close =>
          if stack.Push? {
            stack := stack.below;
          }
        case Str(key) =>
          if i + 1 < |tokens| && tokens[i + 1].tok == Colon && DirectlyInObject(stack)
             && (i == 0 || tokens[i - 1].tok != Colon) {
            lastKey := Some(key);
            if !InArray(stack) {
              var path := Names(stack) + [key];
              var isObject := i + 2 < |tokens| && tokens[i + 2].tok == Open(false);
              SpansSnoc(tokens, keys, Key(path, i, isObject));
              keys := keys + [Key(path, i, isObject)];
              out := out + [JsonKeySpan(JoinDots(path), tokens[i].line, tokens[i].startCol, tokens[i].endCol, isObject)];
            }
          }
        case _ =>
      }
    }
  }

  // ---------------------------------------------------------------------------
  // JSON trees, their tokens and their keys

  /** A number, `true`, `false` or `null` is as many stray characters as it is long. */
  datatype Tree = Scalar(extra: nat) | Text(value: string) | Arr(elements: Elements) | Obj(members: Members)

  datatype Elements = NoElement | Element(value: Tree, next: Elements)

  datatype Members = NoMember | Member(key: string, value: Tree, next: Members)

  function Others(n: nat): seq<Tok> {
    if n == 0 then [] else Others(n - 1) + [Other]
  }

  function Separator(needed: bool): seq<Tok> {
    if needed then [Comma] else []
  }

  function Rendered(t: Tree): (toks: seq<Tok>)
    ensures toks != []
    ensures toks[0] == Open(false) <==> t.Obj?
    decreases t, 0
  {
    match t
    case Scalar(extra) => [Other] + Others(extra)
    case Text(value) => [Str(value)]
    case Arr(elements) => [Open(true)] + RenderedElements(elements) + [Close]
    case Obj(members) => [Open(false)] + RenderedMembers(members) + [Close]
  }

  function RenderedElements(es: Elements): seq<Tok>
    decreases es
  {
    match es
    case NoElement => []
    case Element(value, next) => Rendered(value) + Separator(next.Element?) + RenderedElements(next)
  }

  function RenderedMembers(ms: Members): seq<Tok>
    decreases ms
  {
    match ms
    case NoMember => []
    case Member(key, value, next) => RenderedMember(key, value) + Separator(next.Member?) + RenderedMembers(next)
  }

  function RenderedMember(key: string, value: Tree): seq<Tok>
    decreases value, 1
  {
    [Str(key), Colon] + Rendered(value)
  }

  /** The object keys outside arrays, in pre-order, of a tree whose tokens start at `at` below
      the keys `names`. */
  function Keys(t: Tree, names: seq<string>, at: nat): seq<Key>
    decreases t, 0
  {
    match t
    case Obj(members) => MemberKeys(members, names, at + 1)
    case _ => []
  }

  function MemberKeys(ms: Members, names: seq<string>, at: nat): seq<Key>
    decreases ms
  {
    match ms
    case NoMember => []
    case Member(key, value, next) =>
      MemberKey(key, value, names, at)
      + MemberKeys(next, names, at + |RenderedMember(key, value)| + |Separator(next.Member?)|)
  }

  function MemberKey(key: string, value: Tree, names: seq<string>, at: nat): seq<Key>
    decreases value, 1
  {
    [Key(names + [key], at, value.Obj?)] + Keys(value, names + [key], at + 2)
  }

  // ---------------------------------------------------------------------------
  // The machine on a rendered tree

  /** `part` stands in the list from `i` on. */
  ghost predicate Stands(toks: seq<Tok>, i: nat, part: seq<Tok>) {
    i + |part| <= |toks| && toks[i..i + |part|] == part
  }

  lemma StandsSplit(toks: seq<Tok>, i: nat, a: seq<Tok>, b: seq<Tok>)
    requires Stands(toks, i, a + b)
    ensures Stands(toks, i, a) && Stands(toks, i + |a|, b)
  {
    var all := toks[i..i + |a + b|];
    assert toks[i..i + |a|] == all[..|a|] == a;
    assert toks[i + |a|..i + |a| + |b|] == all[|a|..] == b;
  }

  lemma StandsWithin(toks: seq<Tok>, i: nat, part: seq<Tok>)
    requires Stands(toks, i, part)
    ensures i + |part| <= |toks|
  {
  }

  lemma StandsInThree(toks: seq<Tok>, i: nat, a: seq<Tok>, b: seq<Tok>, c: seq<Tok>)
    requires Stands(toks, i, a + b + c)
    ensures Stands(toks, i, a) && Stands(toks, i + |a|, b) && Stands(toks, i + |a| + |b|, c)
  {
    StandsSplit(toks, i, a + b, c);
    StandsSplit(toks, i, a, b);
  }

  lemma StandsAt(toks: seq<Tok>, i: nat, part: seq<Tok>, k: nat)
    requires Stands(toks, i, part) && k < |part|
    ensures toks[i + k] == part[k]
  {
    assert toks[i..i + |part|][k] == part[k];
  }

  lemma {:induction false} TurnsSplit(toks: seq<Tok>, i: nat, j: nat, k: nat, s: State)
    requires i <= j <= k <= |toks|
    ensures Turns(toks, i, k, s) == Turns(toks, j, k, Turns(toks, i, j, s))
    decreases k
  {
    if j < k { TurnsSplit(toks, i, j, k - 1, s); }
  }

  lemma OneTurn(toks: seq<Tok>, i: nat, s: State)
    requires i < |toks|
    ensures Turns(toks, i, i + 1, s) == Turn(toks, i, s)
  {
  }

  /** `after` is `before` with `keys` found, unless an array encloses them. */
  ghost predicate Adds(before: State, after: State, keys: seq<Key>) {
    after.stack == before.stack && after.out == if InArray(before.stack) then before.out else before.out + keys
  }

  lemma {:induction false} ScanOthers(toks: seq<Tok>, i: nat, n: nat, s: State)
    requires Stands(toks, i, Others(n))
    ensures |Others(n)| == n && Turns(toks, i, i + n, s) == s
  {
    if n > 0 {
      StandsSplit(toks, i, Others(n - 1), [Other]);
      ScanOthers(toks, i, n - 1, s);
      StandsAt(toks, i + (n - 1), [Other], 0);
    }
  }

  /** Where a value may stand: after the colon of its key, in an array, or alone. */
  ghost predicate ValuePlace(toks: seq<Tok>, i: nat, s: State) {
    TokAt(toks, i - 1, Colon) || s.stack == Bottom || DirectlyInArray(s.stack)
  }

  /** The names of the keys above the members of an object that opens here. */
  ghost function NamesBelow(toks: seq<Tok>, i: nat, s: State): seq<string> {
    if TokAt(toks, i - 1, Colon) && s.lastKey.Some? then Names(s.stack) + [s.lastKey.value] else Names(s.stack)
  }

  lemma ScanScalar(toks: seq<Tok>, i: nat, extra: nat, s: State)
    requires Stands(toks, i, [Other] + Others(extra))
    ensures Turns(toks, i, i + |[Other] + Others(extra)|, s) == s
  {
    StandsSplit(toks, i, [Other], Others(extra));
    StandsAt(toks, i, [Other], 0);
    OneTurn(toks, i, s);
    ScanOthers(toks, i + 1, extra, s);
    TurnsSplit(toks, i, i + 1, i + 1 + extra, s);
  }

  /** A string that is a value is not taken for a key. */
  lemma ScanText(toks: seq<Tok>, i: nat, value: string, s: State)
    requires Stands(toks, i, [Str(value)]) && ValuePlace(toks, i, s)
    ensures Turns(toks, i, i + 1, s) == s
  {
    StandsAt(toks, i, [Str(value)], 0);
    OneTurn(toks, i, s);
  }

  lemma {:induction false} ScanTree(toks: seq<Tok>, i: nat, t: Tree, s: State)
    requires Stands(toks, i, Rendered(t)) && ValuePlace(toks, i, s)
    ensures Adds(s, Turns(toks, i, i + |Rendered(t)|, s), Keys(t, NamesBelow(toks, i, s), i))
    decreases t, 1
  {
    match t {
      case Scalar(extra) => ScanScalar(toks, i, extra, s);
      case Text(value) => ScanText(toks, i, value, s);
      case Arr(elements) => ScanArray(toks, i, elements, s);
      case Obj(members) => ScanObject(toks, i, members, s);
    }
  }

  lemma {:induction false} ScanArray(toks: seq<Tok>, i: nat, es: Elements, s: State)
    requires Stands(toks, i, [Open(true)] + RenderedElements(es) + [Close])
    ensures Adds(s, Turns(toks, i, i + 2 + |RenderedElements(es)|, s), [])
    decreases es, 1
  {
    StandsBracketed(toks, i, Open(true), RenderedElements(es));
    ScanElements(toks, i + 1, es, Turn(toks, i, s));
    ArrayFrame(toks, i, i + 2 + |RenderedElements(es)|, s);
  }

  lemma {:induction false} ScanObject(toks: seq<Tok>, i: nat, ms: Members, s: State)
    requires Stands(toks, i, [Open(false)] + RenderedMembers(ms) + [Close])
    ensures Adds(s, Turns(toks, i, i + 2 + |RenderedMembers(ms)|, s), MemberKeys(ms, NamesBelow(toks, i, s), i + 1))
    decreases ms, 2
  {
    hide Stands, Turns, Turn, Adds, MemberKeys, RenderedMembers, Names, NamesBelow, DirectlyInObject;
    StandsBracketed(toks, i, Open(false), RenderedMembers(ms));
    ObjectOpens(toks, i, s);
    ScanMembers(toks, i + 1, ms, Turn(toks, i, s));
    ObjectFrame(toks, i, i + 2 + |RenderedMembers(ms)|, s, MemberKeys(ms, NamesBelow(toks, i, s), i + 1));
  }

  lemma ObjectOpens(toks: seq<Tok>, i: nat, s: State)
    requires i < |toks| && toks[i] == Open(false)
    ensures DirectlyInObject(Turn(toks, i, s).stack) && Names(Turn(toks, i, s).stack) == NamesBelow(toks, i, s)
  {
  }

  lemma StandsBracketed(toks: seq<Tok>, i: nat, open: Tok, inner: seq<Tok>)
    requires Stands(toks, i, [open] + inner + [Close])
    ensures Stands(toks, i + 1, inner) && toks[i] == open && TokAt(toks, i + 1 + |inner|, Close)
  {
    StandsSplit(toks, i, [open] + inner, [Close]);
    StandsSplit(toks, i, [open], inner);
    StandsAt(toks, i + 1 + |inner|, [Close], 0);
    StandsAt(toks, i, [open], 0);
  }

  /** A bracket pair around tokens that leave the stack as they find it. */
  lemma Bracketed(toks: seq<Tok>, i: nat, n: nat, s: State)
    requires i + 2 <= n <= |toks| && toks[i].Open? && toks[n - 1] == Close
    requires Turns(toks, i + 1, n - 1, Turn(toks, i, s)).stack == Turn(toks, i, s).stack
    ensures Turns(toks, i, n, s).stack == s.stack
    ensures Turns(toks, i, n, s).out == Turns(toks, i + 1, n - 1, Turn(toks, i, s)).out
  {
    var first := Turn(toks, i, s);
    OneTurn(toks, i, s);
    TurnsSplit(toks, i, i + 1, n, s);
    assert first.stack.below == s.stack;
  }

  lemma ArrayFrame(toks: seq<Tok>, i: nat, n: nat, s: State)
    requires i + 2 <= n <= |toks| && toks[i] == Open(true) && toks[n - 1] == Close
    requires Adds(Turn(toks, i, s), Turns(toks, i + 1, n - 1, Turn(toks, i, s)), [])
    ensures Adds(s, Turns(toks, i, n, s), [])
  {
    var first := Turn(toks, i, s);
    Bracketed(toks, i, n, s);
  }

  lemma ObjectFrame(toks: seq<Tok>, i: nat, n: nat, s: State, keys: seq<Key>)
    requires i + 2 <= n <= |toks| && toks[i] == Open(false) && toks[n - 1] == Close
    requires Adds(Turn(toks, i, s), Turns(toks, i + 1, n - 1, Turn(toks, i, s)), keys)
    ensures Adds(s, Turns(toks, i, n, s), keys)
  {
    Bracketed(toks, i, n, s);
  }

  lemma TwoRuns(toks: seq<Tok>, i: nat, j: nat, n: nat, s: State, a: seq<Key>, b: seq<Key>)
    requires i <= j <= n <= |toks|
    requires Adds(s, Turns(toks, i, j, s), a)
    requires Adds(Turns(toks, i, j, s), Turns(toks, j, n, Turns(toks, i, j, s)), b)
    ensures Adds(s, Turns(toks, i, n, s), a + b)
  {
    hide Turns;
    TurnsSplit(toks, i, j, n, s);
  }

  /** A part, a separator, and the rest. */
  lemma ThreeRuns(toks: seq<Tok>, i: nat, j: nat, k: nat, n: nat, s: State, a: seq<Key>, b: seq<Key>)
    requires i <= j <= k <= n <= |toks|
    requires Adds(s, Turns(toks, i, j, s), a)
    requires Turns(toks, j, k, Turns(toks, i, j, s)) == Turns(toks, i, j, s)
    requires Adds(Turns(toks, i, j, s), Turns(toks, k, n, Turns(toks, i, j, s)), b)
    ensures Adds(s, Turns(toks, i, n, s), a + b)
  {
    TurnsSplit(toks, i, k, n, s);
    TurnsSplit(toks, i, j, k, s);
  }

  lemma NothingFromThree(toks: seq<Tok>, i: nat, j: nat, k: nat, n: nat, s: State)
    requires i <= j <= k <= n <= |toks|
    requires Adds(s, Turns(toks, i, j, s), [])
    requires Turns(toks, j, k, Turns(toks, i, j, s)) == Turns(toks, i, j, s)
    requires Adds(Turns(toks, i, j, s), Turns(toks, k, n, Turns(toks, i, j, s)), [])
    ensures Adds(s, Turns(toks, i, n, s), [])
  {
    hide *;
    ThreeRuns(toks, i, j, k, n, s, [], []);
    ghost var none: seq<Key> := [];
    assert none + none == none;
  }

  lemma ScanSeparator(toks: seq<Tok>, i: nat, needed: bool, s: State)
    requires Stands(toks, i, Separator(needed))
    ensures Turns(toks, i, i + |Separator(needed)|, s) == s
    ensures needed ==> toks[i] == Comma
  {
    if needed {
      StandsAt(toks, i, Separator(needed), 0);
      OneTurn(toks, i, s);
    }
  }

  lemma {:induction false} ScanElements(toks: seq<Tok>, i: nat, es: Elements, s: State)
    requires Stands(toks, i, RenderedElements(es))
    requires DirectlyInArray(s.stack)
    ensures Adds(s, Turns(toks, i, i + |RenderedElements(es)|, s), [])
    decreases es, 0
  {
    hide Turns, Turn, NamesBelow, Adds, Stands, Keys, Rendered, Names, InArray, ValuePlace, TokAt;
    StandsWithin(toks, i, RenderedElements(es));
    ElementPlace(toks, i, s);
    match es {
      case NoElement => NothingAdds(toks, i, s);
      case Element(value, next) =>
        var j := i + |Rendered(value)|;
        var k := j + |Separator(next.Element?)|;
        StandsInThree(toks, i, Rendered(value), Separator(next.Element?), RenderedElements(next));
        ScanTree(toks, i, value, s);
        ScanSeparator(toks, j, next.Element?, Turns(toks, i, j, s));
        InArrayAddsNothing(s, Turns(toks, i, j, s), Keys(value, NamesBelow(toks, i, s), i));
        ScanElements(toks, k, next, Turns(toks, i, j, s));
        NothingFromThree(toks, i, j, k, k + |RenderedElements(next)|, s);
    }
  }

  lemma ElementPlace(toks: seq<Tok>, i: nat, s: State)
    requires DirectlyInArray(s.stack)
    ensures ValuePlace(toks, i, s)
  {
  }

  lemma InArrayAddsNothing(s: State, after: State, keys: seq<Key>)
    requires DirectlyInArray(s.stack) && Adds(s, after, keys)
    ensures Adds(s, after, []) && after.stack == s.stack
  {
  }

  lemma NothingAdds(toks: seq<Tok>, i: nat, s: State)
    requires i <= |toks|
    ensures Adds(s, Turns(toks, i, i, s), [])
  {
  }

  lemma AddsKeepsStack(s: State, after: State, keys: seq<Key>)
    requires Adds(s, after, keys)
    ensures after.stack == s.stack
  {
  }

  lemma {:induction false} ScanMembers(toks: seq<Tok>, i: nat, ms: Members, s: State)
    requires Stands(toks, i, RenderedMembers(ms))
    requires DirectlyInObject(s.stack) && !(ms.Member? && TokAt(toks, i - 1, Colon))
    ensures Adds(s, Turns(toks, i, i + |RenderedMembers(ms)|, s), MemberKeys(ms, Names(s.stack), i))
    decreases ms, 1
  {
    hide Turns, Turn, Adds, Stands, Names, RenderedMember, MemberKey, InArray, Keys, Rendered;
    StandsWithin(toks, i, RenderedMembers(ms));
    if ms.NoMember? {
      NothingAdds(toks, i, s);
    } else {
      var next, n := ms.next, i + |RenderedMembers(ms)|;
      var j := i + |RenderedMember(ms.key, ms.value)|;
      StandsInThree(toks, i, RenderedMember(ms.key, ms.value), Separator(next.Member?), RenderedMembers(next));
      ScanMember(toks, i, ms.key, ms.value, s);
      AddsKeepsStack(s, Turns(toks, i, j, s), MemberKey(ms.key, ms.value, Names(s.stack), i));
      StandsWithin(toks, j, Separator(next.Member?));
      StandsWithin(toks, j + |Separator(next.Member?)|, RenderedMembers(next));
      ScanFurtherMembers(toks, j, next, Turns(toks, i, j, s));
      JoinMembers(toks, i, j, n, s, ms);
    }
  }

  lemma JoinMembers(toks: seq<Tok>, i: nat, j: nat, n: nat, s: State, ms: Members)
    requires ms.Member? && i <= j <= n <= |toks|
    requires j == i + |RenderedMember(ms.key, ms.value)|
    requires Adds(s, Turns(toks, i, j, s), MemberKey(ms.key, ms.value, Names(s.stack), i))
    requires Adds(Turns(toks, i, j, s), Turns(toks, j, n, Turns(toks, i, j, s)),
                  MemberKeys(ms.next, Names(Turns(toks, i, j, s).stack), j + |Separator(ms.next.Member?)|))
    ensures Adds(s, Turns(toks, i, n, s), MemberKeys(ms, Names(s.stack), i))
  {
    hide Turns, Names, RenderedMember, MemberKey;
    TurnsSplit(toks, i, j, n, s);
  }

  lemma {:induction false} ScanFurtherMembers(toks: seq<Tok>, j: nat, next: Members, s: State)
    requires Stands(toks, j, Separator(next.Member?))
    requires Stands(toks, j + |Separator(next.Member?)|, RenderedMembers(next))
    requires DirectlyInObject(s.stack)
    ensures var k := j + |Separator(next.Member?)|;
            Adds(s, Turns(toks, j, k + |RenderedMembers(next)|, s), MemberKeys(next, Names(s.stack), k))
    decreases next, 2
  {
    hide Turns, Turn, Adds, Stands, Names, RenderedMembers, MemberKeys, Rendered;
    var k := j + |Separator(next.Member?)|;
    StandsWithin(toks, k, RenderedMembers(next));
    StandsWithin(toks, j, Separator(next.Member?));
    ScanSeparator(toks, j, next.Member?, s);
    ScanMembers(toks, k, next, s);
    TurnsSplit(toks, j, k, k + |RenderedMembers(next)|, s);
  }

  lemma {:induction false} ScanMember(toks: seq<Tok>, i: nat, key: string, value: Tree, s: State)
    requires Stands(toks, i, RenderedMember(key, value))
    requires DirectlyInObject(s.stack) && !TokAt(toks, i - 1, Colon)
    ensures Adds(s, Turns(toks, i, i + |RenderedMember(key, value)|, s), MemberKey(key, value, Names(s.stack), i))
    decreases value, 2
  {
    hide Turns, Adds, Names, Keys, NamesBelow, ValuePlace, TokAt, Stands, Rendered;
    var names, v := Names(s.stack), i + 2;
    StandsWithin(toks, i, RenderedMember(key, value));
    MemberHeading(toks, i, key, value, s);
    ScanTree(toks, v, value, Turns(toks, i, v, s));
    TwoRuns(toks, i, v, i + |RenderedMember(key, value)|, s,
            [Key(names + [key], i, value.Obj?)], Keys(value, names + [key], v));
  }

  lemma MemberHeading(toks: seq<Tok>, i: nat, key: string, value: Tree, s: State)
    requires Stands(toks, i, RenderedMember(key, value))
    requires DirectlyInObject(s.stack) && !TokAt(toks, i - 1, Colon)
    ensures Stands(toks, i + 2, Rendered(value))
    ensures var s1 := Turns(toks, i, i + 2, s);
            && Adds(s, s1, [Key(Names(s.stack) + [key], i, value.Obj?)])
            && ValuePlace(toks, i + 2, s1) && NamesBelow(toks, i + 2, s1) == Names(s.stack) + [key]
  {
    var heading := [Str(key), Colon];
    StandsSplit(toks, i, heading, Rendered(value));
    StandsAt(toks, i, heading, 0);
    StandsAt(toks, i, heading, 1);
    StandsAt(toks, i + 2, Rendered(value), 0);
    OneTurn(toks, i, s);
    TurnsSplit(toks, i, i + 1, i + 2, s);
    OneTurn(toks, i + 1, Turn(toks, i, s));
  }

  /** On the tokens of any JSON tree the machine finds exactly the object keys outside arrays,
      in pre-order, with their paths and flags. */
  lemma ScanFindsKeys(t: Tree)
    ensures ScanKeys(Rendered(t)) == Keys(t, [], 0)
  {
    var toks := Rendered(t);
    assert toks[0..0 + |toks|] == toks;
    ScanTree(toks, 0, t, State(Bottom, None, []));
  }
}
