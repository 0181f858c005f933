/** Half-edited files: what the key scanner reports of the part before the damage. Models
    crates/gaviero-core/src/settings_overrides.rs. */
module KeyPrefixes {
  import opened Json
  import opened KeyTokenizer
  import opened KeySpans
  import opened KeyDocuments

  /** Both texts start with the same `n` characters. */
  predicate Agree(s: string, t: string, n: nat) {
    n <= |s| && n <= |t| && s[..n] == t[..n]
  }

  lemma AgreeAt(s: string, t: string, n: nat, i: nat)
    requires Agree(s, t, n) && i < n
    ensures s[i] == t[i]
  {
    assert s[..n][i] == s[i] && t[..n][i] == t[i];
  }

  // ---------------------------------------------------------------------------
  // One turn of the tokenizer

  lemma LineEndAgrees(s: string, t: string, n: nat, i: nat)
    requires Agree(s, t, n) && i <= n && LineEnd(s, i) < n
    ensures LineEnd(t, i) == LineEnd(s, i)
  {
    AgreeAt(s, t, n, LineEnd(s, i));
    var j := LineEnd(t, i);
    if j < LineEnd(s, i) { AgreeAt(s, t, n, j); }
  }

  lemma {:induction false} BlockEndAgrees(s: string, t: string, n: nat, i: nat)
    requires Agree(s, t, n) && i <= n && BlockEnd(s, i) + 2 <= n
    ensures BlockEnd(t, i) == BlockEnd(s, i)
    decreases n - i
  {
    AgreeAt(s, t, n, i);
    AgreeAt(s, t, n, i + 1);
    if BlockEnd(s, i) > i { BlockEndAgrees(s, t, n, i + 1); }
  }

  lemma {:induction false} StringAgrees(s: string, t: string, n: nat, i: nat)
    requires Agree(s, t, n) && i <= n && StringStop(s, i) < n
    ensures StringStop(t, i) == StringStop(s, i) && StringValue(t, i) == StringValue(s, i)
    decreases n - i
  {
    AgreeAt(s, t, n, i);
    if !Stops(s, i) {
      StringStep(s, i);
      AgreeAt(s, t, n, i + 1);
      StringStep(t, i);
      StringAgrees(s, t, n, if Escapes(s, i) then i + 2 else i + 1);
    }
  }

  lemma StringEndAgrees(s: string, t: string, n: nat, i: nat)
    requires Agree(s, t, n) && i <= n && StringEnd(s, i) < n
    ensures StringEnd(t, i) == StringEnd(s, i) && StringValue(t, i) == StringValue(s, i)
  {
    hide StringStop, StringValue;
    StringAgrees(s, t, n, i);
    AgreeAt(s, t, n, StringStop(s, i));
  }

  /** A turn that ends before the texts part is the same turn in both. */
  lemma StepAgrees(s: string, t: string, n: nat, i: nat)
    requires Agree(s, t, n) && i < n && LexStep(s, i).1 < n
    ensures LexStep(t, i) == LexStep(s, i)
  {
    hide StringEnd, StringValue, LineEnd, BlockEnd;
    AgreeAt(s, t, n, i);
    assert i + 1 < n;
    AgreeAt(s, t, n, i + 1);
    if s[i] == '/' && s[i + 1] == '/' {
      LineEndAgrees(s, t, n, i);
    } else if s[i] == '/' && s[i + 1] == '*' {
      BlockEndAgrees(s, t, n, i + 2);
    } else if s[i] == '"' {
      StringEndAgrees(s, t, n, i + 1);
    }
  }

  // ---------------------------------------------------------------------------
  // Tokens

  /** How many lexemes, from the first on, end before offset `n`. */
  function Fitting(lexemes: seq<Lexeme>, n: nat): (m: nat)
    ensures m <= |lexemes|
  {
    if lexemes == [] || lexemes[0].to >= n then 0 else 1 + Fitting(lexemes[1..], n)
  }

  /** Behind a turn that ends at `n` or later nothing fits. */
  lemma NothingFits(text: string, i: nat, n: nat)
    requires i < |text| && LexStep(text, i).1 >= n
    ensures Fitting(Lex(text, i), n) == 0
  {
    LexUnfold(text, i);
    LexIsInOrder(text, LexStep(text, i).1);
    hide Lex, LexStep;
  }

  lemma {:induction false} SameLexemes(s: string, t: string, n: nat, i: nat)
    requires Agree(s, t, n) && i <= n
    ensures Fitting(Lex(s, i), n) == Fitting(Lex(t, i), n)
    ensures Lex(s, i)[..Fitting(Lex(s, i), n)] == Lex(t, i)[..Fitting(Lex(s, i), n)]
    decreases n - i
  {
    hide Lex, LexStep, Agree;
    if i == n {
      BeyondNothingFits(s, n);
      BeyondNothingFits(t, n);
    } else {
      Inside(s, t, n, i);
      if LexStep(s, i).1 < n || LexStep(t, i).1 < n {
        if LexStep(s, i).1 < n { StepAgrees(s, t, n, i); } else { Agrees(s, t, n); StepAgrees(t, s, n, i); }
        var next := LexStep(s, i).1;
        SameLexemes(s, t, n, next);
        LexUnfold(s, i);
        LexUnfold(t, i);
        if LexStep(s, i).0.Some? {
          FitsOneMore(Lex(s, i), Lex(t, i), n);
        }
      } else {
        NothingFits(s, i, n);
        NothingFits(t, i, n);
      }
    }
  }

  lemma Agrees(s: string, t: string, n: nat)
    requires Agree(s, t, n)
    ensures Agree(t, s, n)
  {
  }

  lemma Inside(s: string, t: string, n: nat, i: nat)
    requires Agree(s, t, n) && i < n
    ensures i < |s| && i < |t|
  {
  }

  lemma BeyondNothingFits(text: string, n: nat)
    ensures Fitting(Lex(text, n), n) == 0
  {
    LexIsInOrder(text, n);
    hide Lex;
  }

  lemma FitsOneMore(a: seq<Lexeme>, b: seq<Lexeme>, n: nat)
    requires a != [] && b != [] && a[0] == b[0]
    requires Fitting(a[1..], n) == Fitting(b[1..], n) && a[1..][..Fitting(a[1..], n)] == b[1..][..Fitting(a[1..], n)]
    ensures Fitting(a, n) == Fitting(b, n) && a[..Fitting(a, n)] == b[..Fitting(a, n)]
  {
    if a[0].to < n {
      var m := Fitting(a[1..], n);
      assert a[..m + 1] == [a[0]] + a[1..][..m] && b[..m + 1] == [b[0]] + b[1..][..m];
    }
  }

  lemma {:induction false} SamePosition(s: string, t: string, n: nat, i: nat)
    requires Agree(s, t, n) && i <= n
    ensures LineOf(s, i) == LineOf(t, i) && ColOf(s, i) == ColOf(t, i)
    decreases i
  {
    if i > 0 {
      AgreeAt(s, t, n, i - 1);
      SamePosition(s, t, n, i - 1);
    }
  }

  lemma {:induction false} FittingEndBefore(lexemes: seq<Lexeme>, n: nat)
    ensures forall k :: 0 <= k < Fitting(lexemes, n) ==> lexemes[k].to < n
  {
    if lexemes != [] && lexemes[0].to < n {
      FittingEndBefore(lexemes[1..], n);
      forall k | 0 <= k < Fitting(lexemes, n) ensures lexemes[k].to < n {
        if k > 0 { assert lexemes[k] == lexemes[1..][k - 1]; }
      }
    }
  }

  /** The number of tokens that end before offset `n`. */
  function FittingTokens(text: string, n: nat): nat {
    Fitting(Lex(text, 0), n)
  }

  /** Two texts that start alike have the same tokens, at the same places, as long as the tokens
      end before the texts part. */
  lemma SameTokens(s: string, t: string, n: nat)
    requires Agree(s, t, n)
    ensures var m := FittingTokens(s, n);
            m == FittingTokens(t, n) && m <= |Tokens(s)| && m <= |Tokens(t)| && Tokens(s)[..m] == Tokens(t)[..m]
  {
    var m := FittingTokens(s, n);
    var a, b := Lex(s, 0), Lex(t, 0);
    SameLexemes(s, t, n, 0);
    FittingEndBefore(a, n);
    LexIsInOrder(s, 0);
    LexIsInOrder(t, 0);
    hide Lex, Agree, Fitting, Place;
    forall k | 0 <= k < m ensures Tokens(s)[k] == Tokens(t)[k] {
      assert a[k] == a[..m][k] == b[..m][k] == b[k];
      SamePlace(s, t, n, a[k]);
    }
  }

  lemma SamePlace(s: string, t: string, n: nat, l: Lexeme)
    requires Agree(s, t, n) && l.from < l.to < n
    ensures l.to <= |s| && l.to <= |t| && Place(s, l) == Place(t, l)
  {
    SamePosition(s, t, n, l.from);
    hide LineOf, ColOf;
  }

  // ---------------------------------------------------------------------------
  // Keys

  const START: State := State(Bottom, None, [])

  lemma TurnAgrees(a: seq<Tok>, b: seq<Tok>, m: nat, i: nat, s: State)
    requires m <= |a| && m <= |b| && a[..m] == b[..m] && i + 2 < m
    ensures Turn(a, i, s) == Turn(b, i, s)
  {
    assert forall k :: 0 <= k < m ==> a[k] == a[..m][k] && b[k] == b[..m][k];
    assert TokAt(a, i - 1, Colon) == TokAt(b, i - 1, Colon);
    assert TokAt(a, i + 1, Colon) == TokAt(b, i + 1, Colon);
    assert TokAt(a, i + 2, Open(false)) == TokAt(b, i + 2, Open(false));
    hide TokAt;
  }

  lemma {:induction false} TurnsAgree(a: seq<Tok>, b: seq<Tok>, m: nat, j: nat, s: State)
    requires m <= |a| && m <= |b| && a[..m] == b[..m] && (j == 0 || j + 2 <= m)
    ensures Turns(a, 0, j, s) == Turns(b, 0, j, s)
    decreases j
  {
    if j > 0 {
      hide Turn;
      TurnsAgree(a, b, m, j - 1, s);
      TurnAgrees(a, b, m, j - 1, Turns(a, 0, j - 1, s));
    }
  }

  /** How many keys, from the first on, stand at a token before `j`. */
  function KeysBefore(keys: seq<Key>, j: nat): (c: nat)
    ensures c <= |keys|
  {
    if keys == [] || keys[0].index >= j then 0 else 1 + KeysBefore(keys[1..], j)
  }

  lemma {:induction false} KeysBeforeSplit(a: seq<Key>, b: seq<Key>, j: nat)
    requires forall i :: 0 <= i < |a| ==> a[i].index < j
    requires b == [] || b[0].index >= j
    ensures KeysBefore(a + b, j) == |a|
  {
    if a == [] {
      assert a + b == b;
    } else {
      assert (a + b)[1..] == a[1..] + b;
      KeysBeforeSplit(a[1..], b, j);
    }
  }

  lemma TurnReports(toks: seq<Tok>, i: nat, s: State)
    requires i < |toks|
    ensures Turn(toks, i, s).out == s.out
            || exists k: Key :: k.index == i && Turn(toks, i, s).out == s.out + [k]
  {
    hide Names, InArray, TokAt;
    var r := Turn(toks, i, s);
    if r.out != s.out { assert r.out == s.out + [r.out[|s.out|]] && r.out[|s.out|].index == i; }
  }

  /** The first `j` turns report the keys before token `j`, the later turns only others. */
  lemma {:induction false} LaterKeys(toks: seq<Tok>, j: nat, k: nat)
    requires j <= k <= |toks|
    ensures var early, all := Turns(toks, 0, j, START).out, Turns(toks, 0, k, START).out;
            && |early| <= |all| && all[..|early|] == early
            && (forall i :: 0 <= i < |early| ==> early[i].index < j)
            && (forall i :: |early| <= i < |all| ==> all[i].index >= j)
    decreases k
  {
    hide Turn;
    var last := if k > 0 then Turns(toks, 0, k - 1, START) else START;
    if k > 0 { TurnReports(toks, k - 1, last); }
    if j < k {
      LaterKeys(toks, j, k - 1);
    } else if k > 0 {
      LaterKeys(toks, k - 1, k - 1);
    }
  }

  lemma EarlyKeys(toks: seq<Tok>, j: nat)
    requires j <= |toks|
    ensures var early, all := Turns(toks, 0, j, START).out, ScanKeys(toks);
            KeysBefore(all, j) == |early| && all[..|early|] == early
  {
    LaterKeys(toks, j, |toks|);
    hide Turns;
    var early, all := Turns(toks, 0, j, START).out, ScanKeys(toks);
    assert all == early + all[|early|..];
    KeysBeforeSplit(early, all[|early|..], j);
  }

  /** How many of these keys of a text end, with the two tokens that follow them, before `n`. */
  function KeysThatFit(keys: seq<Key>, text: string, n: nat): (c: nat)
    ensures c <= |keys|
  {
    if FittingTokens(text, n) < 2 then 0 else KeysBefore(keys, FittingTokens(text, n) - 2)
  }

  lemma SpansOfPrefix(s: seq<Token>, t: seq<Token>, m: nat, a: seq<Key>, b: seq<Key>, c: nat)
    requires m <= |s| && m <= |t| && s[..m] == t[..m] && InRange(s, a) && InRange(t, b)
    requires c <= |a| && c <= |b| && a[..c] == b[..c] && forall i :: 0 <= i < c ==> a[i].index < m
    ensures SpansOf(s, a)[..c] == SpansOf(t, b)[..c]
  {
    hide JoinDots;
    forall i | 0 <= i < c ensures SpansOf(s, a)[i] == SpansOf(t, b)[i] {
      assert a[i] == a[..c][i] == b[..c][i] == b[i];
      assert s[a[i].index] == s[..m][a[i].index] == t[..m][a[i].index] == t[a[i].index];
    }
  }

  lemma ToksPrefix(s: seq<Token>, t: seq<Token>, m: nat)
    requires m <= |s| && m <= |t| && s[..m] == t[..m]
    ensures ToksOf(s)[..m] == ToksOf(t)[..m]
  {
    forall k | 0 <= k < m ensures ToksOf(s)[k] == ToksOf(t)[k] { assert s[..m][k] == t[..m][k]; }
  }

  /** Two texts that start alike are reported to hold the same keys, at the same places, up to
      the last key whose next two tokens end before the texts part: whatever the damage behind,
      the keys before it are found. */
  lemma SamePrefixSameKeys(s: string, t: string, n: nat)
    requires Agree(s, t, n)
    ensures var c := KeysThatFit(ScanKeys(ToksOf(Tokens(s))), s, n);
            && c == KeysThatFit(ScanKeys(ToksOf(Tokens(t))), t, n)
            && c <= |Scan(Tokens(s))| && c <= |Scan(Tokens(t))| && Scan(Tokens(s))[..c] == Scan(Tokens(t))[..c]
  {
    hide Tokens, Agree, Turns, FittingTokens, KeysBefore, SpansOf, ScanKeys, InRange;
    var m := FittingTokens(s, n);
    var a, b := Tokens(s), Tokens(t);
    SameTokens(s, t, n);
    KeysInRange(a);
    KeysInRange(b);
    if m >= 2 {
      var j := m - 2;
      ToksPrefix(a, b, m);
      TurnsAgree(ToksOf(a), ToksOf(b), m, j, START);
      EarlyKeys(ToksOf(a), j);
      EarlyKeys(ToksOf(b), j);
      LaterKeys(ToksOf(a), j, j);
      var c := KeysBefore(ScanKeys(ToksOf(a)), j);
      var early := Turns(ToksOf(a), 0, j, START).out;
      assert forall i :: 0 <= i < c ==> ScanKeys(ToksOf(a))[i] == early[i];
      SpansOfPrefix(a, b, m, ScanKeys(ToksOf(a)), ScanKeys(ToksOf(b)), c);
    }
    SpansCount(a);
    SpansCount(b);
  }

  lemma SpansCount(tokens: seq<Token>)
    ensures InRange(tokens, ScanKeys(ToksOf(tokens))) && Scan(tokens) == SpansOf(tokens, ScanKeys(ToksOf(tokens)))
    ensures |Scan(tokens)| == |ScanKeys(ToksOf(tokens))|
  {
    KeysInRange(tokens);
  }

  /** A document that is damaged from offset `n` on still yields its keys before the damage, each
      under its path and at its place. */
  lemma DamagedDocumentKeepsKeys(items: seq<Item>, t: Tree, damaged: string, n: nat)
    requires GoodItems(items) && RawToks(items) == Rendered(t) && Agree(Written(items), damaged, n)
    ensures var keys, tokens := Keys(Read(t, Scanned), [], 0), Tokens(Written(items));
            var c := KeysThatFit(keys, Written(items), n);
            && InRange(tokens, keys) && c <= |SpansOf(tokens, keys)| && c <= |Scan(Tokens(damaged))|
            && Scan(Tokens(damaged))[..c] == SpansOf(tokens, keys)[..c]
  {
    hide *;
    ScanOfWrittenDocument(items, t);
    SamePrefixSameKeys(Written(items), damaged, n);
  }
}
