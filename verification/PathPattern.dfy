/** Glob path patterns: when two patterns share a path, and when a path matches.
    Models crates/gaviero-core/src/path_pattern.rs. */
module PathPattern {

  datatype Tok = Lit(c: char) | Question | Star | StarStar {
    predicate IsStar() { Star? || StarStar? }
  }

  // ---------------------------------------------------------------------------
  // Denotation: the texts a token list accepts

  ghost predicate Passes(star: Tok, text: string)
    requires star.IsStar()
  {
    star.Star? ==> '/' !in text
  }

  ghost predicate Accepts(ts: seq<Tok>, text: string) {
    if ts == [] then text == ""
    else match ts[0]
      case Lit(c) => text != "" && text[0] == c && Accepts(ts[1..], text[1..])
      case Question => text != "" && text[0] != '/' && Accepts(ts[1..], text[1..])
      case _ => exists k :: 0 <= k <= |text| && Passes(ts[0], text[..k]) && Accepts(ts[1..], text[k..])
  }

  ghost predicate AcceptBoth(a: seq<Tok>, b: seq<Tok>, text: string) {
    Accepts(a, text) && Accepts(b, text)
  }

  /** Some text is accepted by both token lists. */
  ghost predicate Meet(a: seq<Tok>, b: seq<Tok>) {
    exists text :: AcceptBoth(a, b, text)
  }

  // ---------------------------------------------------------------------------
  // The recursion without its memo

  predicate TailAcceptsEmpty(ts: seq<Tok>) {
    forall i :: 0 <= i < |ts| ==> ts[i].IsStar()
  }

  predicate StarCanConsume(star: Tok, other: Tok) {
    match (star, other)
    case (StarStar, _) => true
    case (Star, Lit(c)) => c != '/'
    case (Star, _) => true
    case _ => false
  }

  predicate CharsAgree(a: Tok, b: Tok)
    requires !a.IsStar() && !b.IsStar()
  {
    match (a, b)
    case (Lit(c), Lit(d)) => c == d
    case (Lit(c), Question) => c != '/'
    case (Question, Lit(c)) => c != '/'
    case (Question, Question) => true
  }

  predicate Decide(a: seq<Tok>, b: seq<Tok>, i: nat, j: nat)
    requires i <= |a| && j <= |b|
    decreases |a| - i + |b| - j
  {
    if i == |a| && j == |b| then true
    else if i == |a| then TailAcceptsEmpty(b[j..])
    else if j == |b| then TailAcceptsEmpty(a[i..])
    else if a[i].IsStar() && b[j].IsStar() then
      Decide(a, b, i + 1, j) || Decide(a, b, i, j + 1) || Decide(a, b, i + 1, j + 1)
    else if a[i].IsStar() then
      Decide(a, b, i + 1, j) || (StarCanConsume(a[i], b[j]) && Decide(a, b, i, j + 1))
    else if b[j].IsStar() then
      Decide(a, b, i, j + 1) || (StarCanConsume(b[j], a[i]) && Decide(a, b, i + 1, j))
    else
      CharsAgree(a[i], b[j]) && Decide(a, b, i + 1, j + 1)
  }

  // ---------------------------------------------------------------------------
  // The recursion decides non-empty intersection

  lemma {:induction false} AcceptsEmpty(ts: seq<Tok>)
    ensures Accepts(ts, "") <==> TailAcceptsEmpty(ts)
  {
    if ts != [] {
      AcceptsEmpty(ts[1..]);
      if ts[0].IsStar() {
        assert ""[..0] == "" && ""[0..] == "";
        assert TailAcceptsEmpty(ts[1..]) ==> Passes(ts[0], ""[..0]) && Accepts(ts[1..], ""[0..]);
        if TailAcceptsEmpty(ts[1..]) {
          forall i | 0 <= i < |ts| ensures ts[i].IsStar() { if i > 0 { assert ts[i] == ts[1..][i - 1]; } }
        }
      }
    }
  }

  lemma StarSplit(ts: seq<Tok>, text: string) returns (k: nat)
    requires ts != [] && ts[0].IsStar() && Accepts(ts, text)
    ensures k <= |text| && Passes(ts[0], text[..k]) && Accepts(ts[1..], text[k..])
  {
    k :| 0 <= k <= |text| && Passes(ts[0], text[..k]) && Accepts(ts[1..], text[k..]);
  }

  lemma StarJoin(ts: seq<Tok>, text: string, k: nat)
    requires ts != [] && ts[0].IsStar()
    requires k <= |text| && Passes(ts[0], text[..k]) && Accepts(ts[1..], text[k..])
    ensures Accepts(ts, text)
  {
  }

  lemma StarAcceptsRest(ts: seq<Tok>, text: string)
    requires ts != [] && ts[0].IsStar() && Accepts(ts[1..], text)
    ensures Accepts(ts, text)
  {
    assert text[..0] == "" && text[0..] == text;
    assert Passes(ts[0], text[..0]) && Accepts(ts[1..], text[0..]);
  }

  lemma StarAcceptsMore(ts: seq<Tok>, c: char, text: string)
    requires ts != [] && ts[0].IsStar() && Accepts(ts, text)
    requires ts[0].Star? ==> c != '/'
    ensures Accepts(ts, [c] + text)
  {
    var k := StarSplit(ts, text);
    var longer := [c] + text;
    assert longer[..k + 1] == [c] + text[..k] && longer[k + 1..] == text[k..];
    assert Passes(ts[0], longer[..k + 1]) && Accepts(ts[1..], longer[k + 1..]);
  }

  /** A star-headed list that accepts `text` also accepts it from any point the star has passed. */
  lemma StarAcceptsLater(ts: seq<Tok>, text: string, k: nat, from: nat)
    requires ts != [] && ts[0].IsStar() && from <= k <= |text|
    requires Passes(ts[0], text[..k]) && Accepts(ts[1..], text[k..])
    ensures Accepts(ts, text[from..])
  {
    var rest := text[from..];
    assert rest[..k - from] == text[..k][from..] && rest[k - from..] == text[k..];
    assert Passes(ts[0], rest[..k - from]) && Accepts(ts[1..], rest[k - from..]);
  }

  /** Two stars: the one that passes less can be dropped, so the third disjunct is not needed. */
  lemma PassedByStar(ts: seq<Tok>, text: string) returns (k: nat)
    requires ts != [] && ts[0].IsStar() && Accepts(ts, text)
    ensures k <= |text| && Passes(ts[0], text[..k]) && Accepts(ts[1..], text[k..])
  {
    k :| 0 <= k <= |text| && Passes(ts[0], text[..k]) && Accepts(ts[1..], text[k..]);
  }

  lemma MeetStars(a: seq<Tok>, b: seq<Tok>)
    requires a != [] && b != [] && a[0].IsStar() && b[0].IsStar()
    ensures Meet(a, b) <==> Meet(a[1..], b) || Meet(a, b[1..])
    ensures Meet(a[1..], b[1..]) ==> Meet(a[1..], b)
  {
    hide Accepts, Passes;
    if text :| AcceptBoth(a, b, text) {
      var k := PassedByStar(a, text);
      var m := PassedByStar(b, text);
      if k <= m {
        StarAcceptsLater(b, text, m, k);
        assert AcceptBoth(a[1..], b, text[k..]);
      } else {
        StarAcceptsLater(a, text, k, m);
        assert AcceptBoth(a, b[1..], text[m..]);
      }
    }
    if text :| AcceptBoth(a[1..], b, text) {
      StarAcceptsRest(a, text);
      assert AcceptBoth(a, b, text);
    }
    if text :| AcceptBoth(a, b[1..], text) {
      StarAcceptsRest(b, text);
      assert AcceptBoth(a, b, text);
    }
    if text :| AcceptBoth(a[1..], b[1..], text) {
      StarAcceptsRest(b, text);
      assert AcceptBoth(a[1..], b, text);
    }
  }

  lemma MeetSymmetric(a: seq<Tok>, b: seq<Tok>)
    ensures Meet(a, b) <==> Meet(b, a)
  {
    if text :| AcceptBoth(a, b, text) { assert AcceptBoth(b, a, text); }
    if text :| AcceptBoth(b, a, text) { assert AcceptBoth(a, b, text); }
  }

  lemma MeetStarChar(a: seq<Tok>, b: seq<Tok>)
    requires a != [] && b != [] && a[0].IsStar() && !b[0].IsStar()
    ensures Meet(a, b) <==> Meet(a[1..], b) || (StarCanConsume(a[0], b[0]) && Meet(a, b[1..]))
  {
    if text :| AcceptBoth(a, b, text) {
      var k := StarSplit(a, text);
      if k == 0 {
        assert text[0..] == text;
        assert AcceptBoth(a[1..], b, text);
      } else {
        assert text[..k][0] == text[0];
        StarAcceptsLater(a, text, k, 1);
        assert AcceptBoth(a, b[1..], text[1..]);
      }
    }
    if text :| AcceptBoth(a[1..], b, text) {
      StarAcceptsRest(a, text);
      assert AcceptBoth(a, b, text);
    }
    if text :| StarCanConsume(a[0], b[0]) && AcceptBoth(a, b[1..], text) {
      var c := if b[0].Lit? then b[0].c else 'x';
      StarAcceptsMore(a, c, text);
      assert ([c] + text)[1..] == text;
      assert AcceptBoth(a, b, [c] + text);
    }
  }

  lemma MeetChars(a: seq<Tok>, b: seq<Tok>)
    requires a != [] && b != [] && !a[0].IsStar() && !b[0].IsStar()
    ensures Meet(a, b) <==> CharsAgree(a[0], b[0]) && Meet(a[1..], b[1..])
  {
    if text :| AcceptBoth(a, b, text) {
      assert AcceptBoth(a[1..], b[1..], text[1..]);
    }
    if text :| CharsAgree(a[0], b[0]) && AcceptBoth(a[1..], b[1..], text) {
      var c := if a[0].Lit? then a[0].c else if b[0].Lit? then b[0].c else 'x';
      assert ([c] + text)[1..] == text;
      assert AcceptBoth(a, b, [c] + text);
    }
  }

  lemma MeetEmpty(b: seq<Tok>)
    ensures Meet([], b) <==> TailAcceptsEmpty(b)
  {
    AcceptsEmpty(b);
    assert Accepts(b, "") ==> AcceptBoth([], b, "");
  }

  /** The recursion is exact, although the file only promises a conservative answer. */
  lemma {:induction false} DecideIsExact(a: seq<Tok>, b: seq<Tok>, i: nat, j: nat)
    requires i <= |a| && j <= |b|
    ensures Decide(a, b, i, j) <==> Meet(a[i..], b[j..])
    decreases |a| - i + |b| - j
  {
    var x, y := a[i..], b[j..];
    if i == |a| {
      assert x == [];
      MeetEmpty(y);
    } else if j == |b| {
      assert y == [];
      MeetEmpty(x);
      MeetSymmetric(x, y);
    } else {
      assert x[1..] == a[i + 1..] && y[1..] == b[j + 1..];
      DecideIsExact(a, b, i + 1, j);
      DecideIsExact(a, b, i, j + 1);
      DecideIsExact(a, b, i + 1, j + 1);
      if x[0].IsStar() && y[0].IsStar() {
        MeetStars(x, y);
      } else if x[0].IsStar() {
        MeetStarChar(x, y);
      } else if y[0].IsStar() {
        MeetStarChar(y, x);
        MeetSymmetric(x, y);
        MeetSymmetric(x, y[1..]);
        MeetSymmetric(x[1..], y);
      } else {
        MeetChars(x, y);
      }
    }
  }

  /** Advancing both stars at once never decides anything the other two branches do not. */
  lemma ThirdBranchRedundant(a: seq<Tok>, b: seq<Tok>, i: nat, j: nat)
    requires i < |a| && j < |b| && a[i].IsStar() && b[j].IsStar()
    ensures Decide(a, b, i, j) <==> Decide(a, b, i + 1, j) || Decide(a, b, i, j + 1)
  {
    DecideIsExact(a, b, i + 1, j + 1);
    DecideIsExact(a, b, i + 1, j);
    assert a[i..][1..] == a[i + 1..] && b[j..][1..] == b[j + 1..];
    MeetStars(a[i..], b[j..]);
  }

  // ---------------------------------------------------------------------------
  // The memoised recursion

  datatype Cell = Cell(i: nat, j: nat)

  /** The memo table of one intersection, with a record of how often each pair was expanded. */
  class Memo {
    var table: map<Cell, bool>
    ghost var expansions: multiset<Cell>

    constructor ()
      ensures table == map[] && expansions == multiset{}
    {
      table := map[];
      expansions := multiset{};
    }
  }

  /** Every stored answer is the answer of the memo-free recursion. */
  ghost predicate Correct(table: map<Cell, bool>, a: seq<Tok>, b: seq<Tok>) {
    forall c :: c in table ==> c.i <= |a| && c.j <= |b| && (table[c] <==> Decide(a, b, c.i, c.j))
  }

  /** What a call at (i,j) does to the memo: old pairs stay, only pairs at or beyond (i,j) are
      added, and exactly the added pairs are expanded, once each. */
  ghost predicate Grows(s0: set<Cell>, e0: multiset<Cell>, s1: set<Cell>, e1: multiset<Cell>, i: nat, j: nat) {
    && s0 <= s1
    && (forall c :: c in s1 && c !in s0 ==> c.i >= i && c.j >= j)
    && e1 == e0 + multiset(s1 - s0)
  }

  lemma GrowsThenGrows(s0: set<Cell>, e0: multiset<Cell>, s1: set<Cell>, e1: multiset<Cell>,
                       s2: set<Cell>, e2: multiset<Cell>, i: nat, j: nat, i1: nat, j1: nat, i2: nat, j2: nat)
    requires Grows(s0, e0, s1, e1, i1, j1) && Grows(s1, e1, s2, e2, i2, j2)
    requires i <= i1 && j <= j1 && i <= i2 && j <= j2
    ensures Grows(s0, e0, s2, e2, i, j)
  {
    assert s2 - s0 == (s1 - s0) + (s2 - s1);
    assert multiset(s2 - s0) == multiset(s1 - s0) + multiset(s2 - s1);
  }

  method Step(a: seq<Tok>, b: seq<Tok>, i: nat, j: nat, memo: Memo) returns (r: bool)
    requires i <= |a| && j <= |b|
    requires Correct(memo.table, a, b)
    modifies memo
    ensures r <==> Decide(a, b, i, j)
    ensures Correct(memo.table, a, b)
    ensures Grows(old(memo.table).Keys, old(memo.expansions), memo.table.Keys, memo.expansions, i, j)
    decreases |a| - i + |b| - j, 1
  {
    if Cell(i, j) in memo.table {
      return memo.table[Cell(i, j)];
    }
    r := StepInner(a, b, i, j, memo);
    ghost var s1, e1 := memo.table.Keys, memo.expansions;
    memo.table := memo.table[Cell(i, j) := r];
    memo.expansions := memo.expansions + multiset{Cell(i, j)};
    assert memo.table.Keys - s1 == {Cell(i, j)};
    assert multiset({Cell(i, j)}) == multiset{Cell(i, j)};
    GrowsThenGrows(old(memo.table).Keys, old(memo.expansions), s1, e1,
                   memo.table.Keys, memo.expansions, i, j, i, j, i, j);
  }

  /** Never adds (i,j) itself, which is why no pair is expanded twice. */
  method StepInner(a: seq<Tok>, b: seq<Tok>, i: nat, j: nat, memo: Memo) returns (r: bool)
    requires i <= |a| && j <= |b|
    requires Correct(memo.table, a, b)
    requires Cell(i, j) !in memo.table
    modifies memo
    ensures r <==> Decide(a, b, i, j)
    ensures Correct(memo.table, a, b)
    ensures Cell(i, j) !in memo.table
    ensures Grows(old(memo.table).Keys, old(memo.expansions), memo.table.Keys, memo.expansions, i, j)
    decreases |a| - i + |b| - j, 0
  {
    if i == |a| && j == |b| {
      return true;
    }
    if i == |a| {
      return TailAcceptsEmpty(b[j..]);
    }
    if j == |b| {
      return TailAcceptsEmpty(a[i..]);
    }
    var ta, tb := a[i], b[j];
    ghost var s0, e0 := memo.table.Keys, memo.expansions;
    if ta.IsStar() && tb.IsStar() {
      r := Step(a, b, i + 1, j, memo);
      if r {
        return;
      }
      ghost var s1, e1 := memo.table.Keys, memo.expansions;
      r := Step(a, b, i, j + 1, memo);
      GrowsThenGrows(s0, e0, s1, e1, memo.table.Keys, memo.expansions, i, j, i + 1, j, i, j + 1);
      if r {
        return;
      }
      ghost var s2, e2 := memo.table.Keys, memo.expansions;
      r := Step(a, b, i + 1, j + 1, memo);
      GrowsThenGrows(s0, e0, s2, e2, memo.table.Keys, memo.expansions, i, j, i, j, i + 1, j + 1);
      return;
    }
    if ta.IsStar() {
      r := Step(a, b, i + 1, j, memo);
      if r {
        return;
      }
      if StarCanConsume(ta, tb) {
        ghost var s1, e1 := memo.table.Keys, memo.expansions;
        r := Step(a, b, i, j + 1, memo);
        GrowsThenGrows(s0, e0, s1, e1, memo.table.Keys, memo.expansions, i, j, i + 1, j, i, j + 1);
      }
      return;
    }
    if tb.IsStar() {
      r := Step(a, b, i, j + 1, memo);
      if r {
        return;
      }
      if StarCanConsume(tb, ta) {
        ghost var s1, e1 := memo.table.Keys, memo.expansions;
        r := Step(a, b, i + 1, j, memo);
        GrowsThenGrows(s0, e0, s1, e1, memo.table.Keys, memo.expansions, i, j, i, j + 1, i + 1, j);
      }
      return;
    }
    if CharsAgree(ta, tb) {
      r := Step(a, b, i + 1, j + 1, memo);
    } else {
      r := false;
    }
  }

  /** All pairs of positions: the bound on the number of expansions. */
  function Grid(m: nat, n: nat): (cells: set<Cell>)
  {
    set i: nat, j: nat | 0 <= i <= m && 0 <= j <= n :: Cell(i, j)
  }

  function Row(m: nat, n: nat): set<Cell> {
    set j: nat | 0 <= j <= n :: Cell(m, j)
  }

  lemma {:induction false} RowSize(m: nat, n: nat)
    ensures |Row(m, n)| == n + 1
  {
    if n == 0 {
      assert Row(m, 0) == {Cell(m, 0)};
    } else {
      RowSize(m, n - 1);
      assert Row(m, n) == Row(m, n - 1) + {Cell(m, n)};
    }
  }

  lemma GridSplit(m: nat, n: nat)
    requires m > 0
    ensures Grid(m, n) == Grid(m - 1, n) + Row(m, n) && Grid(m - 1, n) !! Row(m, n)
  {
  }

  lemma {:induction false} GridSize(m: nat, n: nat)
    ensures |Grid(m, n)| == (m + 1) * (n + 1)
  {
    RowSize(m, n);
    if m == 0 {
      assert Grid(0, n) == Row(0, n);
    } else {
      GridSize(m - 1, n);
      GridSplit(m, n);
      hide *;
      assert (m + 1) * (n + 1) == m * (n + 1) + (n + 1);
    }
  }

  lemma {:induction false} SubsetSize(a: set<Cell>, b: set<Cell>)
    requires a <= b
    ensures |a| <= |b|
  {
    assert b == a + (b - a);
  }

  /** True exactly when some text is accepted by both; `step_inner` runs at most once per pair
      of positions, so at most (|a|+1)(|b|+1) times. */
  method Intersect(a: seq<Tok>, b: seq<Tok>) returns (r: bool, ghost expansions: multiset<Cell>)
    ensures r <==> Meet(a, b)
    ensures forall c :: expansions[c] <= 1
    ensures |expansions| <= (|a| + 1) * (|b| + 1)
  {
    var memo := new Memo();
    r := Step(a, b, 0, 0, memo);
    DecideIsExact(a, b, 0, 0);
    assert a[0..] == a && b[0..] == b;
    expansions := memo.expansions;
    assert memo.table.Keys - {} == memo.table.Keys;
    assert expansions == multiset(memo.table.Keys);
    forall c | c in memo.table ensures c in Grid(|a|, |b|) {}
    SubsetSize(memo.table.Keys, Grid(|a|, |b|));
    GridSize(|a|, |b|);
  }
}
