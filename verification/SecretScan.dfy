/** Finding secrets by rule priority and redacting them. Models
    crates/gaviero-core/src/secret_scan.rs; the regex engine is an oracle that gives each rule's
    matches. */
module SecretScan {
  import opened Selection

  datatype Span = Span(start: nat, end: nat)

  /** The rules in list order; a rule is named by its place in this list. */
  const RULE_IDS: seq<string> := [
    "private-key-block", "anthropic-api-key", "openai-style-key", "aws-access-key-id", "github-token",
    "github-fine-grained-pat", "slack-token", "google-api-key", "stripe-live-key", "dotenv-secret-assignment"]

  datatype Hit = Hit(rule: nat, start: nat, end: nat)

  predicate Overlap(a: Hit, b: Hit) {
    a.start < b.end && b.start < a.end
  }

  predicate OverlapsAny(hits: seq<Hit>, c: Hit) {
    exists h :: h in hits && Overlap(c, h)
  }

  // ---------------------------------------------------------------------------
  // The greedy choice

  function OfRule(rule: nat, spans: seq<Span>): (cs: seq<Hit>)
    ensures |cs| == |spans|
    ensures forall i :: 0 <= i < |cs| ==> cs[i] == Hit(rule, spans[i].start, spans[i].end)
  {
    seq(|spans|, i requires 0 <= i < |spans| => Hit(rule, spans[i].start, spans[i].end))
  }

  /** All matches in the order in which they are tried: rule by rule. */
  function Tried(matches: seq<seq<Span>>): seq<Hit> {
    if matches == [] then []
    else Tried(matches[..|matches| - 1]) + OfRule(|matches| - 1, matches[|matches| - 1])
  }

  /** What a regex iteration returns for one rule over a text of length `n`: non-empty matches
      inside the text, in order and disjoint. */
  ghost predicate ValidSpans(spans: seq<Span>, n: nat) {
    && (forall i :: 0 <= i < |spans| ==> spans[i].start < spans[i].end <= n)
    && (forall i, j :: 0 <= i < j < |spans| ==> spans[i].end <= spans[j].start)
  }

  ghost predicate ValidMatches(matches: seq<seq<Span>>, n: nat) {
    forall r :: 0 <= r < |matches| ==> ValidSpans(matches[r], n)
  }

  /** `a` is tried before `b`: it is of an earlier rule, or an earlier match of the same rule. */
  predicate TriedBefore(a: Hit, b: Hit) {
    a.rule < b.rule || (a.rule == b.rule && a.end <= b.start)
  }

  ghost predicate InTryOrder(cs: seq<Hit>, n: nat) {
    && (forall i :: 0 <= i < |cs| ==> cs[i].start < cs[i].end <= n)
    && (forall i, j :: 0 <= i < j < |cs| ==> TriedBefore(cs[i], cs[j]))
  }

  lemma {:induction false} TriedInOrder(matches: seq<seq<Span>>, n: nat)
    requires ValidMatches(matches, n)
    ensures InTryOrder(Tried(matches), n)
    ensures forall c :: c in Tried(matches) ==> c.rule < |matches|
  {
    if matches != [] {
      var init, last := matches[..|matches| - 1], matches[|matches| - 1];
      assert forall r :: 0 <= r < |init| ==> init[r] == matches[r];
      assert ValidSpans(last, n);
      TriedInOrder(init, n);
      var before, own := Tried(init), OfRule(|matches| - 1, last);
      forall i, j | 0 <= i < j < |before + own| ensures TriedBefore((before + own)[i], (before + own)[j]) {
        if i < |before| <= j { assert before[i] in before; }
      }
    }
  }

  function Pick(cs: seq<Hit>): seq<Hit> {
    if cs == [] then []
    else
      var picked, c := Pick(cs[..|cs| - 1]), cs[|cs| - 1];
      if OverlapsAny(picked, c) then picked else picked + [c]
  }

  ghost predicate Disjoint(hits: seq<Hit>) {
    forall a, b :: 0 <= a < b < |hits| ==> !Overlap(hits[a], hits[b])
  }

  function Elements(hits: seq<Hit>): set<Hit> {
    set h | h in hits
  }

  /** Some reported hit of an earlier rule overlaps the match. */
  ghost predicate Preempted(hits: set<Hit>, c: Hit) {
    exists h :: h in hits && h.rule < c.rule && Overlap(c, h)
  }

  ghost predicate Met(hits: set<Hit>, c: Hit) {
    exists h :: h in hits && Overlap(c, h)
  }

  /** What the reported hits have to be for the matches: a match is reported exactly when no
      reported hit of an earlier rule overlaps it, and every match overlaps a reported hit. */
  ghost predicate Chosen(hits: set<Hit>, cs: set<Hit>) {
    && hits <= cs
    && (forall c :: c in cs ==> (c in hits <==> !Preempted(hits, c)))
    && (forall c :: c in cs ==> Met(hits, c))
  }

  lemma PickSnoc(cs: seq<Hit>, c: Hit)
    ensures Pick(cs + [c]) == if OverlapsAny(Pick(cs), c) then Pick(cs) else Pick(cs) + [c]
  {
    assert (cs + [c])[..|cs|] == cs;
  }

  lemma TriedSnoc(matches: seq<seq<Span>>, q: nat)
    requires q < |matches|
    ensures Tried(matches[..q + 1]) == Tried(matches[..q]) + OfRule(q, matches[q])
  {
    assert matches[..q + 1][..q] == matches[..q];
  }

  lemma {:induction false} PickIsDisjoint(cs: seq<Hit>)
    ensures Disjoint(Pick(cs))
    ensures forall h :: h in Pick(cs) ==> h in cs
  {
    if cs != [] {
      var init, c := cs[..|cs| - 1], cs[|cs| - 1];
      PickIsDisjoint(init);
      assert cs == init + [c];
      var picked := Pick(init);
      if !OverlapsAny(picked, c) {
        assert forall a :: 0 <= a < |picked| ==> picked[a] in picked;
      }
    }
  }

  lemma ElementsSnoc(cs: seq<Hit>, c: Hit)
    ensures Elements(cs + [c]) == Elements(cs) + {c}
  {
  }

  ghost predicate AllTriedBefore(ds: set<Hit>, c: Hit) {
    forall d :: d in ds ==> TriedBefore(d, c) && d != c
  }

  lemma LastIsTriedAfter(cs: seq<Hit>, n: nat)
    requires cs != [] && InTryOrder(cs, n)
    ensures InTryOrder(cs[..|cs| - 1], n)
    ensures AllTriedBefore(Elements(cs[..|cs| - 1]), cs[|cs| - 1])
  {
    var init, c := cs[..|cs| - 1], cs[|cs| - 1];
    forall d | d in Elements(init) ensures TriedBefore(d, c) && d != c {
      var i :| 0 <= i < |init| && init[i] == d;
      assert cs[i] == d;
    }
  }

  lemma {:induction false} PickIsChosen(cs: seq<Hit>, n: nat)
    requires InTryOrder(cs, n)
    ensures Chosen(Elements(Pick(cs)), Elements(cs))
  {
    if cs != [] {
      var init, c := cs[..|cs| - 1], cs[|cs| - 1];
      assert cs == init + [c];
      LastIsTriedAfter(cs, n);
      PickIsChosen(init, n);
      var picked := Pick(init);
      ElementsSnoc(init, c);
      ElementsSnoc(picked, c);
      assert OverlapsAny(picked, c) <==> Met(Elements(picked), c);
      if OverlapsAny(picked, c) {
        PassOver(Elements(init), Elements(picked), c);
      } else {
        PickOneMore(Elements(init), Elements(picked), c);
      }
    }
  }

  /** A match that overlaps a hit so far overlaps one of an earlier rule. */
  lemma MetIsPreempted(init: set<Hit>, picked: set<Hit>, c: Hit)
    requires picked <= init && AllTriedBefore(init, c) && Met(picked, c)
    ensures Preempted(picked, c) && c !in picked
  {
    var h :| h in picked && Overlap(c, h);
    assert h in init;
    assert TriedBefore(h, c);
  }

  lemma PassOver(init: set<Hit>, picked: set<Hit>, c: Hit)
    requires Chosen(picked, init) && Met(picked, c) && AllTriedBefore(init, c)
    ensures Chosen(picked, init + {c})
  {
    hide Preempted, Met, AllTriedBefore;
    MetIsPreempted(init, picked, c);
    forall d | d in init + {c} ensures (d in picked <==> !Preempted(picked, d)) && Met(picked, d) {
      if d != c { assert d in init; }
    }
  }

  /** Adding the last match changes nothing for those tried before. */
  lemma PickOneMore(init: set<Hit>, picked: set<Hit>, c: Hit)
    requires Chosen(picked, init) && !Met(picked, c) && c.start < c.end && AllTriedBefore(init, c)
    ensures Chosen(picked + {c}, init + {c})
  {
    hide Preempted, Met, Overlap, TriedBefore;
    var more := picked + {c};
    NewHit(picked, c);
    forall d | d in init + {c}
      ensures d in more <==> !Preempted(more, d)
      ensures Met(more, d)
    {
      if d in init { OneMoreForOlder(picked, c, d); }
    }
  }

  lemma NewHit(picked: set<Hit>, c: Hit)
    requires !Met(picked, c) && c.start < c.end
    ensures !Preempted(picked + {c}, c) && Met(picked + {c}, c)
  {
    assert c in picked + {c} && Overlap(c, c);
  }

  lemma OneMoreForOlder(picked: set<Hit>, c: Hit, d: Hit)
    requires TriedBefore(d, c) && d != c && Met(picked, d)
    ensures Preempted(picked + {c}, d) <==> Preempted(picked, d)
    ensures Met(picked + {c}, d)
  {
    var more := picked + {c};
    var m :| m in picked && Overlap(d, m);
    assert m in more;
    if h :| h in picked && h.rule < d.rule && Overlap(d, h) { assert h in more; }
  }

  // ---------------------------------------------------------------------------
  // Sorting

  /** Stable insertion: after every hit that does not start later. */
  function InsertByStart(hits: seq<Hit>, h: Hit): seq<Hit> {
    if hits == [] || hits[|hits| - 1].start <= h.start then hits + [h]
    else InsertByStart(hits[..|hits| - 1], h) + [hits[|hits| - 1]]
  }

  function SortByStart(hits: seq<Hit>): seq<Hit> {
    if hits == [] then [] else InsertByStart(SortByStart(hits[..|hits| - 1]), hits[|hits| - 1])
  }

  /** In byte order and disjoint: each hit ends before the next one starts. */
  predicate InOrder(hits: seq<Hit>, n: nat) {
    && (forall a :: 0 <= a < |hits| ==> hits[a].start < hits[a].end <= n && hits[a].rule < |RULE_IDS|)
    && (forall a, b :: 0 <= a < b < |hits| ==> hits[a].end <= hits[b].start)
  }

  lemma ElementsOfInsert(hits: seq<Hit>, h: Hit)
    ensures Elements(InsertByStart(hits, h)) == Elements(hits) + {h}
    decreases |hits|
  {
    if hits == [] || hits[|hits| - 1].start <= h.start {
      ElementsSnoc(hits, h);
    } else {
      var init, last := hits[..|hits| - 1], hits[|hits| - 1];
      ElementsOfInsert(init, h);
      ElementsSnoc(init, last);
      ElementsSnoc(InsertByStart(init, h), last);
      assert hits == init + [last];
    }
  }

  ghost predicate AllEndBy(hits: set<Hit>, limit: nat) {
    forall h :: h in hits ==> h.end <= limit
  }

  lemma OrderSnoc(hits: seq<Hit>, last: Hit, n: nat)
    requires InOrder(hits, n) && AllEndBy(Elements(hits), last.start)
    requires last.start < last.end <= n && last.rule < |RULE_IDS|
    ensures InOrder(hits + [last], n)
  {
    forall a | 0 <= a < |hits| ensures hits[a].end <= last.start { assert hits[a] in Elements(hits); }
  }

  lemma LastEndsAll(hits: seq<Hit>, n: nat)
    requires hits != [] && InOrder(hits, n)
    ensures InOrder(hits[..|hits| - 1], n)
    ensures AllEndBy(Elements(hits[..|hits| - 1]), hits[|hits| - 1].start)
  {
  }

  /** Inserting a hit that overlaps none puts it in its place. */
  lemma {:induction false} InsertInOrder(hits: seq<Hit>, h: Hit, n: nat)
    requires InOrder(hits, n) && h.start < h.end <= n && h.rule < |RULE_IDS|
    requires forall x :: x in Elements(hits) ==> !Overlap(x, h)
    ensures InOrder(InsertByStart(hits, h), n)
    decreases |hits|
  {
    if hits == [] {
    } else {
      var init, last := hits[..|hits| - 1], hits[|hits| - 1];
      LastEndsAll(hits, n);
      assert hits == init + [last];
      ElementsSnoc(init, last);
      assert last in Elements(hits);
      if last.start > h.start {
        InsertInOrder(init, h, n);
        ElementsOfInsert(init, h);
        OrderSnoc(InsertByStart(init, h), last, n);
      } else {
        OrderSnoc(hits, h, n);
      }
    }
  }

  lemma {:induction false} SortInOrder(hits: seq<Hit>, n: nat)
    requires Disjoint(hits) && forall h :: h in Elements(hits) ==> h.start < h.end <= n && h.rule < |RULE_IDS|
    ensures InOrder(SortByStart(hits), n)
    ensures Elements(SortByStart(hits)) == Elements(hits)
  {
    if hits != [] {
      var init, last := hits[..|hits| - 1], hits[|hits| - 1];
      assert hits == init + [last];
      ElementsSnoc(init, last);
      SortInOrder(init, n);
      forall x | x in Elements(init) ensures !Overlap(x, last) {
        var b :| 0 <= b < |init| && init[b] == x;
        assert !Overlap(hits[b], hits[|init|]);
      }
      assert last in Elements(hits);
      InsertInOrder(SortByStart(init), last, n);
      ElementsOfInsert(SortByStart(init), last);
    }
  }

  /** The hits for the matches of all rules. */
  function Secrets(matches: seq<seq<Span>>): seq<Hit> {
    SortByStart(Pick(Tried(matches)))
  }

  /** Every secret, in byte order: the hits are disjoint, a match is reported exactly when it
      overlaps no reported hit of an earlier rule, and every match overlaps some hit. */
  method FindSecrets(matches: seq<seq<Span>>, ghost n: nat) returns (hits: seq<Hit>)
    requires |matches| == |RULE_IDS| && ValidMatches(matches, n)
    ensures hits == Secrets(matches)
    ensures InOrder(hits, n)
    ensures Chosen(Elements(hits), Elements(Tried(matches)))
  {
    hide *;
    var found: seq<Hit> := [];
    PickNothing(matches);
    for q := 0 to |matches|
      invariant found == Pick(Tried(matches[..q]))
    {
      ghost var before := Tried(matches[..q]);
      ghost var own := OfRule(q, matches[q]);
      assert before + own[..0] == before;
      for j := 0 to |matches[q]|
        invariant found == Pick(before + own[..j])
      {
        var m := matches[q][j];
        var c := Hit(q, m.start, m.end);
        assert before + own[..j + 1] == before + own[..j] + [c];
        PickSnoc(before + own[..j], c);
        if !OverlapsAny(found, c) {
          found := found + [c];
        }
      }
      assert own[..|own|] == own;
      TriedSnoc(matches, q);
    }
    assert matches[..|matches|] == matches;
    hits := SortByStart(found);
    SecretsAre(matches);
    SortedChoice(matches, n);
  }

  lemma PickNothing(matches: seq<seq<Span>>)
    ensures Pick(Tried(matches[..0])) == []
  {
  }

  lemma SecretsAre(matches: seq<seq<Span>>)
    ensures Secrets(matches) == SortByStart(Pick(Tried(matches)))
  {
  }

  /** The hits are disjoint and in order, and they are the ones the rules' order selects. */
  lemma SortedChoice(matches: seq<seq<Span>>, n: nat)
    requires |matches| == |RULE_IDS| && ValidMatches(matches, n)
    ensures InOrder(Secrets(matches), n)
    ensures Chosen(Elements(Secrets(matches)), Elements(Tried(matches)))
  {
    var cs := Tried(matches);
    TriedInOrder(matches, n);
    PickIsDisjoint(cs);
    PickIsChosen(cs, n);
    forall h | h in Elements(Pick(cs)) ensures h.start < h.end <= n && h.rule < |RULE_IDS| {
      assert h in cs;
      var i :| 0 <= i < |cs| && cs[i] == h;
    }
    SortInOrder(Pick(cs), n);
  }

  // ---------------------------------------------------------------------------
  // Redaction

  function Marker(rule: nat): string {
    "[REDACTED:" + (if rule < |RULE_IDS| then RULE_IDS[rule] else "") + "]"
  }

  predicate Covered(hits: seq<Hit>, c: nat) {
    exists h :: h in hits && h.start <= c < h.end
  }

  predicate StartsAt(hits: seq<Hit>, i: nat, c: nat) {
    i < |hits| && hits[i].start == c
  }

  /** What one character of the text becomes: the marker of the hit that starts there, nothing
      further inside a hit, itself outside the hits. */
  ghost function RedactedChar(text: string, hits: seq<Hit>, c: nat): string
    requires c < |text|
  {
    if exists i: nat :: StartsAt(hits, i, c) then
      var i: nat :| StartsAt(hits, i, c);
      Marker(hits[i].rule)
    else if Covered(hits, c) then ""
    else [text[c]]
  }

  /** The reference: the first `c` characters, redacted one at a time. */
  ghost function Redacted(text: string, hits: seq<Hit>, c: nat): string
    requires c <= |text|
  {
    if c == 0 then "" else Redacted(text, hits, c - 1) + RedactedChar(text, hits, c - 1)
  }

  lemma RedactedNothing(text: string, hits: seq<Hit>)
    ensures Redacted(text, hits, 0) == ""
  {
    hide RedactedChar;
  }

  function RulesOf(hits: seq<Hit>): (rules: seq<nat>)
    ensures |rules| == |hits|
    ensures forall i :: 0 <= i < |rules| ==> rules[i] == hits[i].rule
  {
    seq(|hits|, i requires 0 <= i < |hits| => hits[i].rule)
  }

  /** Each value once, in order of first appearance. */
  function FirstSeen(xs: seq<nat>): seq<nat> {
    if xs == [] then []
    else
      var init, last := FirstSeen(xs[..|xs| - 1]), xs[|xs| - 1];
      if last in init then init else init + [last]
  }

  lemma FirstSeenSnoc(xs: seq<nat>, x: nat)
    ensures FirstSeen(xs + [x]) == if x in FirstSeen(xs) then FirstSeen(xs) else FirstSeen(xs) + [x]
  {
    assert (xs + [x])[..|xs|] == xs;
  }

  lemma RedactedStep(text: string, hits: seq<Hit>, c: nat)
    requires c < |text|
    ensures Redacted(text, hits, c + 1) == Redacted(text, hits, c) + RedactedChar(text, hits, c)
  {
    hide RedactedChar;
  }

  predicate AllNonEmpty(hits: seq<Hit>) {
    forall h :: h in hits ==> h.start < h.end
  }

  lemma PlainStep(text: string, hits: seq<Hit>, c: nat)
    requires c < |text| && !Covered(hits, c) && AllNonEmpty(hits)
    ensures Redacted(text, hits, c + 1) == Redacted(text, hits, c) + [text[c]]
  {
    NoStartOutside(hits, c);
    assert RedactedChar(text, hits, c) == [text[c]];
    RedactedStep(text, hits, c);
  }

  predicate NoneCovered(hits: seq<Hit>, from: nat, upTo: nat) {
    forall c :: from <= c < upTo ==> !Covered(hits, c)
  }

  lemma {:induction false} RedactGap(text: string, hits: seq<Hit>, from: nat, upTo: nat)
    requires from <= upTo <= |text| && NoneCovered(hits, from, upTo) && AllNonEmpty(hits)
    ensures Redacted(text, hits, upTo) == Redacted(text, hits, from) + text[from..upTo]
    decreases upTo
  {
    hide Redacted, Covered, AllNonEmpty;
    if from < upTo {
      RedactGap(text, hits, from, upTo - 1);
      assert text[from..upTo] == text[from..upTo - 1] + [text[upTo - 1]];
      PlainStep(text, hits, upTo - 1);
    } else {
      assert text[from..upTo] == "";
    }
  }

  lemma NoStartOutside(hits: seq<Hit>, c: nat)
    requires !Covered(hits, c) && AllNonEmpty(hits)
    ensures forall i: nat :: !StartsAt(hits, i, c)
  {
    forall i: nat ensures !StartsAt(hits, i, c) {
      if i < |hits| { assert hits[i] in hits; }
    }
  }

  /** Inside a hit no other hit starts. */
  lemma OnlyStart(hits: seq<Hit>, k: nat, c: nat, n: nat)
    requires InOrder(hits, n) && k < |hits| && hits[k].start <= c < hits[k].end
    ensures forall i: nat :: StartsAt(hits, i, c) ==> i == k && c == hits[k].start
  {
    forall i: nat ensures StartsAt(hits, i, c) ==> i == k && c == hits[k].start {
      if i < |hits| {
        if i < k { EndsBefore(hits, i, k, n); }
        if k < i { EndsBefore(hits, k, i, n); }
      }
    }
  }

  lemma RedactedCharOfHit(text: string, hits: seq<Hit>, k: nat, c: nat)
    requires InOrder(hits, |text|) && k < |hits| && hits[k].start <= c < hits[k].end
    ensures c < |text| && RedactedChar(text, hits, c) == if c == hits[k].start then Marker(hits[k].rule) else ""
  {
    OnlyStart(hits, k, c, |text|);
    assert hits[k] in hits && Covered(hits, c);
    if c == hits[k].start { assert StartsAt(hits, k, c); }
  }

  ghost predicate NothingAt(text: string, hits: seq<Hit>, c: nat)
    requires c < |text|
  {
    RedactedChar(text, hits, c) == ""
  }

  lemma NothingStep(text: string, hits: seq<Hit>, c: nat)
    requires c < |text| && NothingAt(text, hits, c)
    ensures Redacted(text, hits, c + 1) == Redacted(text, hits, c)
  {
    hide RedactedChar;
    RedactedStep(text, hits, c);
  }

  lemma {:induction false} RedactNothing(text: string, hits: seq<Hit>, from: nat, upTo: nat)
    requires from <= upTo <= |text| && forall c :: from <= c < upTo ==> NothingAt(text, hits, c)
    ensures Redacted(text, hits, upTo) == Redacted(text, hits, from)
    decreases upTo
  {
    hide *;
    if from < upTo {
      NothingStep(text, hits, upTo - 1);
      RedactNothing(text, hits, from, upTo - 1);
    }
  }

  /** Behind its first character a hit leaves nothing. */
  lemma RedactHit(text: string, hits: seq<Hit>, k: nat)
    requires InOrder(hits, |text|) && k < |hits|
    ensures hits[k].start < hits[k].end <= |text|
    ensures Redacted(text, hits, hits[k].end) == Redacted(text, hits, hits[k].start) + Marker(hits[k].rule)
  {
    var h := hits[k];
    RedactedCharOfHit(text, hits, k, h.start);
    forall c | h.start + 1 <= c < h.end ensures NothingAt(text, hits, c) {
      RedactedCharOfHit(text, hits, k, c);
    }
    RedactSpan(text, hits, h.start, h.end, Marker(h.rule));
  }

  lemma RedactSpan(text: string, hits: seq<Hit>, start: nat, end: nat, marker: string)
    requires start < end <= |text| && RedactedChar(text, hits, start) == marker
    requires forall c :: start + 1 <= c < end ==> NothingAt(text, hits, c)
    ensures Redacted(text, hits, end) == Redacted(text, hits, start) + marker
  {
    hide *;
    RedactedStep(text, hits, start);
    RedactNothing(text, hits, start + 1, end);
  }

  function Cursor(hits: seq<Hit>, k: nat): nat
    requires k <= |hits|
  {
    if k == 0 then 0 else hits[k - 1].end
  }

  lemma EndsBefore(hits: seq<Hit>, a: nat, b: nat, n: nat)
    requires InOrder(hits, n) && a < b < |hits|
    ensures hits[a].end <= hits[b].start < hits[b].end
  {
  }

  lemma BetweenHits(hits: seq<Hit>, k: nat, n: nat)
    requires InOrder(hits, n) && k <= |hits|
    ensures var next := if k < |hits| then hits[k].start else n;
            Cursor(hits, k) <= next <= n && NoneCovered(hits, Cursor(hits, k), next) && AllNonEmpty(hits)
  {
    var next := if k < |hits| then hits[k].start else n;
    forall c | Cursor(hits, k) <= c < next ensures !Covered(hits, c) {
      forall a | 0 <= a < |hits| ensures !(hits[a].start <= c < hits[a].end) {
        if a < k - 1 { EndsBefore(hits, a, k - 1, n); }
        if a > k { EndsBefore(hits, k, a, n); }
      }
    }
  }

  ghost predicate RedactedUpTo(text: string, hits: seq<Hit>, cursor: nat, out: string) {
    cursor <= |text| && out == Redacted(text, hits, cursor)
  }

  /** One round of the loop: the text up to the next hit, then its marker. */
  lemma RedactRound(text: string, hits: seq<Hit>, k: nat, out: string)
    requires k < |hits| && InOrder(hits, |text|) && RedactedUpTo(text, hits, Cursor(hits, k), out)
    ensures Cursor(hits, k) <= hits[k].start < hits[k].end <= |text|
    ensures RedactedUpTo(text, hits, hits[k].end, out + text[Cursor(hits, k)..hits[k].start] + Marker(hits[k].rule))
  {
    BetweenHits(hits, k, |text|);
    RedactGap(text, hits, Cursor(hits, k), hits[k].start);
    RedactHit(text, hits, k);
  }

  lemma RedactTail(text: string, hits: seq<Hit>, out: string)
    requires InOrder(hits, |text|) && RedactedUpTo(text, hits, Cursor(hits, |hits|), out)
    ensures RedactedUpTo(text, hits, |text|, out + text[Cursor(hits, |hits|)..])
  {
    BetweenHits(hits, |hits|, |text|);
    RedactGap(text, hits, Cursor(hits, |hits|), |text|);
    assert text[Cursor(hits, |hits|)..|text|] == text[Cursor(hits, |hits|)..];
  }

  // ---------------------------------------------------------------------------
  // What the redaction shows

  /** The text between hit `k - 1` and hit `k`, or behind the last hit. */
  function Gap(text: string, hits: seq<Hit>, k: nat): string
    requires InOrder(hits, |text|) && k <= |hits|
  {
    BetweenHits(hits, k, |text|);
    if k < |hits| then text[Cursor(hits, k)..hits[k].start] else text[Cursor(hits, k)..]
  }

  /** Both texts have hits of the same rules in the same order, and the same text around them. */
  ghost predicate SameAroundHits(text: string, hits: seq<Hit>, other: string, otherHits: seq<Hit>) {
    && InOrder(hits, |text|) && InOrder(otherHits, |other|) && |hits| == |otherHits|
    && (forall k :: 0 <= k < |hits| ==> hits[k].rule == otherHits[k].rule)
    && (forall k :: 0 <= k <= |hits| ==> Gap(text, hits, k) == Gap(other, otherHits, k))
  }

  lemma {:induction false} SameUpTo(text: string, hits: seq<Hit>, other: string, otherHits: seq<Hit>, k: nat)
    requires SameAroundHits(text, hits, other, otherHits) && k <= |hits|
    ensures Cursor(hits, k) <= |text| && Cursor(otherHits, k) <= |other|
    ensures Redacted(text, hits, Cursor(hits, k)) == Redacted(other, otherHits, Cursor(otherHits, k))
  {
    hide *;
    if k == 0 {
      NothingRedacted(text, hits);
      NothingRedacted(other, otherHits);
    } else {
      SameUpTo(text, hits, other, otherHits, k - 1);
      SameAroundHit(text, hits, other, otherHits, k - 1);
      NextRedacted(text, hits, k - 1);
      NextRedacted(other, otherHits, k - 1);
    }
  }

  lemma NothingRedacted(text: string, hits: seq<Hit>)
    ensures Cursor(hits, 0) == 0 && Redacted(text, hits, 0) == ""
  {
  }

  lemma SameAroundHit(text: string, hits: seq<Hit>, other: string, otherHits: seq<Hit>, k: nat)
    requires SameAroundHits(text, hits, other, otherHits) && k < |hits|
    ensures InOrder(hits, |text|) && InOrder(otherHits, |other|) && |hits| == |otherHits|
    ensures hits[k].rule == otherHits[k].rule < |RULE_IDS| && Gap(text, hits, k) == Gap(other, otherHits, k)
  {
    hide Gap;
  }

  /** Behind a hit: what stands before it, the gap, and its marker. */
  lemma NextRedacted(text: string, hits: seq<Hit>, k: nat)
    requires k < |hits| && InOrder(hits, |text|)
    ensures Cursor(hits, k) <= |text| && Cursor(hits, k + 1) <= |text| && hits[k].rule < |RULE_IDS|
    ensures Redacted(text, hits, Cursor(hits, k + 1)) ==
            Redacted(text, hits, Cursor(hits, k)) + Gap(text, hits, k) + Marker(hits[k].rule)
  {
    hide Redacted, Marker, NoneCovered, AllNonEmpty;
    BetweenHits(hits, k, |text|);
    RedactRound(text, hits, k, Redacted(text, hits, Cursor(hits, k)));
  }

  lemma SameRules(hits: seq<Hit>, other: seq<Hit>)
    requires |hits| == |other| && forall k :: 0 <= k < |hits| ==> hits[k].rule == other[k].rule
    ensures RulesOf(hits) == RulesOf(other)
  {
  }

  /** Nothing of a secret shows, not even its length: texts that agree around their own hits have
      the same redaction, whatever the hits hold. */
  lemma RedactedHidesHits(text: string, hits: seq<Hit>, other: string, otherHits: seq<Hit>)
    requires SameAroundHits(text, hits, other, otherHits)
    ensures Redacted(text, hits, |text|) == Redacted(other, otherHits, |other|)
    ensures FirstSeen(RulesOf(hits)) == FirstSeen(RulesOf(otherHits))
  {
    SameRules(hits, otherHits);
    hide Redacted, FirstSeen, RulesOf, InOrder, Gap, Cursor;
    SameUpTo(text, hits, other, otherHits, |hits|);
    assert Gap(text, hits, |hits|) == Gap(other, otherHits, |hits|);
    hide SameAroundHits;
    LastGap(text, hits);
    LastGap(other, otherHits);
  }

  lemma LastGap(text: string, hits: seq<Hit>)
    requires InOrder(hits, |text|)
    ensures Cursor(hits, |hits|) <= |text|
    ensures Redacted(text, hits, |text|) == Redacted(text, hits, Cursor(hits, |hits|)) + Gap(text, hits, |hits|)
  {
    hide *;
    GapIsRest(text, hits);
    RedactRest(text, hits, Cursor(hits, |hits|), Gap(text, hits, |hits|));
  }

  lemma GapIsRest(text: string, hits: seq<Hit>)
    requires InOrder(hits, |text|)
    ensures Cursor(hits, |hits|) <= |text| && Gap(text, hits, |hits|) == text[Cursor(hits, |hits|)..]
  {
    hide Redacted, InOrder, Covered;
    BetweenHits(hits, |hits|, |text|);
  }

  lemma RedactRest(text: string, hits: seq<Hit>, c: nat, gap: string)
    requires InOrder(hits, |text|) && c == Cursor(hits, |hits|) <= |text| && gap == text[c..]
    ensures Redacted(text, hits, |text|) == Redacted(text, hits, c) + gap
  {
    hide *;
    RedactedIsSoFar(text, hits, c);
    RedactTail(text, hits, Redacted(text, hits, c));
    SoFarIsRedacted(text, hits, Redacted(text, hits, c) + gap);
  }

  lemma RedactedIsSoFar(text: string, hits: seq<Hit>, c: nat)
    requires c <= |text|
    ensures RedactedUpTo(text, hits, c, Redacted(text, hits, c))
  {
    hide Redacted;
  }

  lemma SoFarIsRedacted(text: string, hits: seq<Hit>, out: string)
    requires RedactedUpTo(text, hits, |text|, out)
    ensures out == Redacted(text, hits, |text|)
  {
    hide Redacted;
  }

  ghost predicate ListedUpTo(hits: seq<Hit>, k: nat, rules: seq<nat>)
    requires k <= |hits|
  {
    rules == FirstSeen(RulesOf(hits[..k]))
  }

  lemma ListOneMore(hits: seq<Hit>, k: nat, rules: seq<nat>)
    requires k < |hits| && ListedUpTo(hits, k, rules)
    ensures ListedUpTo(hits, k + 1, if hits[k].rule in rules then rules else rules + [hits[k].rule])
  {
    FirstSeenSnoc(RulesOf(hits[..k]), hits[k].rule);
    assert RulesOf(hits[..k + 1]) == RulesOf(hits[..k]) + [hits[k].rule];
  }

  /** Every character is redacted as its place among the hits says, and each rule that fired is
      listed once, in first-hit order. */
  method Redact(text: string, matches: seq<seq<Span>>) returns (out: string, rules: seq<nat>)
    requires |matches| == |RULE_IDS| && ValidMatches(matches, |text|)
    ensures out == Redacted(text, Secrets(matches), |text|)
    ensures rules == FirstSeen(RulesOf(Secrets(matches)))
  {
    hide Redacted, Secrets;
    var hits := FindSecrets(matches, |text|);
    if hits == [] {
      RedactedNothing(text, hits);
      RedactTail(text, hits, "");
      assert text == "" + text[Cursor(hits, 0)..];
      return text, [];
    }
    out, rules := RedactHits(text, hits);
  }

  method RedactHits(text: string, hits: seq<Hit>) returns (out: string, rules: seq<nat>)
    requires InOrder(hits, |text|)
    ensures out == Redacted(text, hits, |text|)
    ensures rules == FirstSeen(RulesOf(hits))
  {
    out, rules := "", [];
    var cursor: nat := 0;
    for k := 0 to |hits|
      invariant cursor == Cursor(hits, k)
      invariant RedactedUpTo(text, hits, cursor, out)
      invariant ListedUpTo(hits, k, rules)
    {
      var h := hits[k];
      RedactRound(text, hits, k, out);
      ListOneMore(hits, k, rules);
      out := out + text[cursor..h.start];
      out := out + Marker(h.rule);
      cursor := h.end;
      if h.rule !in rules {
        rules := rules + [h.rule];
      }
    }
    RedactTail(text, hits, out);
    out := out + text[cursor..];
    assert hits[..|hits|] == hits;
  }

  // ---------------------------------------------------------------------------
  // Dummy values

  predicate Follows(a: int, b: int) {
    b == (a + 1) % 256
  }

  predicate IsRun(bytes: seq<int>, i: int, j: int) {
    0 <= i <= j <= |bytes| && forall k :: i < k < j ==> Follows(bytes[k - 1], bytes[k])
  }

  /** `to_ascii_lowercase` on bytes. */
  function Lowered(body: seq<int>): (lower: seq<int>)
    ensures |lower| == |body|
    ensures forall i :: 0 <= i < |body| ==> lower[i] == if 65 <= body[i] <= 90 then body[i] + 32 else body[i]
  {
    seq(|body|, i requires 0 <= i < |body| => if 65 <= body[i] <= 90 then body[i] + 32 else body[i])
  }

  /** The length of the longest run of ascending bytes (wrapping from 255 to 0), ignoring case. */
  method LongestAscendingRun(body: seq<int>) returns (best: nat, ghost start: nat)
    ensures IsRun(Lowered(body), start, start + best)
    ensures forall i, j :: IsRun(Lowered(body), i, j) ==> j - i <= best
  {
    hide Lowered, Follows;
    var bytes := Lowered(body);
    best, start := if bytes == [] then 0 else 1, 0;
    var run := best;
    var k := 1;
    while k < |bytes|
      invariant bytes != [] ==> 1 <= k <= |bytes| && 1 <= run <= best && run <= k
      invariant IsRun(bytes, start, start + best)
      invariant bytes != [] ==> IsRun(bytes, k - run, k) && (k - run > 0 ==> !Follows(bytes[k - run - 1], bytes[k - run]))
      invariant forall i, j :: IsRun(bytes, i, j) && j <= k ==> j - i <= best
    {
      if Follows(bytes[k - 1], bytes[k]) {
        run := run + 1;
        if run > best {
          best := run;
          start := k + 1 - run;
        }
      } else {
        run := 1;
      }
      k := k + 1;
      RunsEndingHere(bytes, k, run);
    }
  }

  /** No run that ends at `k` is longer than the one that cannot be extended to the left. */
  lemma RunsEndingHere(bytes: seq<int>, k: nat, run: nat)
    requires run <= k <= |bytes| && (k - run > 0 ==> run > 0 && !Follows(bytes[k - run - 1], bytes[k - run]))
    ensures forall i :: IsRun(bytes, i, k) ==> k - i <= run
  {
  }

  /** For bytes a run is what it says: every byte is the first one plus its distance from it,
      modulo 256. */
  lemma {:induction false} RunsAscend(bytes: seq<int>, i: int, j: int)
    requires forall k :: 0 <= k < |bytes| ==> 0 <= bytes[k] < 256
    ensures IsRun(bytes, i, j) <==>
            0 <= i <= j <= |bytes| && forall k :: i <= k < j ==> bytes[k] == (bytes[i] + (k - i)) % 256
    decreases j - i
  {
    if 0 <= i < j <= |bytes| {
      RunsAscend(bytes, i, j - 1);
      if j - 1 > i {
        NextByte(bytes[i], j - 2 - i);
        hide Follows;
        assert IsRun(bytes, i, j) <==> IsRun(bytes, i, j - 1) && Follows(bytes[j - 2], bytes[j - 1]);
        FollowsIs(bytes[j - 2], bytes[j - 1]);
      }
    }
  }

  lemma FollowsIs(a: int, b: int)
    ensures Follows(a, b) <==> b == (a + 1) % 256
  {
  }

  lemma NextByte(a: int, d: nat)
    ensures ((a + d) % 256 + 1) % 256 == (a + d + 1) % 256
  {
  }

  // ---------------------------------------------------------------------------
  // Rules and markers

  /** The candidates are the matches, each under the rule it matched. */
  lemma {:induction false} CandidatesAreMatches(matches: seq<seq<Span>>, h: Hit)
    ensures h in Tried(matches)
            <==> h.rule < |matches| && exists i :: 0 <= i < |matches[h.rule]| && matches[h.rule][i] == Span(h.start, h.end)
  {
    if matches != [] {
      var init, last := matches[..|matches| - 1], matches[|matches| - 1];
      CandidatesAreMatches(init, h);
      var cs := OfRule(|init|, last);
      if h in cs { var i :| 0 <= i < |cs| && cs[i] == h; assert last[i] == Span(h.start, h.end); }
      if h.rule == |init| {
        if i :| 0 <= i < |last| && last[i] == Span(h.start, h.end) { assert cs[i] == h; }
      }
    }
  }

  /** A marker is the name of its rule in a fixed frame, so that it tells the rule and nothing of
      the text. */
  lemma MarkersTellRules(rule: nat, other: nat)
    requires rule < |RULE_IDS| && other < |RULE_IDS|
    ensures "[REDACTED:" <= Marker(rule) && Marker(rule)[|Marker(rule)| - 1] == ']'
    ensures Marker(rule)[10..|Marker(rule)| - 1] == RULE_IDS[rule]
    ensures Marker(rule) == Marker(other) <==> rule == other
  {
    assert Marker(rule)[10..|Marker(rule)| - 1] == RULE_IDS[rule];
    assert Marker(other)[10..|Marker(other)| - 1] == RULE_IDS[other];
    if Marker(rule) == Marker(other) { RuleNamesDiffer(rule, other); }
  }

  lemma RuleNamesDiffer(rule: nat, other: nat)
    requires rule < |RULE_IDS| && other < |RULE_IDS| && RULE_IDS[rule] == RULE_IDS[other]
    ensures rule == other
  {
  }

  /** The places of first appearances. */
  ghost predicate FirstPlaces(xs: seq<nat>, places: seq<nat>) {
    forall i :: 0 <= i < |xs| ==> (i in places <==> xs[i] !in xs[..i])
  }

  lemma FirstPlacesSnoc(xs: seq<nat>, x: nat, places: seq<nat>)
    requires FirstPlaces(xs, places) && |xs| !in places
    ensures FirstPlaces(xs + [x], if x in xs then places else places + [|xs|])
  {
    LastPlace(places, |xs|);
    var all := xs + [x];
    assert all[..|xs|] == xs;
    forall i | 0 <= i < |xs| ensures all[i] == xs[i] && all[..i] == xs[..i] {}
  }

  lemma NoneSeen()
    ensures FirstSeen([]) == [] && FirstPlaces([], [])
  {
  }

  lemma SeenSnoc(seen: seq<nat>, xs: seq<nat>, x: nat)
    requires forall y :: y in seen <==> y in xs
    ensures forall y :: y in (if x in seen then seen else seen + [x]) <==> y in xs + [x]
  {
  }

  /** The listed rules are those that fired, each at its first hit. */
  lemma {:induction false} FirstSeenIsFirst(xs: seq<nat>) returns (places: seq<nat>)
    ensures PartAt(xs, FirstSeen(xs), places) && FirstPlaces(xs, places)
    ensures forall x :: x in FirstSeen(xs) <==> x in xs
  {
    hide *;
    if xs == [] {
      places := [];
      NoneSeen();
      NoPart((x: nat) => true);
    } else {
      var init, last := xs[..|xs| - 1], xs[|xs| - 1];
      assert xs == init + [last];
      places := FirstSeenIsFirst(init);
      FirstSeenSnoc(init, last);
      SeenSnoc(FirstSeen(init), init, last);
      PartGrows(init, FirstSeen(init), places, last);
      FirstPlacesSnoc(init, last, places);
      if last !in init { places := places + [|init|]; }
    }
  }

  predicate Within(h: Hit, c: int) {
    h.start <= c < h.end
  }

  /** Two hits overlap exactly when they share a character. */
  lemma OverlapIsShared(a: Hit, b: Hit)
    requires a.start < a.end && b.start < b.end
    ensures Overlap(a, b) <==> exists c :: Within(a, c) && Within(b, c)
  {
    if Overlap(a, b) {
      var c := if a.start < b.start then b.start else a.start;
      assert Within(a, c) && Within(b, c);
    }
  }

  /** Lowering changes the capital letters, to the small ones at the same place of the alphabet,
      and no other byte. */
  lemma LoweredLetters(body: seq<int>, i: nat, c: char)
    requires i < |body| && body[i] == c as int
    ensures 'A' <= c <= 'Z' ==> Lowered(body)[i] == 'a' as int + (c as int - 'A' as int)
    ensures !('A' <= c <= 'Z') ==> Lowered(body)[i] == c as int
  {
  }
}
