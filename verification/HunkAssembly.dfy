/** Assembling a file from its accepted hunks. Models `assemble_final_content` and
    `update_proposal_status` of crates/gaviero-core/src/write_gate.rs. The diff library is an
    oracle: `IsDiff` says what it returns. */
module HunkAssembly {
  import opened Text

  datatype HunkStatus = Pending | Accepted | Rejected

  datatype ProposalStatus = ProposalPending | PartiallyAccepted | ProposalAccepted | ProposalRejected | Superseded

  /** Line ranges are half-open and zero-based. */
  datatype Hunk = Hunk(originalStart: nat, originalEnd: nat, proposedStart: nat, proposedEnd: nat,
                       originalText: string, proposedText: string, status: HunkStatus) {
    function Text(): string { if status.Accepted? then proposedText else originalText }
  }

  // ---------------------------------------------------------------------------
  // The algorithm

  function CopyLines(lines: seq<string>, from: nat, to: nat): string
    decreases if from < to then to - from else 0
  {
    if from >= to then ""
    else (if from < |lines| then lines[from] + "\n" else "") + CopyLines(lines, from + 1, to)
  }

  function Body(lines: seq<string>, hunks: seq<Hunk>, from: nat): string {
    if hunks == [] then CopyLines(lines, from, |lines|)
    else CopyLines(lines, from, hunks[0].originalStart) + hunks[0].Text() + Body(lines, hunks[1..], hunks[0].originalEnd)
  }

  /** The final newline follows the original. */
  function MatchFinalNewline(original: string, text: string): string {
    if EndsWithNewline(original) && !EndsWithNewline(text) then text + "\n"
    else if !EndsWithNewline(original) && EndsWithNewline(text) then text[..|text| - 1]
    else text
  }

  function Assembled(original: string, hunks: seq<Hunk>): string {
    MatchFinalNewline(original, Body(Lines(original), hunks, 0))
  }

  lemma Assoc(a: string, b: string, c: string)
    ensures a + (b + c) == a + b + c
  {
  }

  lemma CopyUnfold(lines: seq<string>, from: nat, to: nat)
    ensures from >= to ==> CopyLines(lines, from, to) == ""
    ensures from < to && from < |lines| ==>
              CopyLines(lines, from, to) == lines[from] + "\n" + CopyLines(lines, from + 1, to)
    ensures from < to && from >= |lines| ==> CopyLines(lines, from, to) == CopyLines(lines, from + 1, to)
  {
  }

  lemma BodyUnfold(lines: seq<string>, hunks: seq<Hunk>, from: nat)
    ensures hunks == [] ==> Body(lines, hunks, from) == CopyLines(lines, from, |lines|)
    ensures hunks != [] ==>
              Body(lines, hunks, from) ==
              CopyLines(lines, from, hunks[0].originalStart) + hunks[0].Text() + Body(lines, hunks[1..], hunks[0].originalEnd)
  {
    hide CopyLines;
  }

  /** The loop that copies unchanged lines up to a hunk or to the end. */
  method PushLines(result: string, lines: seq<string>, from: nat, upTo: nat) returns (out: string)
    ensures out == result + CopyLines(lines, from, upTo)
  {
    hide *;
    out := result;
    var i := from;
    while i < upTo
      invariant from <= i
      invariant out + CopyLines(lines, i, upTo) == result + CopyLines(lines, from, upTo)
      decreases upTo - i
    {
      CopyUnfold(lines, i, upTo);
      ghost var next := CopyLines(lines, i + 1, upTo);
      if i < |lines| {
        Assoc(out, lines[i] + "\n", next);
        Assoc(out, lines[i], "\n");
        out := out + lines[i];
        out := out + "\n";
      }
      i := i + 1;
    }
    CopyUnfold(lines, i, upTo);
  }

  method AssembleFinalContent(original: string, hunks: seq<Hunk>) returns (result: string)
    ensures result == Assembled(original, hunks)
  {
    hide Body, CopyLines, Lines;
    var originalLines := Lines(original);
    ghost var whole := Body(originalLines, hunks, 0);
    result := "";
    var origIdx: nat := 0;
    for i := 0 to |hunks|
      invariant result + Body(originalLines, hunks[i..], origIdx) == whole
    {
      var h := hunks[i];
      ghost var copy := CopyLines(originalLines, origIdx, h.originalStart);
      ghost var after := Body(originalLines, hunks[i + 1..], h.originalEnd);
      BodyUnfold(originalLines, hunks[i..], origIdx);
      assert hunks[i..][0] == h && hunks[i..][1..] == hunks[i + 1..];
      Assoc(result, copy + h.Text(), after);
      Assoc(result, copy, h.Text());
      result := PushLines(result, originalLines, origIdx, h.originalStart);
      match h.status {
        case Accepted => result := result + h.proposedText;
        case Rejected => result := result + h.originalText;
        case Pending => result := result + h.originalText;
      }
      origIdx := h.originalEnd;
    }
    assert hunks[|hunks|..] == [];
    BodyUnfold(originalLines, [], origIdx);
    result := PushLines(result, originalLines, origIdx, |originalLines|);
    if EndsWithNewline(original) && !EndsWithNewline(result) {
      result := result + "\n";
    } else if !EndsWithNewline(original) && EndsWithNewline(result) {
      result := result[..|result| - 1];
    }
  }

  // ---------------------------------------------------------------------------
  // Hunk lists and what they mean

  /** The hunk lies inside both texts and carries the lines it covers. */
  ghost predicate Fits(o: seq<string>, p: seq<string>, h: Hunk) {
    && h.originalStart <= h.originalEnd <= |o|
    && h.proposedStart <= h.proposedEnd <= |p|
    && h.originalText == Concat(o[h.originalStart..h.originalEnd])
    && h.proposedText == Concat(p[h.proposedStart..h.proposedEnd])
  }

  /** From line `i` of the original and line `j` of the proposal on, `hunks` are sorted and
      disjoint, carry the lines they cover, and leave equal lines between them. */
  ghost predicate IsDiffFrom(o: seq<string>, p: seq<string>, hunks: seq<Hunk>, i: nat, j: nat) {
    if hunks == [] then i <= |o| && j <= |p| && o[i..] == p[j..]
    else
      var h := hunks[0];
      && Fits(o, p, h) && i <= h.originalStart && j <= h.proposedStart
      && o[i..h.originalStart] == p[j..h.proposedStart]
      && IsDiffFrom(o, p, hunks[1..], h.originalEnd, h.proposedEnd)
  }

  ghost predicate IsDiff(original: string, proposed: string, hunks: seq<Hunk>) {
    IsDiffFrom(Pieces(original), Pieces(proposed), hunks, 0, 0)
  }

  /** The lines a hunk contributes. */
  ghost function Choice(o: seq<string>, p: seq<string>, h: Hunk): seq<string>
    requires h.originalStart <= h.originalEnd <= |o| && h.proposedStart <= h.proposedEnd <= |p|
  {
    if h.status.Accepted? then p[h.proposedStart..h.proposedEnd] else o[h.originalStart..h.originalEnd]
  }

  /** The reference: the original's lines with each accepted hunk's lines replaced. */
  ghost function Spliced(o: seq<string>, p: seq<string>, hunks: seq<Hunk>, i: nat, j: nat): seq<string>
    requires IsDiffFrom(o, p, hunks, i, j)
  {
    if hunks == [] then o[i..]
    else o[i..hunks[0].originalStart] + Choice(o, p, hunks[0])
         + Spliced(o, p, hunks[1..], hunks[0].originalEnd, hunks[0].proposedEnd)
  }

  predicate EndsWithCrlf(piece: string) {
    EndsWithNewline(piece) && |piece| > 1 && piece[|piece| - 2] == '\r'
  }

  /** A line as a copy writes it: without the carriage return of its terminator. */
  function Lf(piece: string): string {
    if EndsWithCrlf(piece) then piece[..|piece| - 2] + "\n" else piece
  }

  function LfAll(parts: seq<string>): (lf: seq<string>)
    ensures |lf| == |parts|
    ensures forall i :: 0 <= i < |parts| ==> lf[i] == Lf(parts[i])
  {
    seq(|parts|, i requires 0 <= i < |parts| => Lf(parts[i]))
  }

  /** The splice as it is written: the copied lines lose their carriage returns, the lines of
      the hunks keep theirs. */
  ghost function Rewritten(o: seq<string>, p: seq<string>, hunks: seq<Hunk>, i: nat, j: nat): seq<string>
    requires IsDiffFrom(o, p, hunks, i, j)
  {
    if hunks == [] then LfAll(o[i..])
    else LfAll(o[i..hunks[0].originalStart]) + Choice(o, p, hunks[0])
         + Rewritten(o, p, hunks[1..], hunks[0].originalEnd, hunks[0].proposedEnd)
  }

  /** How many of the copied lines end in a carriage return and a line feed. */
  function CopiedCrlf(o: seq<string>, hunks: seq<Hunk>, i: nat): nat {
    if hunks == [] then CountCrlf(o, i, |o|)
    else CountCrlf(o, i, hunks[0].originalStart) + CopiedCrlf(o, hunks[1..], hunks[0].originalEnd)
  }

  function CountCrlf(o: seq<string>, from: nat, to: nat): nat
    decreases if from < to then to - from else 0
  {
    if from >= to then 0
    else (if from < |o| && EndsWithCrlf(o[from]) then 1 else 0) + CountCrlf(o, from + 1, to)
  }

  lemma SplicedStep(o: seq<string>, p: seq<string>, hunks: seq<Hunk>, i: nat, j: nat)
    requires IsDiffFrom(o, p, hunks, i, j) && hunks != []
    ensures var h := hunks[0];
            && Fits(o, p, h) && i <= h.originalStart && j <= h.proposedStart
            && o[i..h.originalStart] == p[j..h.proposedStart]
            && IsDiffFrom(o, p, hunks[1..], h.originalEnd, h.proposedEnd)
            && Spliced(o, p, hunks, i, j) ==
               o[i..h.originalStart] + Choice(o, p, h) + Spliced(o, p, hunks[1..], h.originalEnd, h.proposedEnd)
            && Rewritten(o, p, hunks, i, j) ==
               LfAll(o[i..h.originalStart]) + Choice(o, p, h)
               + Rewritten(o, p, hunks[1..], h.originalEnd, h.proposedEnd)
            && CopiedCrlf(o, hunks, i) == CountCrlf(o, i, h.originalStart) + CopiedCrlf(o, hunks[1..], h.originalEnd)
  {
    hide Choice, Fits, CountCrlf;
  }

  // ---------------------------------------------------------------------------
  // The algorithm writes the splice

  predicate Unterminated(o: seq<string>) {
    o != [] && !EndsWithNewline(o[|o| - 1])
  }

  lemma LfOfPiece(piece: string)
    ensures |Lf(piece)| + (if EndsWithCrlf(piece) then 1 else 0) == |piece|
    ensures EndsWithNewline(Lf(piece)) <==> EndsWithNewline(piece)
    ensures IsPiece(piece) ==> IsPiece(Lf(piece))
    ensures !EndsWithNewline(piece) ==> Lf(piece) == piece
  {
    if EndsWithCrlf(piece) && IsPiece(piece) {
      forall j | 0 <= j < |Lf(piece)| - 1 ensures Lf(piece)[j] != '\n' { assert Lf(piece)[j] == piece[j]; }
    }
  }

  lemma CopiedLine(piece: string)
    ensures StripEol(piece) + "\n" == if EndsWithNewline(piece) then Lf(piece) else piece + "\n"
  {
    if EndsWithNewline(piece) && !EndsWithCrlf(piece) {
      assert piece == piece[..|piece| - 1] + "\n";
    } else if EndsWithCrlf(piece) {
      assert piece[..|piece| - 1][..|piece| - 2] == piece[..|piece| - 2];
    }
  }

  lemma CopyStep(o: seq<string>, from: nat, to: nat)
    requires from < to <= |o|
    ensures CopyLines(StripAll(o), from, to) == StripEol(o[from]) + "\n" + CopyLines(StripAll(o), from + 1, to)
    ensures Concat(LfAll(o[from..to])) == Lf(o[from]) + Concat(LfAll(o[from + 1..to]))
  {
    hide StripEol, Lf;
    assert LfAll(o[from..to]) == [Lf(o[from])] + LfAll(o[from + 1..to]);
    ConcatCons(Lf(o[from]), LfAll(o[from + 1..to]));
  }

  lemma CopyNothing(o: seq<string>, at: nat)
    requires at <= |o|
    ensures CopyLines(StripAll(o), at, at) == "" && Concat(LfAll(o[at..at])) == ""
  {
  }

  /** Copying rewrites the line ends, and ends an unterminated last line. */
  lemma {:induction false} CopyIsLf(o: seq<string>, from: nat, to: nat)
    requires IsPieceList(o) && from <= to <= |o|
    ensures CopyLines(StripAll(o), from, to) ==
            Concat(LfAll(o[from..to])) + (if from < to && to == |o| && Unterminated(o) then "\n" else "")
    decreases if from < to then to - from else 0
  {
    hide CopyLines, Concat, StripEol, EndsWithNewline, IsPiece, Lf;
    if from < to {
      CopyStep(o, from, to);
      LfOfPiece(o[from]);
      CopiedLine(o[from]);
      CopyIsLf(o, from + 1, to);
      CopyNothing(o, to);
    } else {
      CopyNothing(o, from);
    }
  }

  lemma {:induction false} NothingBehindTheEnd(o: seq<string>, p: seq<string>, hunks: seq<Hunk>)
    requires IsDiffFrom(o, p, hunks, |o|, |p|)
    ensures Rewritten(o, p, hunks, |o|, |p|) == []
    decreases |hunks|
  {
    if hunks != [] {
      hide Concat, Rewritten, Spliced, CopiedCrlf, IsDiffFrom;
      SplicedStep(o, p, hunks, |o|, |p|);
      NothingBehindTheEnd(o, p, hunks[1..]);
      assert o[|o|..|o|] == [] && LfAll(o[|o|..|o|]) == [];
    }
  }

  /** A gap that holds the unterminated last line ends both texts. */
  lemma UnterminatedGap(o: seq<string>, p: seq<string>, hunks: seq<Hunk>, i: nat, j: nat)
    requires IsPieceList(o) && IsPieceList(p) && IsDiffFrom(o, p, hunks, i, j)
    requires hunks != [] && i < hunks[0].originalStart && hunks[0].originalStart == |o| && Unterminated(o)
    ensures hunks[0].originalEnd <= |o| && hunks[0].proposedStart <= hunks[0].proposedEnd <= |p|
    ensures Choice(o, p, hunks[0]) == []
    ensures IsDiffFrom(o, p, hunks[1..], hunks[0].originalEnd, hunks[0].proposedEnd)
    ensures Rewritten(o, p, hunks[1..], hunks[0].originalEnd, hunks[0].proposedEnd) == []
  {
    hide Concat, Rewritten, Spliced, IsDiffFrom, CopiedCrlf, IsPieceList, Unterminated;
    var h := hunks[0];
    SplicedStep(o, p, hunks, i, j);
    GapReachesTheEnd(o, i, p, j, h.proposedStart);
    NothingBehindTheEnd(o, p, hunks[1..]);
  }

  lemma GapReachesTheEnd(o: seq<string>, i: nat, p: seq<string>, j: nat, n: nat)
    requires i < |o| && j <= n <= |p| && o[i..|o|] == p[j..n] && Unterminated(o) && IsPieceList(p)
    ensures n == |p|
  {
    hide EndsWithNewline, IsPiece;
    assert p[j..n][|o| - 1 - i] == o[i..|o|][|o| - 1 - i] == o[|o| - 1];
    assert |o| - i == n - j;
    assert p[n - 1] == p[j..n][n - 1 - j];
  }

  /** One newline too many is written exactly when the original's unterminated last line is
      copied; it then comes last. */
  ghost predicate IsJoined(o: seq<string>, parts: seq<string>, text: string) {
    || text == Concat(parts)
    || (text == Concat(parts) + "\n" && Unterminated(o) && parts != [] && parts[|parts| - 1] == o[|o| - 1])
  }

  lemma JoinStep(o: seq<string>, gap: seq<string>, choice: seq<string>, rest: seq<string>,
                 copied: string, text: string, tail: string)
    requires text == Concat(choice) && IsJoined(o, rest, tail)
    requires
      || copied == Concat(gap)
      || (copied == Concat(gap) + "\n" && Unterminated(o) && gap != [] && gap[|gap| - 1] == o[|o| - 1]
          && choice == [] && rest == [])
    ensures IsJoined(o, gap + choice + rest, copied + text + tail)
  {
    var head, parts := gap + choice, gap + choice + rest;
    ConcatAppend(head, rest);
    ConcatAppend(gap, choice);
    ConcatNil();
    hide Concat, Unterminated;
    if copied == Concat(gap) {
      if tail != Concat(rest) {
        Assoc(copied + text, Concat(rest), "\n");
        assert parts[|parts| - 1] == rest[|rest| - 1];
      }
    } else {
      assert parts == gap;
      assert tail == "";
      assert copied + text + tail == copied;
    }
  }

  lemma LastOfGap(o: seq<string>, from: nat)
    requires from < |o| && Unterminated(o)
    ensures LfAll(o[from..]) != [] && LfAll(o[from..])[|o| - from - 1] == o[|o| - 1]
  {
    LfOfPiece(o[|o| - 1]);
  }

  lemma TailIsRewritten(o: seq<string>, p: seq<string>, i: nat, j: nat)
    requires IsPieceList(o) && IsDiffFrom(o, p, [], i, j)
    ensures IsJoined(o, Rewritten(o, p, [], i, j), Body(StripAll(o), [], i))
  {
    hide Concat, CopyLines, EndsWithNewline, Lf, StripEol;
    CopyIsLf(o, i, |o|);
    assert o[i..|o|] == o[i..];
    if i < |o| && Unterminated(o) { LastOfGap(o, i); }
  }

  lemma TextOfChoice(o: seq<string>, p: seq<string>, h: Hunk)
    requires Fits(o, p, h)
    ensures h.Text() == Concat(Choice(o, p, h))
  {
    hide Concat;
  }

  lemma {:induction false} BodyIsRewritten(o: seq<string>, p: seq<string>, hunks: seq<Hunk>, i: nat, j: nat)
    requires IsPieceList(o) && IsPieceList(p) && IsDiffFrom(o, p, hunks, i, j)
    ensures IsJoined(o, Rewritten(o, p, hunks, i, j), Body(StripAll(o), hunks, i))
    decreases |hunks|
  {
    hide Concat, CopyLines, Rewritten, Spliced, Body, CopiedCrlf, IsDiffFrom, Choice, IsJoined, StripEol, Lf, IsPieceList;
    if hunks == [] {
      TailIsRewritten(o, p, i, j);
    } else {
      var h := hunks[0];
      SplicedStep(o, p, hunks, i, j);
      BodyUnfold(StripAll(o), hunks, i);
      TextOfChoice(o, p, h);
      BodyIsRewritten(o, p, hunks[1..], h.originalEnd, h.proposedEnd);
      CopyIsLf(o, i, h.originalStart);
      if i < h.originalStart && h.originalStart == |o| && Unterminated(o) {
        UnterminatedGap(o, p, hunks, i, j);
        LastOfGap(o, i);
        assert o[i..h.originalStart] == o[i..];
      }
      JoinStep(o, LfAll(o[i..h.originalStart]), Choice(o, p, h),
               Rewritten(o, p, hunks[1..], h.originalEnd, h.proposedEnd),
               CopyLines(StripAll(o), i, h.originalStart), h.Text(), Body(StripAll(o), hunks[1..], h.originalEnd));
    }
  }

  // ---------------------------------------------------------------------------
  // The splice and what is written differ in copied line ends

  /** `lf` is `parts` with some line ends rewritten, `lost` characters shorter in all. */
  ghost predicate Loses(parts: seq<string>, lf: seq<string>, lost: nat) {
    && |lf| == |parts|
    && (forall k :: 0 <= k < |parts| ==> lf[k] == parts[k] || lf[k] == Lf(parts[k]))
    && |Concat(lf)| + lost == |Concat(parts)|
    && (lost == 0 ==> lf == parts)
  }

  lemma LosesNothing(parts: seq<string>)
    ensures Loses(parts, parts, 0)
  {
  }

  lemma LosesAppend(a: seq<string>, a1: seq<string>, m: nat, b: seq<string>, b1: seq<string>, n: nat)
    requires Loses(a, a1, m) && Loses(b, b1, n)
    ensures Loses(a + b, a1 + b1, m + n)
  {
    hide Concat, Lf;
    ConcatAppend(a, b);
    ConcatAppend(a1, b1);
  }

  lemma {:induction false} GapLoses(o: seq<string>, from: nat, to: nat)
    requires from <= to <= |o|
    ensures Loses(o[from..to], LfAll(o[from..to]), CountCrlf(o, from, to))
    decreases if from < to then to - from else 0
  {
    if from < to {
      hide Loses, Lf, EndsWithCrlf;
      GapLoses(o, from + 1, to);
      LineLoses(o[from]);
      LosesAppend([o[from]], [Lf(o[from])], if EndsWithCrlf(o[from]) then 1 else 0,
                  o[from + 1..to], LfAll(o[from + 1..to]), CountCrlf(o, from + 1, to));
      assert o[from..to] == [o[from]] + o[from + 1..to];
      assert LfAll(o[from..to]) == [Lf(o[from])] + LfAll(o[from + 1..to]);
    } else {
      LosesNothing(o[from..to]);
      assert LfAll(o[from..to]) == o[from..to] == [];
    }
  }

  lemma LineLoses(piece: string)
    ensures Loses([piece], [Lf(piece)], if EndsWithCrlf(piece) then 1 else 0)
  {
    LfOfPiece(piece);
    ConcatOne(piece);
    ConcatOne(Lf(piece));
  }

  lemma {:induction false} RewritingLoses(o: seq<string>, p: seq<string>, hunks: seq<Hunk>, i: nat, j: nat)
    requires IsDiffFrom(o, p, hunks, i, j)
    ensures Loses(Spliced(o, p, hunks, i, j), Rewritten(o, p, hunks, i, j), CopiedCrlf(o, hunks, i))
    decreases |hunks|
  {
    if hunks == [] {
      hide Loses, Lf, CountCrlf;
      GapLoses(o, i, |o|);
      assert o[i..|o|] == o[i..];
    } else {
      hide *;
      var h := hunks[0];
      SplicedStep(o, p, hunks, i, j);
      HunkBounds(o, p, h);
      RewritingLoses(o, p, hunks[1..], h.originalEnd, h.proposedEnd);
      var gap, choice := o[i..h.originalStart], Choice(o, p, h);
      GapLoses(o, i, h.originalStart);
      LosesNothing(choice);
      LosesAppend(gap, LfAll(gap), CountCrlf(o, i, h.originalStart), choice, choice, 0);
      LosesAppend(gap + choice, LfAll(gap) + choice, CountCrlf(o, i, h.originalStart),
                  Spliced(o, p, hunks[1..], h.originalEnd, h.proposedEnd),
                  Rewritten(o, p, hunks[1..], h.originalEnd, h.proposedEnd), CopiedCrlf(o, hunks[1..], h.originalEnd));
    }
  }

  lemma HunkBounds(o: seq<string>, p: seq<string>, h: Hunk)
    requires Fits(o, p, h)
    ensures h.originalStart <= h.originalEnd <= |o| && h.proposedStart <= h.proposedEnd <= |p|
  {
  }

  predicate AllPieces(parts: seq<string>) {
    forall k :: 0 <= k < |parts| ==> IsPiece(parts[k])
  }

  lemma AllPiecesAppend(a: seq<string>, b: seq<string>)
    requires AllPieces(a) && AllPieces(b)
    ensures AllPieces(a + b)
  {
    hide IsPiece;
  }

  lemma PartsArePieces(o: seq<string>, p: seq<string>, h: Hunk, i: nat)
    requires AllPieces(o) && AllPieces(p) && Fits(o, p, h) && i <= h.originalStart
    ensures AllPieces(o[i..h.originalStart]) && AllPieces(Choice(o, p, h))
  {
    hide IsPiece, Concat;
  }

  lemma {:induction false} SplicedArePieces(o: seq<string>, p: seq<string>, hunks: seq<Hunk>, i: nat, j: nat)
    requires AllPieces(o) && AllPieces(p) && IsDiffFrom(o, p, hunks, i, j)
    ensures AllPieces(Spliced(o, p, hunks, i, j))
    decreases |hunks|
  {
    if hunks == [] {
      hide IsPiece;
    } else {
      hide *;
      var h := hunks[0];
      SplicedStep(o, p, hunks, i, j);
      HunkBounds(o, p, h);
      SplicedArePieces(o, p, hunks[1..], h.originalEnd, h.proposedEnd);
      PartsArePieces(o, p, h, i);
      AllPiecesAppend(o[i..h.originalStart], Choice(o, p, h));
      AllPiecesAppend(o[i..h.originalStart] + Choice(o, p, h), Spliced(o, p, hunks[1..], h.originalEnd, h.proposedEnd));
    }
  }

  lemma LosesKeepsPieces(parts: seq<string>, lf: seq<string>, lost: nat)
    requires Loses(parts, lf, lost) && AllPieces(parts)
    ensures AllPieces(lf)
    ensures forall k :: 0 <= k < |parts| ==> (EndsWithNewline(lf[k]) <==> EndsWithNewline(parts[k]))
  {
    hide IsPiece, Lf, EndsWithNewline, Concat;
    forall k | 0 <= k < |parts| ensures IsPiece(lf[k]) && (EndsWithNewline(lf[k]) <==> EndsWithNewline(parts[k])) {
      LfOfPiece(parts[k]);
    }
  }

  /** Both texts are of whole lines and end alike. */
  lemma EndAlike(parts: seq<string>, lf: seq<string>, lost: nat)
    requires Loses(parts, lf, lost) && AllPieces(parts)
    ensures EndsWithNewline(Concat(lf)) <==> EndsWithNewline(Concat(parts))
  {
    LosesKeepsPieces(parts, lf, lost);
    if parts != [] {
      assert IsPiece(parts[|parts| - 1]) && IsPiece(lf[|lf| - 1]);
      EndOfConcat(parts);
      EndOfConcat(lf);
    }
  }

  // ---------------------------------------------------------------------------
  // What is written, for every decision

  lemma PiecesAreAll(s: string)
    ensures IsPieceList(Pieces(s)) && AllPieces(Pieces(s)) && Concat(Pieces(s)) == s
  {
    PiecesPartition(s);
    hide IsPiece, Pieces, Concat;
  }

  lemma UnterminatedPieces(s: string)
    ensures Unterminated(Pieces(s)) <==> s != "" && !EndsWithNewline(s)
  {
    PiecesPartition(s);
    if s != "" { EndOfConcat(Pieces(s)); }
  }

  lemma JoinedMatches(original: string, o: seq<string>, parts: seq<string>, text: string)
    requires AllPieces(parts) && IsJoined(o, parts, text)
    requires Unterminated(o) ==> !EndsWithNewline(original)
    ensures MatchFinalNewline(original, text) == MatchFinalNewline(original, Concat(parts))
  {
    if text != Concat(parts) {
      assert IsPiece(parts[|parts| - 1]);
      EndOfConcat(parts);
      assert text[..|text| - 1] == Concat(parts);
    }
  }

  /** For every decision on every diff the assembled file is the splice with the line ends of
      its copied lines rewritten, its final newline following the original. */
  lemma AssembledIsRewritten(original: string, proposed: string, hunks: seq<Hunk>)
    requires IsDiff(original, proposed, hunks)
    ensures Assembled(original, hunks) ==
            MatchFinalNewline(original, Concat(Rewritten(Pieces(original), Pieces(proposed), hunks, 0, 0)))
  {
    var o, p := Pieces(original), Pieces(proposed);
    PiecesAreAll(original);
    PiecesAreAll(proposed);
    UnterminatedPieces(original);
    hide Pieces, Body, Concat, Rewritten, Spliced, CopiedCrlf, IsJoined, Loses, AllPieces, IsPieceList, MatchFinalNewline;
    BodyIsRewritten(o, p, hunks, 0, 0);
    RewritingLoses(o, p, hunks, 0, 0);
    SplicedArePieces(o, p, hunks, 0, 0);
    LosesKeepsPieces(Spliced(o, p, hunks, 0, 0), Rewritten(o, p, hunks, 0, 0), CopiedCrlf(o, hunks, 0));
    JoinedMatches(original, o, Rewritten(o, p, hunks, 0, 0), Body(StripAll(o), hunks, 0));
  }

  lemma MatchedLengths(original: string, a: string, b: string)
    requires EndsWithNewline(a) <==> EndsWithNewline(b)
    ensures |MatchFinalNewline(original, a)| - |MatchFinalNewline(original, b)| == |a| - |b|
  {
  }

  /** The assembled file is the splice exactly when no copied line ends in CRLF, whatever was
      decided on the hunks. */
  lemma AssembledIsSplice(original: string, proposed: string, hunks: seq<Hunk>)
    requires IsDiff(original, proposed, hunks)
    ensures Assembled(original, hunks) ==
            MatchFinalNewline(original, Concat(Spliced(Pieces(original), Pieces(proposed), hunks, 0, 0)))
            <==> CopiedCrlf(Pieces(original), hunks, 0) == 0
    ensures var parts := Spliced(Pieces(original), Pieces(proposed), hunks, 0, 0);
            && |Assembled(original, hunks)| + CopiedCrlf(Pieces(original), hunks, 0)
               == |MatchFinalNewline(original, Concat(parts))|
            && EndsWithNewline(Concat(Rewritten(Pieces(original), Pieces(proposed), hunks, 0, 0)))
               == EndsWithNewline(Concat(parts))
  {
    var o, p := Pieces(original), Pieces(proposed);
    PiecesAreAll(original);
    PiecesAreAll(proposed);
    hide Pieces, Assembled, Concat, Rewritten, Spliced, CopiedCrlf, AllPieces, MatchFinalNewline;
    AssembledIsRewritten(original, proposed, hunks);
    var parts, lf := Spliced(o, p, hunks, 0, 0), Rewritten(o, p, hunks, 0, 0);
    RewritingLoses(o, p, hunks, 0, 0);
    SplicedArePieces(o, p, hunks, 0, 0);
    EndAlike(parts, lf, CopiedCrlf(o, hunks, 0));
    MatchedLengths(original, Concat(lf), Concat(parts));
  }

  predicate All(hunks: seq<Hunk>, accepted: bool) {
    forall k :: 0 <= k < |hunks| ==> hunks[k].status.Accepted? == accepted
  }

  lemma AllTail(hunks: seq<Hunk>, accepted: bool)
    requires hunks != [] && All(hunks, accepted)
    ensures All(hunks[1..], accepted) && hunks[0].status.Accepted? == accepted
  {
  }

  lemma SplitInThree(s: seq<string>, a: nat, b: nat, c: nat)
    requires a <= b <= c <= |s|
    ensures s[a..] == s[a..b] + s[b..c] + s[c..]
  {
  }

  lemma {:induction false} SplicedAll(o: seq<string>, p: seq<string>, hunks: seq<Hunk>, i: nat, j: nat, accepted: bool)
    requires IsDiffFrom(o, p, hunks, i, j)
    requires All(hunks, accepted)
    ensures i <= |o| && j <= |p| && Spliced(o, p, hunks, i, j) == if accepted then p[j..] else o[i..]
    decreases |hunks|
  {
    if hunks != [] {
      hide Spliced, IsDiffFrom, Concat, CopiedCrlf, Rewritten;
      var h := hunks[0];
      SplicedStep(o, p, hunks, i, j);
      AllTail(hunks, accepted);
      SplicedAll(o, p, hunks[1..], h.originalEnd, h.proposedEnd, accepted);
      if accepted {
        SplitInThree(p, j, h.proposedStart, h.proposedEnd);
      } else {
        SplitInThree(o, i, h.originalStart, h.originalEnd);
      }
    }
  }

  /** Accepting everything gives the proposed text, up to a final newline that follows the
      original, exactly when no copied line ends in CRLF; it gives the proposed text itself
      exactly when moreover both texts agree on ending in a newline. */
  lemma AcceptAllGivesProposed(original: string, proposed: string, hunks: seq<Hunk>)
    requires IsDiff(original, proposed, hunks) && All(hunks, true)
    ensures Assembled(original, hunks) == MatchFinalNewline(original, proposed)
            <==> CopiedCrlf(Pieces(original), hunks, 0) == 0
    ensures Assembled(original, hunks) == proposed
            <==> CopiedCrlf(Pieces(original), hunks, 0) == 0 && (EndsWithNewline(original) <==> EndsWithNewline(proposed))
  {
    var o, p := Pieces(original), Pieces(proposed);
    PiecesPartition(proposed);
    SplicedAll(o, p, hunks, 0, 0, true);
    assert p[0..] == p;
    AssembledIsSplice(original, proposed, hunks);
    AssembledIsRewritten(original, proposed, hunks);
    AcceptedEnd(original, proposed, Assembled(original, hunks), Concat(Rewritten(o, p, hunks, 0, 0)),
                CopiedCrlf(o, hunks, 0));
  }

  lemma AcceptedEnd(original: string, proposed: string, result: string, text: string, lost: nat)
    requires result == MatchFinalNewline(original, text) && (EndsWithNewline(text) <==> EndsWithNewline(proposed))
    requires |result| + lost == |MatchFinalNewline(original, proposed)|
    ensures result == proposed ==> (EndsWithNewline(original) <==> EndsWithNewline(proposed))
    ensures (EndsWithNewline(original) <==> EndsWithNewline(proposed)) ==> MatchFinalNewline(original, proposed) == proposed
  {
  }

  /** A new file loses its final newline. */
  lemma NewFileLosesFinalNewline(proposed: string, hunks: seq<Hunk>)
    requires IsDiff("", proposed, hunks) && All(hunks, true) && EndsWithNewline(proposed)
    ensures Assembled("", hunks) == proposed[..|proposed| - 1]
  {
    assert Pieces("") == [];
    NoCrlfInNothing(hunks, 0);
    AcceptAllGivesProposed("", proposed, hunks);
  }

  lemma {:induction false} NoCrlfInNothing(hunks: seq<Hunk>, i: nat)
    ensures CopiedCrlf([], hunks, i) == 0
    decreases |hunks|
  {
    if hunks == [] {
    } else {
      CountNothing(i, hunks[0].originalStart);
      NoCrlfInNothing(hunks[1..], hunks[0].originalEnd);
    }
  }

  lemma {:induction false} CountNothing(from: nat, to: nat)
    ensures CountCrlf([], from, to) == 0
    decreases if from < to then to - from else 0
  {
    if from < to { CountNothing(from + 1, to); }
  }

  /** Accepting nothing gives back the original exactly when no copied line ends in CRLF:
      otherwise the file is rewritten although every hunk was turned down. */
  lemma RejectAllGivesOriginal(original: string, proposed: string, hunks: seq<Hunk>)
    requires IsDiff(original, proposed, hunks) && All(hunks, false)
    ensures Assembled(original, hunks) == original <==> CopiedCrlf(Pieces(original), hunks, 0) == 0
  {
    var o, p := Pieces(original), Pieces(proposed);
    PiecesPartition(original);
    SplicedAll(o, p, hunks, 0, 0, false);
    assert o[0..] == o;
    AssembledIsSplice(original, proposed, hunks);
  }

  /** A file of two CRLF lines whose second line is replaced: its first line is rewritten. */
  lemma AcceptedCrlfFileIsRewritten()
    ensures var hunk := Hunk(1, 2, 1, 2, "b\r\n", "c\r\n", Accepted);
            && IsDiff("a\r\n" + "b\r\n", "a\r\n" + "c\r\n", [hunk])
            && Assembled("a\r\n" + "b\r\n", [hunk]) != "a\r\n" + "c\r\n"
  {
    CopiedFirstLine("a\r\n", "b\r\n", "c\r\n");
  }

  /** The second of two lines is replaced, the first is copied. */
  lemma CopiedFirstLine(x: string, b: string, c: string)
    requires IsPiece(x) && IsPiece(b) && IsPiece(c) && EndsWithCrlf(x)
    ensures var hunk := Hunk(1, 2, 1, 2, b, c, Accepted);
            IsDiff(x + b, x + c, [hunk]) && Assembled(x + b, [hunk]) != x + c
  {
    var hunk := Hunk(1, 2, 1, 2, b, c, Accepted);
    TwoLines(x, b);
    TwoLines(x, c);
    ConcatOne(b);
    ConcatOne(c);
    hide Pieces, Concat, Assembled, IsPiece;
    assert [x, b][1..2] == [b] && [x, c][1..2] == [c] && [x, b][0..1] == [x] == [x, c][0..1];
    assert IsDiffFrom([x, b], [x, c], [], 2, 2);
    assert [hunk][1..] == [];
    assert IsDiff(x + b, x + c, [hunk]);
    assert CountCrlf([x, b], 0, 1) == 1;
    assert CopiedCrlf([x, b], [hunk], 0) > 0;
    AcceptAllGivesProposed(x + b, x + c, [hunk]);
  }

  lemma TwoLines(a: string, b: string)
    requires IsPiece(a) && IsPiece(b) && EndsWithNewline(a)
    ensures Pieces(a + b) == [a, b]
  {
    assert [a, b] == [a] + [b];
    ConcatAppend([a], [b]);
    ConcatOne(a);
    ConcatOne(b);
    PiecesOfConcat([a, b]);
  }

  // ---------------------------------------------------------------------------
  // Line counts

  function LineDelta(hunks: seq<Hunk>): int {
    if hunks == [] then 0
    else
      var h := hunks[0];
      (if h.status.Accepted? then (h.proposedEnd - h.proposedStart) - (h.originalEnd - h.originalStart) else 0)
      + LineDelta(hunks[1..])
  }

  lemma {:induction false} SplicedLines(o: seq<string>, p: seq<string>, hunks: seq<Hunk>, i: nat, j: nat)
    requires IsDiffFrom(o, p, hunks, i, j)
    ensures |Spliced(o, p, hunks, i, j)| == |o| - i + LineDelta(hunks)
    decreases |hunks|
  {
    if hunks != [] {
      hide Spliced, Rewritten, CopiedCrlf, IsDiffFrom, Fits, Choice;
      var h := hunks[0];
      SplicedStep(o, p, hunks, i, j);
      HunkBounds(o, p, h);
      ChoiceLines(o, p, h);
      SplicedLines(o, p, hunks[1..], h.originalEnd, h.proposedEnd);
    }
  }

  lemma ChoiceLines(o: seq<string>, p: seq<string>, h: Hunk)
    requires h.originalStart <= h.originalEnd <= |o| && h.proposedStart <= h.proposedEnd <= |p|
    ensures |Choice(o, p, h)| ==
            if h.status.Accepted? then h.proposedEnd - h.proposedStart else h.originalEnd - h.originalStart
  {
  }

  /** Every line but the last is terminated, so that no two lines run together. */
  predicate Joinable(parts: seq<string>) {
    forall k :: 0 <= k < |parts| - 1 ==> EndsWithNewline(parts[k])
  }

  /** The lines of a text whose final newline was matched: a bare newline at the end is lost
      with its line. */
  lemma LinesOfMatched(original: string, parts: seq<string>)
    requires AllPieces(parts) && Joinable(parts) && parts != []
    ensures |Pieces(MatchFinalNewline(original, Concat(parts)))| ==
            |parts| - if !EndsWithNewline(original) && parts[|parts| - 1] == "\n" then 1 else 0
  {
    var init, last := parts[..|parts| - 1], parts[|parts| - 1];
    LastIsPiece(parts);
    hide *;
    assert parts == init + [last];
    ConcatAppend(init, [last]);
    ConcatOne(last);
    MatchedLast(original, Concat(init), last);
    MatchedPiece(original, last);
    if Matched(original, last) == "" {
      InitIsJoinable(init, last);
      JoinedPieces(init);
      assert Concat(init) + "" == Concat(init);
    } else {
      LastReplaced(init, last, Matched(original, last));
    }
  }

  lemma LastIsPiece(parts: seq<string>)
    requires AllPieces(parts) && parts != []
    ensures IsPiece(parts[|parts| - 1]) && parts[|parts| - 1] != ""
  {
  }

  /** Only a bare newline is lost with its line. */
  lemma MatchedPiece(original: string, last: string)
    requires IsPiece(last)
    ensures Matched(original, last) == "" <==> !EndsWithNewline(original) && last == "\n"
    ensures Matched(original, last) != "" ==> IsPiece(Matched(original, last))
  {
    if EndsWithNewline(original) == EndsWithNewline(last) {
    } else if EndsWithNewline(original) {
      EndedPiece(last);
    } else if last != "\n" {
      ShortPiece(last);
      assert |last| > 1;
    }
  }

  /** The last line after its end was matched to the original's. */
  function Matched(original: string, last: string): string {
    if EndsWithNewline(original) == EndsWithNewline(last) then last
    else if EndsWithNewline(original) then last + "\n"
    else last[..|last| - 1]
  }

  lemma MatchedLast(original: string, before: string, last: string)
    requires last != ""
    ensures MatchFinalNewline(original, before + last) == before + Matched(original, last)
  {
    var text := before + last;
    assert text[|text| - 1] == last[|last| - 1];
    assert text[..|text| - 1] == before + last[..|last| - 1];
  }

  lemma EndedPiece(last: string)
    requires IsPiece(last) && !EndsWithNewline(last)
    ensures IsPiece(last + "\n")
  {
    forall j | 0 <= j < |last| ensures last[j] != '\n' {}
  }

  lemma ShortPiece(last: string)
    requires IsPiece(last) && last != "\n" && EndsWithNewline(last)
    ensures IsPiece(last[..|last| - 1])
  {
  }

  lemma InitIsJoinable(init: seq<string>, last: string)
    requires AllPieces(init + [last]) && Joinable(init + [last])
    ensures AllPieces(init) && Joinable(init)
  {
    hide IsPiece, EndsWithNewline;
    forall k | 0 <= k < |init| ensures IsPiece(init[k]) && EndsWithNewline(init[k]) {
      assert (init + [last])[k] == init[k];
    }
  }

  lemma JoinedPieces(parts: seq<string>)
    requires AllPieces(parts) && Joinable(parts)
    ensures Pieces(Concat(parts)) == parts
  {
    hide IsPiece, EndsWithNewline;
    PiecesOfConcat(parts);
  }

  lemma LastReplaced(init: seq<string>, last: string, other: string)
    requires AllPieces(init + [last]) && Joinable(init + [last]) && IsPiece(other)
    ensures Pieces(Concat(init) + other) == init + [other]
  {
    hide IsPiece, EndsWithNewline;
    var parts := init + [other];
    forall k | 0 <= k < |init| ensures IsPiece(init[k]) && EndsWithNewline(init[k]) {
      assert (init + [last])[k] == init[k];
    }
    ConcatAppend(init, [other]);
    ConcatOne(other);
    JoinedPieces(parts);
  }

  /** The lines add up for every decision that lets no two lines run together, CRLF or not; a
      splice with no line at all leaves at most a bare newline. */
  lemma AssembledLines(original: string, proposed: string, hunks: seq<Hunk>)
    requires IsDiff(original, proposed, hunks)
    requires Joinable(Spliced(Pieces(original), Pieces(proposed), hunks, 0, 0))
    ensures var lf := Rewritten(Pieces(original), Pieces(proposed), hunks, 0, 0);
            if lf == [] then Assembled(original, hunks) == if EndsWithNewline(original) then "\n" else ""
            else |Pieces(Assembled(original, hunks))| == |Pieces(original)| + LineDelta(hunks)
                 - if !EndsWithNewline(original) && lf[|lf| - 1] == "\n" then 1 else 0
  {
    var o, p := Pieces(original), Pieces(proposed);
    PiecesAreAll(original);
    PiecesAreAll(proposed);
    ConcatNil();
    hide Pieces, Assembled, Concat, Rewritten, Spliced, CopiedCrlf, AllPieces, Loses;
    var parts, lf := Spliced(o, p, hunks, 0, 0), Rewritten(o, p, hunks, 0, 0);
    AssembledIsRewritten(original, proposed, hunks);
    RewritingLoses(o, p, hunks, 0, 0);
    SplicedArePieces(o, p, hunks, 0, 0);
    SplicedLines(o, p, hunks, 0, 0);
    SameLength(parts, lf, CopiedCrlf(o, hunks, 0));
    LosesKeepsPieces(parts, lf, CopiedCrlf(o, hunks, 0));
    if lf != [] { LinesOfMatched(original, lf); }
  }

  lemma SameLength(parts: seq<string>, lf: seq<string>, lost: nat)
    requires Loses(parts, lf, lost)
    ensures |lf| == |parts|
  {
  }

  /** Between newline-terminated texts no two lines can run together. */
  lemma TerminatedIsJoinable(original: string, proposed: string, hunks: seq<Hunk>)
    requires EndsWithNewline(original) && EndsWithNewline(proposed) && IsDiff(original, proposed, hunks)
    ensures Joinable(Spliced(Pieces(original), Pieces(proposed), hunks, 0, 0))
  {
    LinesTerminated(original);
    LinesTerminated(proposed);
    hide Pieces;
    SplicedTerminated(Pieces(original), Pieces(proposed), hunks, 0, 0);
  }

  predicate AllTerminated(parts: seq<string>) {
    forall k :: 0 <= k < |parts| ==> EndsWithNewline(parts[k])
  }

  lemma LinesTerminated(s: string)
    requires EndsWithNewline(s)
    ensures AllTerminated(Pieces(s))
  {
    PiecesPartition(s);
    EndOfConcat(Pieces(s));
  }

  lemma TerminatedAppend(a: seq<string>, b: seq<string>)
    requires AllTerminated(a) && AllTerminated(b)
    ensures AllTerminated(a + b)
  {
    hide EndsWithNewline;
  }

  lemma TerminatedSlice(parts: seq<string>, from: nat, to: nat)
    requires from <= to <= |parts| && AllTerminated(parts)
    ensures AllTerminated(parts[from..to])
  {
    hide EndsWithNewline;
  }

  lemma {:induction false} SplicedTerminated(o: seq<string>, p: seq<string>, hunks: seq<Hunk>, i: nat, j: nat)
    requires AllTerminated(o) && AllTerminated(p) && IsDiffFrom(o, p, hunks, i, j)
    ensures AllTerminated(Spliced(o, p, hunks, i, j))
    decreases |hunks|
  {
    hide AllTerminated, Fits, CopiedCrlf, Rewritten;
    if hunks == [] {
      TerminatedSlice(o, i, |o|);
      assert o[i..] == o[i..|o|];
    } else {
      hide Spliced, IsDiffFrom;
      var h := hunks[0];
      SplicedStep(o, p, hunks, i, j);
      HunkBounds(o, p, h);
      SplicedTerminated(o, p, hunks[1..], h.originalEnd, h.proposedEnd);
      TerminatedSlice(o, i, h.originalStart);
      TerminatedSlice(o, h.originalStart, h.originalEnd);
      TerminatedSlice(p, h.proposedStart, h.proposedEnd);
      TerminatedAppend(o[i..h.originalStart], Choice(o, p, h));
      TerminatedAppend(o[i..h.originalStart] + Choice(o, p, h), Spliced(o, p, hunks[1..], h.originalEnd, h.proposedEnd));
    }
  }

  /** An equal line stands between any two hunks: without one they would be a single hunk. */
  predicate Separated(hunks: seq<Hunk>) {
    forall k :: 0 <= k < |hunks| - 1 ==> hunks[k].originalEnd < hunks[k + 1].originalStart
  }

  /** Between separated hunks no decision runs two lines together, whether the texts end in a
      newline or not. */
  lemma SeparatedIsJoinable(original: string, proposed: string, hunks: seq<Hunk>)
    requires IsDiff(original, proposed, hunks) && Separated(hunks)
    ensures Joinable(Spliced(Pieces(original), Pieces(proposed), hunks, 0, 0))
  {
    PiecesPartition(original);
    PiecesPartition(proposed);
    hide Pieces, IsPieceList, Separated, Joinable;
    SplicedJoinable(Pieces(original), Pieces(proposed), hunks, 0, 0);
  }

  lemma InnerLinesTerminated(parts: seq<string>, from: nat, to: nat)
    requires IsPieceList(parts) && from <= to <= |parts|
    ensures Joinable(parts[from..to])
    ensures to < |parts| ==> AllTerminated(parts[from..to])
  {
    hide EndsWithNewline, IsPiece;
  }

  lemma JoinableAppend(a: seq<string>, b: seq<string>)
    requires Joinable(b) && AllTerminated(a)
    ensures Joinable(a + b)
  {
    hide EndsWithNewline;
  }

  /** A line that is left of the original is an equal line of the proposal. */
  lemma EqualLineFollows(o: seq<string>, p: seq<string>, hunks: seq<Hunk>, i: nat, j: nat)
    requires IsDiffFrom(o, p, hunks, i, j)
    requires i < if hunks == [] then |o| else hunks[0].originalStart
    ensures j < |p|
  {
    var n := if hunks == [] then |o| else hunks[0].originalStart;
    assert o[i..n] != [];
  }

  /** Only the last hunk reaches the end of the original. */
  lemma LastHunkIsJoinable(o: seq<string>, p: seq<string>, h: Hunk, i: nat, j: nat)
    requires IsPieceList(o) && IsPieceList(p)
    requires h.originalStart <= h.originalEnd == |o| && h.proposedStart <= h.proposedEnd <= |p|
    requires i <= h.originalStart && j <= h.proposedStart && o[i..h.originalStart] == p[j..h.proposedStart]
    ensures Joinable(o[i..h.originalStart] + Choice(o, p, h))
  {
    var gap, choice := o[i..h.originalStart], Choice(o, p, h);
    InnerLinesTerminated(o, i, h.originalStart);
    InnerLinesTerminated(o, h.originalStart, h.originalEnd);
    InnerLinesTerminated(p, h.proposedStart, h.proposedEnd);
    if h.originalStart < |o| || i == h.originalStart || !Unterminated(o) {
      assert AllTerminated(gap) by { if !Unterminated(o) { WholeIsTerminated(o, i, h.originalStart); } }
      JoinableAppend(gap, choice);
    } else {
      GapReachesTheEnd(o, i, p, j, h.proposedStart);
      assert choice == [] && gap + choice == gap;
    }
  }

  lemma WholeIsTerminated(o: seq<string>, from: nat, to: nat)
    requires IsPieceList(o) && from <= to <= |o| && !Unterminated(o)
    ensures AllTerminated(o[from..to])
  {
    hide EndsWithNewline, IsPiece;
  }

  lemma {:induction false} SplicedJoinable(o: seq<string>, p: seq<string>, hunks: seq<Hunk>, i: nat, j: nat)
    requires IsPieceList(o) && IsPieceList(p) && IsDiffFrom(o, p, hunks, i, j) && Separated(hunks)
    ensures Joinable(Spliced(o, p, hunks, i, j))
    decreases |hunks|
  {
    hide IsPieceList, AllTerminated, Joinable, Fits, CopiedCrlf, Rewritten;
    if hunks == [] {
      InnerLinesTerminated(o, i, |o|);
      assert o[i..] == o[i..|o|];
    } else {
      var h, rest := hunks[0], hunks[1..];
      SplicedStep(o, p, hunks, i, j);
      HunkBounds(o, p, h);
      SeparatedRest(hunks);
      SplicedJoinable(o, p, rest, h.originalEnd, h.proposedEnd);
      hide Choice;
      var head, tail := o[i..h.originalStart] + Choice(o, p, h), Spliced(o, p, rest, h.originalEnd, h.proposedEnd);
      if h.originalEnd < |o| {
        EqualLineFollows(o, p, rest, h.originalEnd, h.proposedEnd);
        HeadIsTerminated(o, p, h, i);
        JoinableAppend(head, tail);
      } else {
        if rest != [] { HunkBounds(o, p, rest[0]); }
        LastHunkIsJoinable(o, p, h, i, j);
        assert tail == [] && head + tail == head;
      }
    }
  }

  lemma SeparatedRest(hunks: seq<Hunk>)
    requires hunks != [] && Separated(hunks)
    ensures Separated(hunks[1..])
    ensures hunks[1..] != [] ==> hunks[0].originalEnd < hunks[1].originalStart
  {
  }

  lemma HeadIsTerminated(o: seq<string>, p: seq<string>, h: Hunk, i: nat)
    requires IsPieceList(o) && IsPieceList(p) && i <= h.originalStart
    requires h.originalStart <= h.originalEnd < |o| && h.proposedStart <= h.proposedEnd < |p|
    ensures AllTerminated(o[i..h.originalStart] + Choice(o, p, h))
  {
    hide IsPieceList, AllTerminated;
    InnerLinesTerminated(o, i, h.originalStart);
    InnerLinesTerminated(o, h.originalStart, h.originalEnd);
    InnerLinesTerminated(p, h.proposedStart, h.proposedEnd);
    TerminatedAppend(o[i..h.originalStart], Choice(o, p, h));
  }

  // ---------------------------------------------------------------------------
  // Single decisions

  /** What is written before the text of hunk `k`. */
  function Before(lines: seq<string>, hunks: seq<Hunk>, from: nat, k: nat): string
    requires k < |hunks|
  {
    var copied := CopyLines(lines, from, hunks[0].originalStart);
    if k == 0 then copied else copied + hunks[0].Text() + Before(lines, hunks[1..], hunks[0].originalEnd, k - 1)
  }

  lemma {:induction false} BodyAroundHunk(lines: seq<string>, hunks: seq<Hunk>, from: nat, k: nat, status: HunkStatus)
    requires k < |hunks|
    ensures Body(lines, hunks[k := hunks[k].(status := status)], from) ==
            Before(lines, hunks, from, k) + hunks[k].(status := status).Text()
            + Body(lines, hunks[k + 1..], hunks[k].originalEnd)
    decreases k
  {
    hide CopyLines, Body;
    var decided := hunks[k := hunks[k].(status := status)];
    BodyUnfold(lines, decided, from);
    if k == 0 {
      assert decided[1..] == hunks[1..];
    } else {
      var rest := hunks[1..];
      BodyAroundHunk(lines, rest, hunks[0].originalEnd, k - 1, status);
      assert decided[1..] == rest[k - 1 := rest[k - 1].(status := status)];
      assert rest[k..] == hunks[k + 1..];
      var head, before := CopyLines(lines, from, hunks[0].originalStart) + hunks[0].Text(),
                          Before(lines, rest, hunks[0].originalEnd, k - 1);
      var text, after := hunks[k].(status := status).Text(), Body(lines, hunks[k + 1..], hunks[k].originalEnd);
      Assoc(head, before + text, after);
      Assoc(head, before, text);
    }
  }

  /** For any text and any hunks, a decision on one hunk changes nothing but the text of that
      hunk: one text before it and one after it serve every status. */
  lemma DecisionIsLocal(original: string, hunks: seq<Hunk>, k: nat) returns (before: string, after: string)
    requires k < |hunks|
    ensures forall status :: Assembled(original, hunks[k := hunks[k].(status := status)]) ==
              MatchFinalNewline(original, before + hunks[k].(status := status).Text() + after)
  {
    hide Body, Before, Lines, MatchFinalNewline;
    before, after := Before(Lines(original), hunks, 0, k), Body(Lines(original), hunks[k + 1..], hunks[k].originalEnd);
    forall status
      ensures Assembled(original, hunks[k := hunks[k].(status := status)]) ==
              MatchFinalNewline(original, before + hunks[k].(status := status).Text() + after)
    {
      BodyAroundHunk(Lines(original), hunks, 0, k, status);
    }
  }

  // ---------------------------------------------------------------------------
  // The status of a proposal

  /** All hunks accepted, all rejected, some accepted and some not, or undecided. */
  function StatusOf(hunks: seq<Hunk>): ProposalStatus {
    if hunks == [] then ProposalPending
    else if forall h :: h in hunks ==> h.status.Accepted? then ProposalAccepted
    else if forall h :: h in hunks ==> h.status.Rejected? then ProposalRejected
    else if exists h :: h in hunks && h.status.Accepted? then PartiallyAccepted
    else ProposalPending
  }

  method UpdateProposalStatus(hunks: seq<Hunk>) returns (status: ProposalStatus)
    ensures status == StatusOf(hunks)
  {
    var anyAccepted, anyNonAccepted := false, false;
    for i := 0 to |hunks|
      invariant anyAccepted <==> exists k :: 0 <= k < i && hunks[k].status.Accepted?
      invariant anyNonAccepted <==> exists k :: 0 <= k < i && !hunks[k].status.Accepted?
      invariant !(anyAccepted && anyNonAccepted)
    {
      if hunks[i].status.Accepted? {
        anyAccepted := true;
      } else {
        anyNonAccepted := true;
      }
      if anyAccepted && anyNonAccepted {
        var k :| 0 <= k < i && (hunks[k].status.Accepted? <==> !hunks[i].status.Accepted?);
        assert hunks[k] in hunks && hunks[i] in hunks;
        return PartiallyAccepted;
      }
    }
    assert forall h :: h in hunks ==> exists k :: 0 <= k < |hunks| && hunks[k] == h;
    if hunks != [] { assert hunks[0] in hunks; }
    status :=
      if anyAccepted then ProposalAccepted
      else if anyNonAccepted && forall h :: h in hunks ==> h.status.Rejected? then ProposalRejected
      else ProposalPending;
  }

  /** The status in terms of the hunks: all accepted, all rejected, some accepted and some not,
      and pending for no hunks at all or none accepted and some undecided. */
  lemma StatusInTermsOfHunks(hunks: seq<Hunk>)
    ensures StatusOf(hunks) == ProposalAccepted
            <==> hunks != [] && forall i :: 0 <= i < |hunks| ==> hunks[i].status == HunkStatus.Accepted
    ensures StatusOf(hunks) == ProposalRejected
            <==> hunks != [] && forall i :: 0 <= i < |hunks| ==> hunks[i].status == HunkStatus.Rejected
    ensures StatusOf(hunks) == PartiallyAccepted
            <==> exists i, j :: 0 <= i < |hunks| && 0 <= j < |hunks|
                                && hunks[i].status == HunkStatus.Accepted && hunks[j].status != HunkStatus.Accepted
    ensures StatusOf(hunks) == ProposalPending
            <==> hunks == [] || ((forall i :: 0 <= i < |hunks| ==> hunks[i].status != HunkStatus.Accepted)
                                 && exists i :: 0 <= i < |hunks| && hunks[i].status == HunkStatus.Pending)
  {
    if hunks != [] { assert hunks[0] in hunks; }
    assert forall h :: h in hunks ==> exists i :: 0 <= i < |hunks| && hunks[i] == h;
    assert forall i :: 0 <= i < |hunks| ==> hunks[i] in hunks;
  }

  /** At most one newline is added or taken at the end, so that the text ends in one if the
      original does. */
  lemma NewlineFollowsOriginal(original: string, text: string)
    ensures var matched := MatchFinalNewline(original, text);
            && (EndsWithNewline(original) ==>
                  EndsWithNewline(matched) && matched == if EndsWithNewline(text) then text else text + "\n")
            && (!EndsWithNewline(original) ==> text == if EndsWithNewline(text) then matched + "\n" else matched)
  {
  }
}
