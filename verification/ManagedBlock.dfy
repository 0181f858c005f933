/** The managed block of `.cursorignore`. Models `cursorignore_with_block` of
    crates/gaviero-core/src/instructions.rs. */
module ManagedBlock {
  import opened Json
  import opened Text
  import opened Selection

  const BEGIN := "# >>> gaviero: " + "GAVIERO.md " + "replaces these " + "(managed block)"
  const END := "# <<< gaviero"
  const IGNORED: seq<string> := ["AGENTS.md", "CLAUDE.md", "CLAUDE.local.md", ".cursorrules", ".cursor/rules/"]

  predicate IsBegin(line: string) { TrimEnd(line) == BEGIN }

  predicate IsEnd(line: string) { TrimEnd(line) == END }

  // ---------------------------------------------------------------------------
  // The specification

  /** Whether the text goes on inside a block after these lines. */
  predicate InBlock(lines: seq<string>) {
    lines != [] &&
    var init, last := lines[..|lines| - 1], lines[|lines| - 1];
    IsBegin(last) || (InBlock(init) && !IsEnd(last))
  }

  /** The lines outside every block. */
  function Outside(lines: seq<string>): seq<string> {
    if lines == [] then []
    else
      var init, last := lines[..|lines| - 1], lines[|lines| - 1];
      Outside(init) + if IsBegin(last) || InBlock(init) then [] else [last]
  }

  function DropBlankTail(lines: seq<string>): seq<string> {
    if lines != [] && Trim(lines[|lines| - 1]) == "" then DropBlankTail(lines[..|lines| - 1]) else lines
  }

  /** The lines of a file that are the user's. */
  function Kept(existing: Option<string>): seq<string> {
    DropBlankTail(Outside(Lines(if existing.Some? then existing.value else "")))
  }

  function BlockLines(): seq<string> {
    [BEGIN] + IGNORED + [END]
  }

  /** The lines to write: the user's, and the block behind an empty line. */
  function Written(kept: seq<string>, active: bool): seq<string> {
    kept + if !active then [] else if kept == [] then BlockLines() else [""] + BlockLines()
  }

  predicate IsBlankFile(existing: Option<string>) {
    existing.Some? && Trim(existing.value) == ""
  }

  /** What the file is to hold; `None` is no file. A blank file is left alone rather than
      removed. */
  function Synced(existing: Option<string>, active: bool): Option<string> {
    if !active && Kept(existing) == [] then
      if IsBlankFile(existing) then existing else None
    else
      Some(Concat(Ended(Written(Kept(existing), active))))
  }

  lemma OutsideSnoc(lines: seq<string>, line: string)
    ensures InBlock(lines + [line]) == (IsBegin(line) || (InBlock(lines) && !IsEnd(line)))
    ensures Outside(lines + [line]) == Outside(lines) + if IsBegin(line) || InBlock(lines) then [] else [line]
  {
    assert (lines + [line])[..|lines|] == lines;
  }

  method KeepOutside(lines: seq<string>) returns (kept: seq<string>)
    ensures kept == Outside(lines)
  {
    kept := [];
    var inBlock := false;
    for i := 0 to |lines|
      invariant inBlock == InBlock(lines[..i])
      invariant kept == Outside(lines[..i])
    {
      var line := lines[i];
      OutsideSnoc(lines[..i], line);
      assert lines[..i + 1] == lines[..i] + [line];
      if IsBegin(line) {
        inBlock := true;
      } else if inBlock && IsEnd(line) {
        inBlock := false;
      } else if !inBlock {
        kept := kept + [line];
      }
    }
    assert lines[..|lines|] == lines;
  }

  method DropTrailingBlank(lines: seq<string>) returns (kept: seq<string>)
    ensures kept == DropBlankTail(lines)
    ensures kept == [] || Trim(kept[|kept| - 1]) != ""
  {
    kept := lines;
    while kept != [] && Trim(kept[|kept| - 1]) == ""
      invariant DropBlankTail(kept) == DropBlankTail(lines)
    {
      kept := kept[..|kept| - 1];
    }
  }

  method PushBlock(text: string) returns (out: string)
    ensures out == text + BEGIN + "\n" + Concat(Ended(IGNORED)) + END
  {
    hide *;
    out := text + BEGIN;
    out := out + "\n";
    ghost var head := out;
    NoPieces();
    assert IGNORED[..0] == [];
    for i := 0 to |IGNORED|
      invariant out == head + Concat(Ended(IGNORED[..i]))
    {
      EndedSnoc(IGNORED[..i], IGNORED[i]);
      assert IGNORED[..i + 1] == IGNORED[..i] + [IGNORED[i]];
      out := out + IGNORED[i];
      out := out + "\n";
    }
    assert IGNORED[..|IGNORED|] == IGNORED;
    out := out + END;
  }

  method CursorignoreWithBlock(existing: Option<string>, active: bool) returns (next: Option<string>)
    ensures next == Synced(existing, active)
  {
    var text := if existing.Some? then existing.value else "";
    var outside := KeepOutside(Lines(text));
    var kept := DropTrailingBlank(outside);
    var out := Join(kept);
    JoinIsEmpty(kept);
    SyncedText(existing, kept, active);
    if active {
      if out != "" {
        out := out + "\n\n";
      }
      out := PushBlock(out);
    }
    if out == "" {
      return if IsBlankFile(existing) then existing else None;
    }
    out := out + "\n";
    next := Some(out);
  }

  /** The text that the code builds, branch by branch, is the specified one. */
  lemma SyncedText(existing: Option<string>, kept: seq<string>, active: bool)
    requires kept == Kept(existing)
    ensures active ==>
      Synced(existing, active)
      == Some((if kept == [] then "" else Join(kept) + "\n\n") + BEGIN + "\n" + Concat(Ended(IGNORED)) + END + "\n")
    ensures !active && kept != [] ==> Synced(existing, active) == Some(Join(kept) + "\n")
    ensures !active && kept == [] ==> Synced(existing, active) == if IsBlankFile(existing) then existing else None
  {
    if active {
      WrittenBlock(kept, BEGIN, IGNORED, END);
      var gap: seq<string> := if kept == [] then [] else [""];
      assert kept + (gap + ([BEGIN] + IGNORED + [END])) == Written(kept, true);
    } else if kept != [] {
      JoinIsTerminated(kept);
      assert Written(kept, false) == kept;
    }
  }

  /** `join("\n")`. */
  function Join(lines: seq<string>): string {
    if lines == [] then ""
    else if |lines| == 1 then lines[0]
    else Join(lines[..|lines| - 1]) + "\n" + lines[|lines| - 1]
  }

  lemma EndedAppend(a: seq<string>, b: seq<string>)
    ensures Concat(Ended(a + b)) == Concat(Ended(a)) + Concat(Ended(b))
  {
    assert Ended(a + b) == Ended(a) + Ended(b);
    ConcatAppend(Ended(a), Ended(b));
  }

  /** Joined lines and a final terminator are the terminated lines. */
  lemma {:induction false} JoinIsTerminated(lines: seq<string>)
    requires lines != []
    ensures Join(lines) + "\n" == Concat(Ended(lines))
  {
    var init, last := lines[..|lines| - 1], lines[|lines| - 1];
    assert lines == init + [last];
    EndedSnoc(init, last);
    if init != [] {
      JoinIsTerminated(init);
    } else {
      assert Ended(init) == [];
    }
  }

  lemma JoinIsEmpty(kept: seq<string>)
    requires kept == [] || Trim(kept[|kept| - 1]) != ""
    ensures Join(kept) == "" <==> kept == []
  {
    TrimOfNothing();
    hide Trim;
    if kept != [] { JoinIsLong(kept); }
  }

  lemma TrimOfNothing()
    ensures Trim("") == ""
  {
  }

  lemma JoinIsLong(lines: seq<string>)
    requires lines != []
    ensures |Join(lines)| >= |lines[|lines| - 1]|
  {
  }

  lemma WrittenBlock(kept: seq<string>, first: string, names: seq<string>, last: string)
    ensures var head := if kept == [] then "" else Join(kept) + "\n\n";
            var gap := if kept == [] then [] else [""];
            head + first + "\n" + Concat(Ended(names)) + last + "\n"
            == Concat(Ended(kept + (gap + ([first] + names + [last]))))
  {
    var gap := if kept == [] then [] else [""];
    hide *;
    EndedAppend(kept, gap + ([first] + names + [last]));
    EndedAppend(gap, [first] + names + [last]);
    EndedAppend([first] + names, [last]);
    EndedAppend([first], names);
    EndedOne(first);
    EndedOne(last);
    NoPieces();
    if kept != [] {
      EndedOne("");
      JoinIsTerminated(kept);
    }
  }

  lemma NoPieces()
    ensures Concat(Ended([])) == ""
  {
  }

  lemma EndedOne(line: string)
    ensures Concat(Ended([line])) == line + "\n"
  {
    assert Ended([line]) == [line + "\n"];
    ConcatOne(line + "\n");
  }

  // ---------------------------------------------------------------------------
  // Reading back what was written

  predicate OneLine(line: string) { '\n' !in line }

  predicate AllOneLine(lines: seq<string>) {
    forall i :: 0 <= i < |lines| ==> OneLine(lines[i])
  }

  /** A line as `lines` reads it back: one carriage return before the line feed goes. */
  function StripCr(line: string): string {
    if line != "" && line[|line| - 1] == '\r' then line[..|line| - 1] else line
  }

  function StripCrs(lines: seq<string>): (stripped: seq<string>)
    ensures |stripped| == |lines|
    ensures forall i :: 0 <= i < |stripped| ==> stripped[i] == StripCr(lines[i])
  {
    seq(|lines|, i requires 0 <= i < |lines| => StripCr(lines[i]))
  }

  predicate NoCrAtEnd(lines: seq<string>) {
    forall i :: 0 <= i < |lines| ==> lines[i] == "" || lines[i][|lines[i]| - 1] != '\r'
  }

  lemma StripCrsIsIdentity(lines: seq<string>)
    ensures StripCrs(lines) == lines <==> NoCrAtEnd(lines)
  {
    if !NoCrAtEnd(lines) {
      var i :| 0 <= i < |lines| && lines[i] != "" && lines[i][|lines[i]| - 1] == '\r';
      assert |StripCrs(lines)[i]| < |lines[i]|;
    }
  }

  lemma PieceIsOneLine(piece: string)
    requires IsPiece(piece)
    ensures OneLine(StripEol(piece))
  {
  }

  lemma LinesAreOneLine(text: string)
    ensures AllOneLine(Lines(text))
  {
    PiecesPartition(text);
    hide Pieces, StripEol, OneLine, IsPiece;
    forall i | 0 <= i < |Lines(text)| ensures OneLine(Lines(text)[i]) {
      PieceIsOneLine(Pieces(text)[i]);
    }
  }

  lemma TerminatedPieces(lines: seq<string>)
    requires AllOneLine(lines)
    ensures Pieces(Concat(Ended(lines))) == Ended(lines)
  {
    forall i | 0 <= i < |lines|
      ensures forall j :: 0 <= j < |Ended(lines)[i]| - 1 ==> Ended(lines)[i][j] != '\n'
    {
      assert OneLine(lines[i]);
    }
    PiecesOfConcat(Ended(lines));
  }

  /** Written lines are read back in order, each without a final carriage return. */
  lemma LinesOfTerminated(lines: seq<string>)
    requires AllOneLine(lines)
    ensures Lines(Concat(Ended(lines))) == StripCrs(lines)
  {
    TerminatedPieces(lines);
    forall i | 0 <= i < |lines| ensures StripEol(Ended(lines)[i]) == StripCr(lines[i]) {
      assert (lines[i] + "\n")[..|lines[i]|] == lines[i];
    }
  }

  /** Different lines give different texts. */
  lemma TerminatedIsInjective(a: seq<string>, b: seq<string>)
    requires AllOneLine(a) && AllOneLine(b) && Concat(Ended(a)) == Concat(Ended(b))
    ensures a == b
  {
    TerminatedPieces(a);
    TerminatedPieces(b);
    forall i | 0 <= i < |a| ensures a[i] == b[i] {
      assert Ended(a)[i] == Ended(b)[i];
      assert (a[i] + "\n")[..|a[i]|] == a[i] && (b[i] + "\n")[..|b[i]|] == b[i];
    }
  }

  // ---------------------------------------------------------------------------
  // What is kept

  predicate NoBegin(lines: seq<string>) {
    forall i :: 0 <= i < |lines| ==> !IsBegin(lines[i])
  }

  lemma {:induction false} OutsideIsPlain(lines: seq<string>)
    ensures NoBegin(Outside(lines))
    ensures AllOneLine(lines) ==> AllOneLine(Outside(lines))
  {
    if lines != [] { OutsideIsPlain(lines[..|lines| - 1]); }
  }

  lemma {:induction false} DropBlankTailKeeps(lines: seq<string>)
    ensures DropBlankTail(lines) <= lines
    ensures DropBlankTail(lines) == [] || Trim(DropBlankTail(lines)[|DropBlankTail(lines)| - 1]) != ""
  {
    if lines != [] && Trim(lines[|lines| - 1]) == "" { DropBlankTailKeeps(lines[..|lines| - 1]); }
  }

  /** The kept lines: no line feed inside, no block start, the last one not blank. */
  ghost predicate IsKept(kept: seq<string>) {
    AllOneLine(kept) && NoBegin(kept) && (kept == [] || !IsBlank(kept[|kept| - 1]))
  }

  lemma KeptIsPlain(existing: Option<string>)
    ensures IsKept(Kept(existing))
  {
    var lines := Lines(if existing.Some? then existing.value else "");
    LinesAreOneLine(if existing.Some? then existing.value else "");
    OutsideIsPlain(lines);
    DropBlankTailKeeps(Outside(lines));
    var kept := Kept(existing);
    assert forall i :: 0 <= i < |kept| ==> kept[i] == Outside(lines)[i];
    if kept != [] { TrimOfBlank(kept[|kept| - 1]); }
  }

  lemma StripCrKeepsKind(line: string)
    ensures TrimEnd(StripCr(line)) == TrimEnd(line)
    ensures IsBlank(StripCr(line)) <==> IsBlank(line)
  {
    if StripCr(line) != line { assert line == StripCr(line) + ['\r']; }
  }

  lemma StripCrsOfKept(kept: seq<string>)
    requires IsKept(kept)
    ensures IsKept(StripCrs(kept))
  {
    forall i | 0 <= i < |kept| ensures OneLine(StripCr(kept[i])) && !IsBegin(StripCr(kept[i])) {
      StripCrKeepsKind(kept[i]);
      assert OneLine(kept[i]);
    }
    if kept != [] { StripCrKeepsKind(kept[|kept| - 1]); }
  }

  lemma {:induction false} OutsideOfPlain(lines: seq<string>)
    requires NoBegin(lines)
    ensures Outside(lines) == lines && !InBlock(lines)
  {
    hide IsBegin, IsEnd;
    if lines != [] {
      var init, last := lines[..|lines| - 1], lines[|lines| - 1];
      OutsideOfPlain(init);
      hide Outside, InBlock;
      OutsideSnoc(init, last);
      assert lines == init + [last];
    }
  }

  /** Inside a block nothing is kept and only an end line ends it. */
  lemma {:induction false} OutsideOfBlockBody(lines: seq<string>, body: seq<string>)
    requires InBlock(lines) && forall i :: 0 <= i < |body| ==> !IsEnd(body[i])
    ensures InBlock(lines + body) && Outside(lines + body) == Outside(lines)
  {
    hide *;
    if body == [] {
      assert lines + body == lines;
    } else {
      var init, last := body[..|body| - 1], body[|body| - 1];
      OutsideOfBlockBody(lines, init);
      OutsideSnoc(lines + init, last);
      assert lines + body == lines + init + [last];
    }
  }

  lemma IgnoredNames(i: nat)
    requires i < |IGNORED|
    ensures IGNORED[i] != "" && IGNORED[i][0] != '#' && !IsWhitespace(IGNORED[i][|IGNORED[i]| - 1])
    ensures OneLine(IGNORED[i])
  {
    if i == 0 { assert IGNORED[i] == "AGENTS.md"; }
    else if i == 1 { assert IGNORED[i] == "CLAUDE.md"; }
    else if i == 2 { assert IGNORED[i] == "CLAUDE.local.md"; }
    else if i == 3 { assert IGNORED[i] == ".cursorrules"; }
    else { assert IGNORED[i] == ".cursor/rules/"; }
  }

  lemma MarkersAreMarkers()
    ensures IsBegin(BEGIN) && !IsBegin(END) && IsEnd(END)
    ensures forall i :: 0 <= i < |IGNORED| ==> !IsEnd(IGNORED[i])
  {
    assert BEGIN[2] != END[2] && END[0] == '#';
    forall i | 0 <= i < |IGNORED| ensures !IsEnd(IGNORED[i]) {
      IgnoredNames(i);
      assert TrimEnd(IGNORED[i]) == IGNORED[i];
    }
  }

  lemma OutsideOfBlock(lines: seq<string>)
    requires !InBlock(lines)
    ensures Outside(lines + BlockLines()) == Outside(lines) && !InBlock(lines + BlockLines())
  {
    MarkersAreMarkers();
    OutsideSnoc(lines, BEGIN);
    OutsideOfBlockBody(lines + [BEGIN], IGNORED);
    OutsideSnoc(lines + [BEGIN] + IGNORED, END);
    assert lines + BlockLines() == lines + [BEGIN] + IGNORED + [END];
  }

  lemma DropNothing(kept: seq<string>)
    requires IsKept(kept)
    ensures DropBlankTail(kept) == kept
  {
    if kept != [] { TrimOfBlank(kept[|kept| - 1]); }
  }

  lemma DropEmptyLine(kept: seq<string>)
    requires IsKept(kept)
    ensures DropBlankTail(kept + [""]) == kept
  {
    DropNothing(kept);
    TrimOfNothing();
    hide Trim;
    assert (kept + [""])[..|kept|] == kept;
  }

  lemma NothingIsNoBegin()
    ensures !IsBegin("")
  {
    assert TrimEnd("") == "";
  }

  /** What is written gives back the kept lines. */
  lemma KeptOfWritten(kept: seq<string>, active: bool)
    requires IsKept(kept)
    ensures DropBlankTail(Outside(Written(kept, active))) == kept
  {
    hide InBlock, Outside, DropBlankTail, Trim, TrimEnd, IsBegin, IsBlank, BlockLines;
    OutsideOfPlain(kept);
    DropNothing(kept);
    if active {
      if kept == [] {
        OutsideOfPlain([]);
        OutsideOfBlock([]);
        assert Written(kept, true) == [] + BlockLines();
      } else {
        NothingIsNoBegin();
        OutsideOfPlain(kept + [""]);
        OutsideOfBlock(kept + [""]);
        DropEmptyLine(kept);
        assert Written(kept, true) == kept + [""] + BlockLines();
      }
    } else {
      assert Written(kept, false) == kept;
    }
  }

  lemma OneLineAppend(a: string, b: string)
    requires OneLine(a) && OneLine(b)
    ensures OneLine(a + b)
  {
  }

  lemma MarkersAreOneLine()
    ensures OneLine(BEGIN) && OneLine(END) && StripCr(BEGIN) == BEGIN && StripCr(END) == END
  {
    OneLineAppend("# >>> gaviero: ", "GAVIERO.md ");
    OneLineAppend("# >>> gaviero: " + "GAVIERO.md ", "replaces these ");
    OneLineAppend("# >>> gaviero: " + "GAVIERO.md " + "replaces these ", "(managed block)");
  }

  lemma WrittenIsPlain(kept: seq<string>, active: bool)
    requires IsKept(kept)
    ensures AllOneLine(Written(kept, active))
    ensures StripCrs(Written(kept, active)) == Written(StripCrs(kept), active)
  {
    forall i | 0 <= i < |BlockLines()| ensures OneLine(BlockLines()[i]) && StripCr(BlockLines()[i]) == BlockLines()[i] {
      if 0 < i < |IGNORED| + 1 { IgnoredNames(i - 1); } else { MarkersAreOneLine(); }
    }
  }

  /** A second look at what was written: the same lines, but for carriage returns. */
  lemma KeptOfSynced(existing: Option<string>, active: bool)
    requires active || Kept(existing) != []
    ensures Synced(existing, active).Some?
    ensures Lines(Synced(existing, active).value) == Written(StripCrs(Kept(existing)), active)
    ensures Kept(Synced(existing, active)) == StripCrs(Kept(existing))
  {
    var kept := Kept(existing);
    KeptIsPlain(existing);
    WrittenIsPlain(kept, active);
    LinesOfTerminated(Written(kept, active));
    StripCrsOfKept(kept);
    KeptOfWritten(StripCrs(kept), active);
  }

  // ---------------------------------------------------------------------------
  // Repeated runs

  lemma {:induction false} BlankParts(parts: seq<string>)
    requires IsBlank(Concat(parts))
    ensures forall i :: 0 <= i < |parts| ==> IsBlank(parts[i])
  {
    if parts != [] {
      var rest := parts[1..];
      assert forall c :: c in parts[0] || c in Concat(rest) ==> c in Concat(parts);
      BlankParts(rest);
      forall i | 0 <= i < |parts| ensures IsBlank(parts[i]) {
        if i > 0 { assert parts[i] == rest[i - 1]; }
      }
    }
  }

  predicate AllBlank(lines: seq<string>) {
    forall i :: 0 <= i < |lines| ==> IsBlank(lines[i])
  }

  lemma {:induction false} OutsideOfBlank(lines: seq<string>)
    requires AllBlank(lines)
    ensures AllBlank(Outside(lines))
  {
    if lines != [] { OutsideOfBlank(lines[..|lines| - 1]); }
  }

  lemma {:induction false} DropAllBlank(lines: seq<string>)
    requires AllBlank(lines)
    ensures DropBlankTail(lines) == []
  {
    if lines != [] {
      TrimOfBlank(lines[|lines| - 1]);
      DropAllBlank(lines[..|lines| - 1]);
    }
  }

  lemma BlankFileKeepsNothing(existing: Option<string>)
    requires IsBlankFile(existing)
    ensures Kept(existing) == []
  {
    var text := existing.value;
    TrimOfBlank(text);
    PiecesPartition(text);
    BlankParts(Pieces(text));
    forall i | 0 <= i < |Lines(text)| ensures IsBlank(Lines(text)[i]) {
      var piece := Pieces(text)[i];
      assert forall c :: c in StripEol(piece) ==> c in piece;
    }
    OutsideOfBlank(Lines(text));
    DropAllBlank(Outside(Lines(text)));
  }

  lemma NothingIsKept()
    ensures Kept(None) == []
  {
    assert Pieces("") == [] && Lines("") == [];
  }

  lemma SharpIsNotBlank(text: string)
    requires text != "" && text[0] == '#'
    ensures Trim(text) != ""
  {
    TrimOfBlank(text);
    assert text[0] in text;
  }

  lemma BlockStartsWithSharp()
    ensures Concat(Ended(BlockLines())) != "" && Concat(Ended(BlockLines()))[0] == '#'
  {
    assert BEGIN[0] == '#';
    assert BlockLines() == [BEGIN] + (IGNORED + [END]);
    EndedAppend([BEGIN], IGNORED + [END]);
    EndedOne(BEGIN);
  }

  lemma BlockIsNotBlank()
    ensures Kept(Synced(None, true)) == [] && !IsBlankFile(Synced(None, true))
  {
    NothingIsKept();
    KeptOfSynced(None, true);
    BlockStartsWithSharp();
    hide Kept, Trim, BlockLines, Concat;
    assert Written([], true) == BlockLines();
    SharpIsNotBlank(Synced(None, true).value);
  }

  /** Without a line of the user's, only whether the file is blank matters. */
  lemma SyncedWithoutLines(existing: Option<string>, active: bool)
    requires Kept(existing) == []
    ensures active ==> Synced(existing, active) == Synced(None, true)
    ensures !active ==> Synced(existing, active) == if IsBlankFile(existing) then existing else None
  {
    NothingIsKept();
    hide BlockLines, Concat;
  }

  predicate LosesBlankFile(existing: Option<string>, first: bool, second: bool) {
    first && !second && IsBlankFile(existing)
  }

  lemma SyncTwiceWithoutLines(existing: Option<string>, first: bool, second: bool)
    requires Kept(existing) == []
    ensures Synced(Synced(existing, first), second) == Synced(existing, second)
            <==> !LosesBlankFile(existing, first, second)
  {
    BlockIsNotBlank();
    SyncedWithoutLines(existing, first);
    SyncedWithoutLines(existing, second);
    SyncedWithoutLines(Synced(existing, first), second);
  }

  lemma SyncTwiceWithLines(existing: Option<string>, first: bool, second: bool)
    requires Kept(existing) != []
    ensures Synced(Synced(existing, first), second) == Synced(existing, second) <==> NoCrAtEnd(Kept(existing))
  {
    var kept := Kept(existing);
    KeptIsPlain(existing);
    KeptOfSynced(existing, first);
    KeptIsPlain(Synced(existing, first));
    StripCrsIsIdentity(kept);
    WrittenIsPlain(kept, second);
    WrittenIsPlain(StripCrs(kept), second);
    if Synced(Synced(existing, first), second) == Synced(existing, second) {
      TerminatedIsInjective(Written(kept, second), Written(StripCrs(kept), second));
      assert Written(kept, second)[..|kept|] == kept;
      assert Written(StripCrs(kept), second)[..|kept|] == StripCrs(kept);
    }
  }

  /** The last call alone decides the file, so that repeating a call changes nothing, exactly
      unless one of the user's lines ends in a carriage return or an earlier call has turned a
      blank file into a block. */
  lemma LastCallDecides(existing: Option<string>, first: bool, second: bool)
    ensures Synced(Synced(existing, first), second) == Synced(existing, second)
            <==> NoCrAtEnd(Kept(existing)) && !LosesBlankFile(existing, first, second)
  {
    if Kept(existing) == [] {
      SyncTwiceWithoutLines(existing, first, second);
    } else {
      if IsBlankFile(existing) { BlankFileKeepsNothing(existing); }
      SyncTwiceWithLines(existing, first, second);
    }
  }

  /** A tidy file (no block, no carriage return, no blank tail) comes back whole once the block
      is taken out again. */
  lemma DeactivationRestoresTidyFile(lines: seq<string>)
    requires lines != [] && IsKept(lines) && NoCrAtEnd(lines)
    ensures var file := Some(Concat(Ended(lines)));
            Kept(file) == lines && Synced(Synced(file, true), false) == file
  {
    var file := Some(Concat(Ended(lines)));
    LinesOfTerminated(lines);
    StripCrsIsIdentity(lines);
    OutsideOfPlain(lines);
    KeptOfWritten(lines, false);
    assert Written(lines, false) == lines;
    if IsBlankFile(file) { BlankFileKeepsNothing(file); }
    LastCallDecides(file, true, false);
  }

  // ---------------------------------------------------------------------------
  // Files that are left as they are

  /** The text ends in a line feed, and no carriage return stands before one. */
  predicate LfEnded(text: string) {
    && EndsWithNewline(text)
    && forall i :: 0 <= i < |text| - 1 && text[i] == '\r' ==> text[i + 1] != '\n'
  }

  lemma BareEnd(piece: string)
    requires EndsWithNewline(piece)
    ensures StripEol(piece) + "\n" == piece <==> |piece| < 2 || piece[|piece| - 2] != '\r'
  {
    assert piece[..|piece| - 1] + "\n" == piece;
    if |piece| > 1 && piece[|piece| - 2] == '\r' { assert |StripEol(piece) + "\n"| < |piece|; }
  }

  lemma FirstLineLfEnded(first: string, rest: string)
    requires IsPiece(first) && EndsWithNewline(first)
    ensures LfEnded(first + rest) <==> StripEol(first) + "\n" == first && (rest == "" || LfEnded(rest))
  {
    BareEnd(first);
    hide StripEol;
    var text, n := first + rest, |first|;
    if LfEnded(text) {
      if n > 1 { assert text[n - 2] == first[n - 2] && text[n - 1] == '\n'; }
      if rest != "" { LfEndedAfter(first, rest); }
    } else if StripEol(first) + "\n" == first && (rest == "" || LfEnded(rest)) {
      LfEndedAround(first, rest);
    }
  }

  lemma LfEndedAround(first: string, rest: string)
    requires IsPiece(first) && EndsWithNewline(first) && (|first| < 2 || first[|first| - 2] != '\r')
    requires rest == "" || LfEnded(rest)
    ensures LfEnded(first + rest)
  {
    var text, n := first + rest, |first|;
    assert forall i :: 0 <= i < n ==> text[i] == first[i];
    assert forall i :: n <= i < |text| ==> text[i] == rest[i - n];
    assert EndsWithNewline(text);
    forall i | 0 <= i < |text| - 1 && text[i] == '\r' ensures text[i + 1] != '\n' {
      if i >= n { assert rest[i - n + 1] != '\n'; }
    }
  }

  lemma LfEndedAfter(first: string, rest: string)
    requires LfEnded(first + rest) && rest != ""
    ensures LfEnded(rest)
  {
    var text, n := first + rest, |first|;
    assert text[|text| - 1] == rest[|rest| - 1];
    forall i | 0 <= i < |rest| - 1 && rest[i] == '\r' ensures rest[i + 1] != '\n' {
      assert text[n + i] == rest[i] && text[n + i + 1] == rest[i + 1];
    }
  }

  lemma FirstOfLines(s: string)
    requires s != ""
    ensures Lines(s) == [StripEol(s[..FirstLineLength(s)])] + Lines(s[FirstLineLength(s)..])
  {
    hide Pieces, FirstLineLength, StripEol, IsPiece;
    FirstLineIsPiece(s);
    StripFirst(s[..FirstLineLength(s)], Pieces(s[FirstLineLength(s)..]));
  }

  lemma StripFirst(first: string, rest: seq<string>)
    ensures StripAll([first] + rest) == [StripEol(first)] + StripAll(rest)
  {
    hide StripEol;
  }

  lemma FirstLineEnded(s: string)
    requires s != ""
    ensures var n := FirstLineLength(s);
            Concat(Ended(Lines(s))) == StripEol(s[..n]) + "\n" + Concat(Ended(Lines(s[n..])))
  {
    hide *;
    var n := FirstLineLength(s);
    FirstOfLines(s);
    EndedAppend([StripEol(s[..n])], Lines(s[n..]));
    EndedOne(StripEol(s[..n]));
  }

  /** Writing each line of a text with a line feed gives the text back exactly when it is so
      written. */
  lemma {:induction false} EndedLinesExactly(text: string)
    requires text != ""
    ensures Concat(Ended(Lines(text))) == text <==> LfEnded(text)
    decreases |text|
  {
    hide Lines, Concat, FirstLineLength, LfEnded;
    var n := FirstLineLength(text);
    var first, rest := text[..n], text[n..];
    FirstLineIsPiece(text);
    FirstLineEnded(text);
    var tail := Concat(Ended(Lines(rest)));
    if rest == "" { NothingEnded(); } else { EndedLinesExactly(rest); }
    if EndsWithNewline(first) {
      FirstLineLfEnded(first, rest);
      SameAfterFirst(first, rest, tail);
    } else {
      assert rest == "" && text == first;
      NotLfEnded(text);
      assert |StripEol(first) + "\n" + tail| > |text|;
    }
  }

  lemma NothingEnded()
    ensures Concat(Ended(Lines(""))) == ""
  {
  }

  lemma NotLfEnded(text: string)
    requires !EndsWithNewline(text)
    ensures !LfEnded(text)
  {
  }

  lemma SameAfterFirst(first: string, rest: string, tail: string)
    requires IsPiece(first) && EndsWithNewline(first)
    ensures StripEol(first) + "\n" + tail == first + rest <==> StripEol(first) + "\n" == first && tail == rest
  {
    var n, a, b := |first|, StripEol(first) + "\n" + tail, first + rest;
    BareEnd(first);
    if n > 1 && first[n - 2] == '\r' {
      assert |StripEol(first)| == n - 2;
      assert a[n - 2] == '\n' && b[n - 2] == first[n - 2];
      assert |StripEol(first) + "\n"| < n;
    } else {
      assert a[n..] == tail && b[n..] == rest;
    }
  }

  predicate BlankTail(text: string) {
    Lines(text) != [] && IsBlank(Lines(text)[|Lines(text)| - 1])
  }

  lemma SomeLine(text: string)
    requires text != ""
    ensures Lines(text) != []
  {
    FirstLineIsPiece(text);
  }

  /** Files with neither a block nor a blank tail keep every line. */
  lemma PlainLinesAreKept(text: string)
    requires text != "" && NoBegin(Lines(text)) && !BlankTail(text)
    ensures Kept(Some(text)) == Lines(text) != []
  {
    SomeLine(text);
    LinesAreOneLine(text);
    hide Lines, OneLine, IsBegin, IsBlank;
    OutsideOfPlain(Lines(text));
    DropNothing(Lines(text));
  }

  /** A file whose kept lines, so written, are the file itself. */
  lemma RewrittenAsItIs(text: string)
    requires text == Concat(Ended(Kept(Some(text)))) && Kept(Some(text)) != []
    ensures NoBegin(Lines(text)) && !BlankTail(text) && LfEnded(text)
  {
    hide *;
    var kept := Kept(Some(text));
    KeptIsPlain(Some(text));
    KeptIsSome(text);
    KeptIsOneLine(kept);
    LinesOfTerminated(kept);
    StripCrsOfKept(kept);
    KeptLinesArePlain(text);
    PlainLinesAreKept(text);
    EndedLinesExactly(text);
  }

  lemma KeptIsOneLine(kept: seq<string>)
    requires IsKept(kept)
    ensures AllOneLine(kept)
  {
  }

  lemma KeptIsSome(text: string)
    requires Kept(Some(text)) != []
    ensures text != ""
  {
    NothingIsKept();
  }

  lemma KeptLinesArePlain(text: string)
    requires IsKept(Lines(text))
    ensures NoBegin(Lines(text)) && !BlankTail(text)
  {
    hide Lines;
  }

  /** An update without a block leaves a file as it is exactly when the file is blank, or it has
      no block, ends every line in a bare line feed and has no blank tail: other files are
      rewritten although nothing was asked for. */
  lemma InactiveSyncIsIdleExactly(text: string)
    ensures Synced(Some(text), false) == Some(text)
            <==> Trim(text) == "" || (NoBegin(Lines(text)) && LfEnded(text) && !BlankTail(text))
  {
    var existing := Some(text);
    assert Written(Kept(existing), false) == Kept(existing);
    if Trim(text) == "" { BlankFileKeepsNothing(existing); }
    hide Kept, Trim, Concat, NoBegin, BlankTail, Lines;
    if NoBegin(Lines(text)) && LfEnded(text) && !BlankTail(text) {
      PlainLinesAreKept(text);
      EndedLinesExactly(text);
    }
    if Kept(existing) != [] && Synced(existing, false) == existing {
      RewrittenAsItIs(text);
    }
  }

  // ---------------------------------------------------------------------------
  // Which lines go and where the block stands

  lemma {:induction false} TrimmedPart(s: string) returns (after: string)
    ensures IsBlank(after) && s == TrimEnd(s) + after
  {
    if s != "" && IsWhitespace(s[|s| - 1]) {
      after := TrimmedPart(s[..|s| - 1]);
      after := after + [s[|s| - 1]];
    } else {
      after := "";
    }
  }

  /** The marker lines are the two markers, whatever white space follows. */
  lemma MarkerLines(line: string)
    ensures IsBegin(line) <==> exists after :: IsBlank(after) && line == BEGIN + after
    ensures IsEnd(line) <==> exists after :: IsBlank(after) && line == END + after
  {
    var rest := TrimmedPart(line);
    assert TrimEnd(BEGIN) == BEGIN && TrimEnd(END) == END;
    if after :| IsBlank(after) && line == BEGIN + after { TrimEndOfPadded(BEGIN, after); }
    if after :| IsBlank(after) && line == END + after { TrimEndOfPadded(END, after); }
  }

  /** A begin line stands at or before line `i`, and no end line between the two. */
  ghost predicate Dropped(lines: seq<string>, i: nat) {
    exists j :: 0 <= j <= i && j < |lines| && IsBegin(lines[j]) && forall k :: j < k < i && k < |lines| ==> !IsEnd(lines[k])
  }

  lemma {:induction false} InBlockIs(lines: seq<string>)
    ensures InBlock(lines)
            <==> exists j :: 0 <= j < |lines| && IsBegin(lines[j]) && forall k :: j < k < |lines| ==> !IsEnd(lines[k])
  {
    hide IsBegin, IsEnd;
    if lines != [] {
      var init, last := lines[..|lines| - 1], lines[|lines| - 1];
      InBlockIs(init);
      if j :| 0 <= j < |lines| && IsBegin(lines[j]) && forall k :: j < k < |lines| ==> !IsEnd(lines[k]) {
        if j < |init| {
          assert IsBegin(init[j]) && forall k :: j < k < |init| ==> !IsEnd(init[k]);
        }
      }
      if j :| 0 <= j < |init| && IsBegin(init[j]) && forall k :: j < k < |init| ==> !IsEnd(init[k]) {
        assert IsBegin(lines[j]) && forall k :: j < k < |init| ==> lines[k] == init[k];
      }
    }
  }

  lemma DroppedIs(init: seq<string>, last: string)
    ensures Dropped(init + [last], |init|) <==> IsBegin(last) || InBlock(init)
    ensures forall i :: 0 <= i < |init| ==> (Dropped(init + [last], i) <==> Dropped(init, i))
  {
    InBlockIs(init);
    hide InBlock, IsBegin, IsEnd;
    var lines := init + [last];
    assert lines[|init|] == last && forall k :: 0 <= k < |init| ==> lines[k] == init[k];
    if Dropped(lines, |init|) {
      var j :| 0 <= j <= |init| && j < |lines| && IsBegin(lines[j]) && forall k :: j < k < |init| && k < |lines| ==> !IsEnd(lines[k]);
      if j < |init| { assert IsBegin(init[j]) && forall k :: j < k < |init| ==> !IsEnd(init[k]); }
    }
    if IsBegin(last) { assert IsBegin(lines[|init|]); }
    forall i | 0 <= i < |init| ensures Dropped(lines, i) <==> Dropped(init, i) { SameBefore(init, last, i); }
  }

  lemma SameBefore(init: seq<string>, last: string, i: nat)
    requires i < |init|
    ensures Dropped(init + [last], i) <==> Dropped(init, i)
  {
    hide IsBegin, IsEnd;
    var lines := init + [last];
    if Dropped(lines, i) {
      var j :| 0 <= j <= i && j < |lines| && IsBegin(lines[j]) && forall k :: j < k < i && k < |lines| ==> !IsEnd(lines[k]);
      assert IsBegin(init[j]) && forall k :: j < k < i ==> init[k] == lines[k];
    }
    if Dropped(init, i) {
      var j :| 0 <= j <= i && j < |init| && IsBegin(init[j]) && forall k :: j < k < i && k < |init| ==> !IsEnd(init[k]);
      assert IsBegin(lines[j]) && forall k :: j < k < i ==> init[k] == lines[k];
    }
  }

  /** The user's lines are all lines, in their order, but those from a begin line to the next end
      line, or to the end of the file. */
  lemma {:induction false} OutsideIsTheRest(lines: seq<string>) returns (places: seq<nat>)
    ensures PartAt(lines, Outside(lines), places)
    ensures forall i :: 0 <= i < |lines| ==> (i in places <==> !Dropped(lines, i))
  {
    if lines == [] {
      places := [];
    } else {
      hide *;
      var init, last := lines[..|lines| - 1], lines[|lines| - 1];
      assert lines == init + [last];
      places := OutsideIsTheRest(init);
      OutsideSnoc(init, last);
      DroppedIs(init, last);
      PartGrows(init, Outside(init), places, last);
      LastPlace(places, |init|);
      if !(IsBegin(last) || InBlock(init)) {
        places := places + [|init|];
      } else {
        assert Outside(init) + [] == Outside(init);
      }
    }
  }

  /** The dropped tail is all blank. */
  lemma {:induction false} DroppedTailIsBlank(lines: seq<string>)
    ensures DropBlankTail(lines) <= lines
    ensures forall i :: |DropBlankTail(lines)| <= i < |lines| ==> IsBlank(lines[i])
    ensures DropBlankTail(lines) != [] ==> !IsBlank(DropBlankTail(lines)[|DropBlankTail(lines)| - 1])
  {
    hide Trim, IsBlank;
    if lines != [] {
      TrimOfBlank(lines[|lines| - 1]);
      if Trim(lines[|lines| - 1]) == "" { DroppedTailIsBlank(lines[..|lines| - 1]); }
    }
  }

  /** With the block asked for, the file reads: the user's lines, an empty line if there are any,
      the begin line, the ignored names, the end line, and nothing behind it. */
  lemma BlockIsLast(existing: Option<string>)
    ensures Synced(existing, true).Some? && EndsWithNewline(Synced(existing, true).value)
    ensures Lines(Synced(existing, true).value)
            == StripCrs(Kept(existing)) + (if Kept(existing) == [] then [] else [""]) + ([BEGIN] + IGNORED + [END])
  {
    KeptOfSynced(existing, true);
    SyncedIsTerminated(existing);
    WrittenWithBlock(StripCrs(Kept(existing)));
    hide *;
    assert |StripCrs(Kept(existing))| == |Kept(existing)|;
  }

  lemma WrittenWithBlock(kept: seq<string>)
    ensures Written(kept, true) == kept + (if |kept| == 0 then [] else [""]) + ([BEGIN] + IGNORED + [END])
  {
  }

  lemma SyncedIsTerminated(existing: Option<string>)
    ensures Synced(existing, true).Some? && EndsWithNewline(Synced(existing, true).value)
  {
    SyncedText(existing, Kept(existing), true);
    hide Kept;
  }
}
