/** The prompt journal: an append-only line log that tolerates torn writes. Models
    crates/gaviero-core/src/session_journal.rs; the file is its text, or nothing. */
module Journal {
  import opened Json
  import opened Text
  import opened JournalRecord
  import opened Selection

  // ---------------------------------------------------------------------------
  // Reading

  function LineEntry(line: string, decode: string -> Option<Entry>): Option<Entry> {
    if Trim(line) == "" then None else decode(line)
  }

  function Decoded(lines: seq<string>, decode: string -> Option<Entry>): seq<Entry> {
    if lines == [] then []
    else
      var init, last := Decoded(lines[..|lines| - 1], decode), LineEntry(lines[|lines| - 1], decode);
      if last.Some? then init + [last.value] else init
  }

  /** How many lines are neither blank nor a record. */
  function Unreadable(lines: seq<string>, decode: string -> Option<Entry>): nat {
    if lines == [] then 0
    else
      var last := lines[|lines| - 1];
      Unreadable(lines[..|lines| - 1], decode) + if Trim(last) != "" && decode(last) == None then 1 else 0
  }

  lemma NoLines()
    ensures Lines("") == []
  {
  }

  function Loaded(content: Option<string>, decode: string -> Option<Entry>): seq<Entry> {
    match content
    case None => []
    case Some(text) => Decoded(Lines(text), decode)
  }

  function TextOf(content: Option<string>): string {
    if content.Some? then content.value else ""
  }

  function Others(entries: seq<Entry>, conv: string): seq<Entry> {
    if entries == [] then []
    else
      var init, last := Others(entries[..|entries| - 1], conv), entries[|entries| - 1];
      if last.convId != conv then init + [last] else init
  }

  function Record(e: Entry): string {
    Encode(e) + "\n"
  }

  function Records(entries: seq<Entry>): string {
    if entries == [] then "" else Records(entries[..|entries| - 1]) + Record(entries[|entries| - 1])
  }

  function Forgotten(content: Option<string>, conv: string, decode: string -> Option<Entry>): Option<string> {
    if content == None then None else Some(Records(Others(Loaded(content, decode), conv)))
  }

  class JournalFile {
    var content: Option<string>

    method AppendEntry(e: Entry)
      modifies this
      ensures content == Some(TextOf(old(content)) + Record(e))
    {
      var line := Encode(e);
      line := line + "\n";
      content := Some(TextOf(content) + line);
    }

    /** Every intact entry in append order, and how many other non-blank lines were skipped. */
    method Load(decode: string -> Option<Entry>) returns (entries: seq<Entry>, skipped: nat)
      ensures entries == Loaded(content, decode)
      ensures skipped == Unreadable(Lines(TextOf(content)), decode)
    {
      hide Decode, Trim, Pieces, StripAll;
      entries, skipped := [], 0;
      if content == None {
        NoLines();
        return;
      }
      var lines := Lines(content.value);
      for i := 0 to |lines|
        invariant entries == Decoded(lines[..i], decode)
        invariant skipped == Unreadable(lines[..i], decode)
      {
        assert lines[..i + 1][..i] == lines[..i];
        if Trim(lines[i]) != "" {
          match decode(lines[i]) {
            case Some(e) => entries := entries + [e];
            case None => skipped := skipped + 1;
          }
        }
      }
      assert lines[..|lines|] == lines;
    }

    method Checkpoint()
      modifies this
      ensures content == if old(content).Some? then Some("") else None
    {
      if content.Some? {
        content := Some("");
      }
    }

    method ForgetConversation(conv: string, decode: string -> Option<Entry>)
      modifies this
      ensures content == Forgotten(old(content), conv, decode)
    {
      hide Decode, Encode, Lines, Decoded;
      if content == None {
        return;
      }
      var entries, _ := Load(decode);
      var kept := Others(entries, conv);
      var body := "";
      for i := 0 to |kept|
        invariant body == Records(kept[..i])
        invariant content == old(content)
      {
        assert kept[..i + 1][..i] == kept[..i];
        assert body + Encode(kept[i]) + "\n" == body + Record(kept[i]);
        body := body + Encode(kept[i]);
        body := body + "\n";
      }
      assert kept[..|kept|] == kept;
      content := Some(body);
    }
  }

  // ---------------------------------------------------------------------------
  // Lines of a journal

  predicate AllOneLine(lines: seq<string>) {
    forall l :: l in lines ==> OneLine(l)
  }

  lemma OneLineAt(s: string, i: nat)
    requires OneLine(s) && i < |s|
    ensures s[i] != '\n' && s[i] != '\r'
  {
    assert s[i] in s;
  }

  lemma StripEnded(line: string)
    requires OneLine(line)
    ensures StripEol(line + "\n") == line && StripEol(line) == line
  {
    if line != "" { OneLineAt(line, |line| - 1); }
  }

  /** A file of ended lines and an unended tail splits into exactly those. */
  lemma LinesOfFile(done: seq<string>, tail: string)
    requires AllOneLine(done) && OneLine(tail)
    ensures Lines(Concat(Ended(done)) + tail) == done + if tail == "" then [] else [tail]
  {
    var parts := Ended(done) + if tail == "" then [] else [tail];
    ConcatAppend(Ended(done), if tail == "" then [] else [tail]);
    if tail == "" { assert parts == Ended(done); } else { ConcatOne(tail); }
    forall i | 0 <= i < |parts|
      ensures parts[i] != "" && (i < |parts| - 1 ==> EndsWithNewline(parts[i]))
      ensures forall j :: 0 <= j < |parts[i]| - 1 ==> parts[i][j] != '\n'
      ensures StripEol(parts[i]) == (done + [tail])[i]
    {
      var line := if i < |done| then done[i] else tail;
      assert OneLine(line);
      StripEnded(line);
      forall j | 0 <= j < |parts[i]| - 1 ensures parts[i][j] != '\n' { OneLineAt(line, j); }
    }
    PiecesOfConcat(parts);
  }

  lemma NotBlank(e: Entry, before: string)
    ensures Trim(before + Encode(e)) != ""
  {
    EncodeBegins(e);
    TrimOfBlank(before + Encode(e));
    assert (before + Encode(e))[|before|] == '{';
    assert '{' in before + Encode(e) && !IsWhitespace('{');
  }

  lemma DecodedSnoc(lines: seq<string>, line: string, decode: string -> Option<Entry>)
    ensures Decoded(lines + [line], decode) == Decoded(lines, decode) + if LineEntry(line, decode).Some? then [LineEntry(line, decode).value] else []
  {
    assert (lines + [line])[..|lines|] == lines;
  }

  lemma {:induction false} DecodedLines(lines: seq<string>, decode: string -> Option<Entry>, keep: string -> bool)
    returns (read: seq<string>, places: seq<nat>)
    requires forall line :: keep(line) <==> LineEntry(line, decode).Some?
    ensures PartAt(lines, read, places) && PlacesOf(lines, places, keep)
    ensures |read| == |Decoded(lines, decode)|
    ensures forall j :: 0 <= j < |read| ==> LineEntry(read[j], decode) == Some(Decoded(lines, decode)[j])
  {
    hide *;
    if lines == [] {
      read, places := [], [];
      NothingDecoded(decode);
      NoPart(keep);
    } else {
      var init, last := lines[..|lines| - 1], lines[|lines| - 1];
      assert lines == init + [last];
      read, places := DecodedLines(init, decode, keep);
      DecodedSnoc(init, last, decode);
      PartOneMore(init, read, places, last, keep);
      if keep(last) {
        read, places := read + [last], places + [|init|];
      }
    }
  }

  lemma EntryOfLine(line: string, decode: string -> Option<Entry>)
    ensures LineEntry(line, decode) == if IsBlank(line) then None else decode(line)
  {
    TrimOfBlank(line);
  }

  ghost function Skipped(lines: seq<string>, decode: string -> Option<Entry>): set<nat> {
    set i: nat | i < |lines| && !IsBlank(lines[i]) && decode(lines[i]) == None
  }

  lemma SkippedSnoc(lines: seq<string>, line: string, decode: string -> Option<Entry>)
    ensures Skipped(lines + [line], decode)
            == Skipped(lines, decode) + if !IsBlank(line) && decode(line) == None then {|lines|} else {}
  {
    hide IsBlank;
    forall i: nat | i < |lines| ensures (lines + [line])[i] == lines[i] {}
  }

  lemma UnreadableSnoc(lines: seq<string>, line: string, decode: string -> Option<Entry>)
    ensures Unreadable(lines + [line], decode)
            == Unreadable(lines, decode) + if !IsBlank(line) && decode(line) == None then 1 else 0
  {
    TrimOfBlank(line);
    hide Trim, IsBlank;
    assert (lines + [line])[..|lines|] == lines;
  }

  lemma {:induction false} SkippedLines(lines: seq<string>, decode: string -> Option<Entry>)
    ensures Unreadable(lines, decode) == |Skipped(lines, decode)|
  {
    if lines == [] {
      assert Skipped(lines, decode) == {};
    } else {
      hide Unreadable, IsBlank;
      var init, last := lines[..|lines| - 1], lines[|lines| - 1];
      assert lines == init + [last];
      SkippedLines(init, decode);
      SkippedSnoc(init, last, decode);
      UnreadableSnoc(init, last, decode);
      assert |init| !in Skipped(init, decode);
    }
  }

  /** What loading returns and counts, line by line. */
  lemma LoadedLines(text: string, decode: string -> Option<Entry>) returns (read: seq<string>, places: seq<nat>)
    ensures var lines, entries := Lines(text), Loaded(Some(text), decode);
            && PartAt(lines, read, places) && |read| == |entries|
            && (forall j :: 0 <= j < |read| ==> decode(read[j]) == Some(entries[j]))
            && (forall i :: 0 <= i < |lines| ==> (i in places <==> !IsBlank(lines[i]) && decode(lines[i]).Some?))
            && Unreadable(lines, decode) == |set i: nat | i < |lines| && !IsBlank(lines[i]) && decode(lines[i]) == None|
  {
    hide Lines, PartAt, IsBlank, Decoded, Unreadable, LineEntry;
    read, places := DecodedLines(Lines(text), decode, line => LineEntry(line, decode).Some?);
    forall line ensures LineEntry(line, decode) == if IsBlank(line) then None else decode(line) { EntryOfLine(line, decode); }
    SkippedLines(Lines(text), decode);
  }

  // ---------------------------------------------------------------------------
  // Runs with crashes

  /** `Torn(e, k)`: the process died after `k` characters of the record of `e`. */
  datatype Op = Append(e: Entry) | Torn(e: Entry, k: nat) | Checkpoint | Forget(conv: string)

  predicate Possible(op: Op) {
    op.Torn? ==> op.k <= |Encode(op.e)|
  }

  function Apply(content: Option<string>, op: Op, decode: string -> Option<Entry>): Option<string> {
    match op
    case Append(e) => Some(TextOf(content) + Record(e))
    case Torn(e, k) => if k <= |Encode(e)| then Some(TextOf(content) + Encode(e)[..k]) else content
    case Checkpoint => if content.Some? then Some("") else None
    case Forget(conv) => Forgotten(content, conv, decode)
  }

  function Run(ops: seq<Op>, decode: string -> Option<Entry>): Option<string> {
    if ops == [] then None else Apply(Run(ops[..|ops| - 1], decode), ops[|ops| - 1], decode)
  }

  /** The reference: which records survive. The end of the file is at a line boundary, or a whole
      record without its line end, or broken. */
  datatype Tail = Clean | Whole(e: Entry) | Broken

  datatype Survivors = Survivors(entries: seq<Entry>, tail: Tail) {
    function All(): seq<Entry> {
      if tail.Whole? then entries + [tail.e] else entries
    }
  }

  function Survive(s: Survivors, op: Op): Survivors {
    match op
    case Append(e) => Survivors(if s.tail.Clean? then s.entries + [e] else s.entries, Clean)
    case Torn(e, k) =>
      if k == 0 then s
      else if s.tail.Clean? && k == |Encode(e)| then s.(tail := Whole(e))
      else s.(tail := Broken)
    case Checkpoint => Survivors([], Clean)
    case Forget(conv) => Survivors(Others(s.All(), conv), Clean)
  }

  function SurviveAll(ops: seq<Op>): Survivors {
    if ops == [] then Survivors([], Clean) else Survive(SurviveAll(ops[..|ops| - 1]), ops[|ops| - 1])
  }

  /** The text of the tail is what the reference says it is. */
  ghost predicate TailIs(text: string, tail: Tail) {
    match tail
    case Clean => text == ""
    case Whole(e) => text == Encode(e)
    case Broken => exists frags :: AreFragments(frags) && !IsWhole(frags) && text == Pasted(frags)
  }

  ghost predicate Represents(content: Option<string>, done: seq<string>, tail: string, s: Survivors, decode: string -> Option<Entry>) {
    && TextOf(content) == Concat(Ended(done)) + tail
    && AllOneLine(done) && OneLine(tail)
    && Decoded(done, decode) == s.entries
    && TailIs(tail, s.tail)
  }

  /** A record, or a part of one, behind a begun one. */
  lemma RecordAfterTail(text: string, tail: Tail, e: Entry, k: nat)
    requires TailIs(text, tail) && !tail.Clean? && 0 < k <= |Encode(e)|
    ensures TailIs(text + Encode(e)[..k], Broken)
  {
    hide Encode;
    var frags: seq<Fragment>;
    if tail.Whole? {
      EncodeBegins(tail.e);
      var whole := Fragment(tail.e, |Encode(tail.e)|);
      PastedOne(whole);
      assert Encode(tail.e)[..whole.k] == Encode(tail.e);
      frags := [whole];
    } else {
      frags :| AreFragments(frags) && !IsWhole(frags) && text == Pasted(frags);
    }
    PastedSnoc(frags, Fragment(e, k));
  }

  /** The line that an append completes. */
  lemma CompletedLine(text: string, tail: Tail, e: Entry, decode: string -> Option<Entry>)
    requires Reads(decode) && TailIs(text, tail)
    ensures LineEntry(text + Encode(e), decode) == if tail.Clean? then Some(e) else None
  {
    hide Encode, Trim;
    NotBlank(e, text);
    if tail.Clean? {
      assert text + Encode(e) == Encode(e);
    } else {
      EncodeBegins(e);
      assert Encode(e)[..|Encode(e)|] == Encode(e);
      RecordAfterTail(text, tail, e, |Encode(e)|);
      BrokenIsNoEntry(text + Encode(e), decode);
    }
  }

  lemma BrokenIsNoEntry(text: string, decode: string -> Option<Entry>)
    requires Reads(decode) && TailIs(text, Broken)
    ensures LineEntry(text, decode) == None
  {
    hide Encode, Trim, Pasted;
    var frags :| AreFragments(frags) && !IsWhole(frags) && text == Pasted(frags);
    assert RejectsPasted(decode, frags);
  }

  lemma LineRepresents(content: Option<string>, done: seq<string>, tail: string, s: Survivors, record: string, t: Survivors, decode: string -> Option<Entry>)
    requires Represents(content, done, tail, s, decode) && OneLine(record)
    requires t.tail == Clean
    requires t.entries == s.entries + if LineEntry(tail + record, decode).Some? then [LineEntry(tail + record, decode).value] else []
    ensures Represents(Some(TextOf(content) + (record + "\n")), done + [tail + record], "", t, decode)
  {
    hide LineEntry, Concat, Ended, OneLine, Decoded, Stuck, AllOneLine;
    OneLineJoin(tail, record);
    EndedSnoc(done, tail + record);
    DecodedSnoc(done, tail + record, decode);
    LineText(Concat(Ended(done)), tail, record);
    AllOneLineSnoc(done, tail + record);
  }

  lemma LineText(before: string, tail: string, record: string)
    ensures before + tail + (record + "\n") == before + (tail + record) + "\n" + ""
  {
  }

  lemma AllOneLineSnoc(lines: seq<string>, line: string)
    requires AllOneLine(lines) && OneLine(line)
    ensures AllOneLine(lines + [line]) && OneLine("")
  {
    assert OneLine("");
    hide OneLine;
  }

  lemma AppendRepresents(content: Option<string>, done: seq<string>, tail: string, s: Survivors, e: Entry, decode: string -> Option<Entry>)
    requires Reads(decode)
    requires Represents(content, done, tail, s, decode)
    ensures Represents(Some(TextOf(content) + Record(e)), done + [tail + Encode(e)], "", Survive(s, Append(e)), decode)
  {
    hide Encode, Concat, Ended, Decoded, LineEntry, AllOneLine, OneLine, Pasted, AreFragments;
    CompletedLine(tail, s.tail, e, decode);
    EncodeIsOneLine(e);
    LineRepresents(content, done, tail, s, Encode(e), Survive(s, Append(e)), decode);
  }

  lemma OneLinePrefix(s: string, k: nat)
    requires OneLine(s) && k <= |s|
    ensures OneLine(s[..k])
  {
  }

  lemma PartIsBroken(e: Entry, k: nat)
    requires 0 < k < |Encode(e)|
    ensures TailIs(Encode(e)[..k], Broken)
  {
    hide Encode, Pasted;
    PastedOne(Fragment(e, k));
  }

  lemma BrokenIsNotEmpty(text: string)
    requires TailIs(text, Broken)
    ensures text != ""
  {
    hide Encode;
    var frags: seq<Fragment> :| AreFragments(frags) && !IsWhole(frags) && text == Pasted(frags);
    var last := frags[|frags| - 1];
    assert |Encode(last.e)[..last.k]| == last.k > 0;
  }

  lemma TornTail(text: string, tail: Tail, e: Entry, k: nat)
    requires TailIs(text, tail) && k <= |Encode(e)|
    ensures TailIs(text + Encode(e)[..k], Survive(Survivors([], tail), Torn(e, k)).tail)
  {
    hide Encode, Pasted, AreFragments, IsWhole;
    var part := Encode(e)[..k];
    if k == 0 {
      assert text + part == text;
    } else if tail.Clean? {
      assert text + part == part;
      if k == |Encode(e)| { assert part == Encode(e); } else { PartIsBroken(e, k); }
    } else {
      RecordAfterTail(text, tail, e, k);
    }
  }

  lemma PartText(text: string, done: seq<string>, tail: string, part: string)
    requires text == Concat(Ended(done)) + tail
    ensures text + part == Concat(Ended(done)) + (tail + part)
  {
  }

  lemma TornRepresents(content: Option<string>, done: seq<string>, tail: string, s: Survivors, e: Entry, k: nat, decode: string -> Option<Entry>)
    requires Represents(content, done, tail, s, decode) && k <= |Encode(e)|
    ensures Represents(Some(TextOf(content) + Encode(e)[..k]), done, tail + Encode(e)[..k], Survive(s, Torn(e, k)), decode)
  {
    EncodeIsOneLine(e);
    OneLinePrefix(Encode(e), k);
    OneLineJoin(tail, Encode(e)[..k]);
    TornTail(tail, s.tail, e, k);
    PartText(TextOf(content), done, tail, Encode(e)[..k]);
  }

  lemma EmptyFile(done: seq<string>, tail: string)
    requires Concat(Ended(done)) + tail == ""
    ensures done == [] && tail == ""
  {
    if done != [] { EndOfConcat(Ended(done)); }
  }

  /** What a represented file loads as. */
  lemma LoadedOfRepresented(content: Option<string>, done: seq<string>, tail: string, s: Survivors, decode: string -> Option<Entry>)
    requires Reads(decode)
    requires Represents(content, done, tail, s, decode)
    ensures Loaded(content, decode) == s.All()
  {
    hide Encode, Trim, Lines, Concat, Ended, Decoded, Pasted, OneLine, AllOneLine, LineEntry;
    LinesOfFile(done, tail);
    if s.tail.Whole? { EncodeBegins(s.tail.e); }
    if content == None {
      EmptyFile(done, tail);
      NothingDecoded(decode);
    } else if tail == "" {
      assert done + [] == done;
    } else {
      DecodedSnoc(done, tail, decode);
      TailEntry(tail, s.tail, decode);
      assert s.entries + [] == s.entries;
    }
  }

  lemma NothingDecoded(decode: string -> Option<Entry>)
    ensures Decoded([], decode) == []
  {
  }

  lemma TailEntry(text: string, tail: Tail, decode: string -> Option<Entry>)
    requires Reads(decode) && TailIs(text, tail) && text != ""
    ensures LineEntry(text, decode) == if tail.Whole? then Some(tail.e) else None
  {
    hide Encode, Trim, Pasted;
    match tail {
      case Clean =>
      case Whole(e) =>
        NotBlank(e, "");
        assert "" + text == text;
      case Broken => BrokenIsNoEntry(text, decode);
    }
  }

  lemma EmptyRepresents(decode: string -> Option<Entry>)
    ensures Represents(Some(""), [], "", Survivors([], Clean), decode)
  {
    assert Ended([]) == [];
  }

  lemma {:induction false} RecordsRepresent(entries: seq<Entry>, decode: string -> Option<Entry>) returns (done: seq<string>)
    requires Reads(decode)
    ensures Represents(Some(Records(entries)), done, "", Survivors(entries, Clean), decode)
  {
    hide Encode, Record, Concat, Decoded, OneLine;
    if entries == [] {
      done := [];
      EmptyRepresents(decode);
    } else {
      var init, last := entries[..|entries| - 1], entries[|entries| - 1];
      done := RecordsRepresent(init, decode);
      AppendRepresents(Some(Records(init)), done, "", Survivors(init, Clean), last, decode);
      done := done + ["" + Encode(last)];
      assert init + [last] == entries;
    }
  }

  /** Forgetting a conversation and loading is a filter, whatever the file holds. */
  lemma ForgetIsFilter(content: Option<string>, conv: string, decode: string -> Option<Entry>)
    requires Reads(decode)
    ensures Loaded(Forgotten(content, conv, decode), decode) == Others(Loaded(content, decode), conv)
  {
    if content.Some? {
      var kept := Others(Loaded(content, decode), conv);
      var done := RecordsRepresent(kept, decode);
      LoadedOfRepresented(Some(Records(kept)), done, "", Survivors(kept, Clean), decode);
    }
  }

  lemma OthersSnoc(entries: seq<Entry>, e: Entry, conv: string)
    ensures Others(entries + [e], conv) == if e.convId != conv then Others(entries, conv) + [e] else Others(entries, conv)
  {
    assert (entries + [e])[..|entries|] == entries;
  }

  lemma NoOthers(conv: string)
    ensures Others([], conv) == []
  {
  }

  lemma {:induction false} OthersCounts(entries: seq<Entry>, conv: string, e: Entry)
    ensures multiset(Others(entries, conv))[e] == if e.convId == conv then 0 else multiset(entries)[e]
  {
    if entries != [] {
      hide Others;
      var init, last := entries[..|entries| - 1], entries[|entries| - 1];
      assert entries == init + [last];
      OthersCounts(init, conv, e);
      OthersSnoc(init, last, conv);
    }
  }

  lemma {:induction false} OthersAreKept(entries: seq<Entry>, conv: string, keep: Entry -> bool) returns (places: seq<nat>)
    requires forall e :: keep(e) <==> e.convId != conv
    ensures PartAt(entries, Others(entries, conv), places) && PlacesOf(entries, places, keep)
  {
    hide *;
    if entries == [] {
      places := [];
      NoOthers(conv);
      NoPart(keep);
    } else {
      var init, last := entries[..|entries| - 1], entries[|entries| - 1];
      assert entries == init + [last];
      places := OthersAreKept(init, conv, keep);
      OthersSnoc(init, last, conv);
      PartOneMore(init, Others(init, conv), places, last, keep);
      places := if keep(last) then places + [|init|] else places;
    }
  }

  /** The entries of the other conversations, at their places and in their order. */
  lemma OthersAreTheRest(entries: seq<Entry>, conv: string) returns (places: seq<nat>)
    ensures PartAt(entries, Others(entries, conv), places)
    ensures forall i :: 0 <= i < |entries| ==> (i in places <==> entries[i].convId != conv)
  {
    hide Others, PartAt;
    places := OthersAreKept(entries, conv, (e: Entry) => e.convId != conv);
  }

  /** After a conversation is forgotten, loading gives no entry of it, every other entry as often
      as before, and these in the order in which they were loaded before, whatever the file held. */
  lemma ForgetKeepsOthers(content: Option<string>, conv: string, decode: string -> Option<Entry>) returns (places: seq<nat>)
    requires Reads(decode)
    ensures var before, after := Loaded(content, decode), Loaded(Forgotten(content, conv, decode), decode);
            && (forall e :: e in after ==> e.convId != conv)
            && (forall e :: multiset(after)[e] == if e.convId == conv then 0 else multiset(before)[e])
            && PartAt(before, after, places)
            && (forall i :: 0 <= i < |before| ==> (i in places <==> before[i].convId != conv))
  {
    ForgetIsFilter(content, conv, decode);
    hide *;
    var before, after := Loaded(content, decode), Loaded(Forgotten(content, conv, decode), decode);
    places := OthersAreTheRest(before, conv);
    forall e: Entry ensures multiset(after)[e] == if e.convId == conv then 0 else multiset(before)[e] { OthersCounts(before, conv, e); }
    forall e | e in after ensures e.convId != conv { assert multiset(after)[e] > 0; }
  }

  lemma {:induction false} RunRepresents(ops: seq<Op>, decode: string -> Option<Entry>) returns (done: seq<string>, tail: string)
    requires Reads(decode)
    requires forall op :: op in ops ==> Possible(op)
    ensures Represents(Run(ops, decode), done, tail, SurviveAll(ops), decode)
  {
    if ops == [] {
      done, tail := [], "";
      assert Ended([]) == [];
    } else {
      var init, op := ops[..|ops| - 1], ops[|ops| - 1];
      done, tail := RunRepresents(init, decode);
      var before, s := Run(init, decode), SurviveAll(init);
      match op {
        case Append(e) =>
          AppendRepresents(before, done, tail, s, e, decode);
          done, tail := done + [tail + Encode(e)], "";
        case Torn(e, k) =>
          assert Possible(op);
          TornRepresents(before, done, tail, s, e, k, decode);
          tail := tail + Encode(e)[..k];
        case Checkpoint =>
          done, tail := [], "";
          assert Ended([]) == [];
        case Forget(conv) =>
          LoadedOfRepresented(before, done, tail, s, decode);
          if before == None {
            ForgetNothing(s, conv);
          } else {
            done := RecordsRepresent(Others(Loaded(before, decode), conv), decode);
            tail := "";
          }
      }
    }
  }

  lemma ForgetNothing(s: Survivors, conv: string)
    requires s.All() == []
    ensures s.entries == [] && !s.tail.Whole? && Others(s.All(), conv) == []
  {
  }

  /** After any run of appends, torn appends, checkpoints and forgotten conversations, loading
      returns exactly the surviving records, in order, with any JSON reader that reads records
      back and rejects what torn appends leave. */
  lemma LoadReturnsSurvivors(ops: seq<Op>, decode: string -> Option<Entry>)
    requires Reads(decode)
    requires forall op :: op in ops ==> Possible(op)
    ensures Loaded(Run(ops, decode), decode) == SurviveAll(ops).All()
  {
    var done, tail := RunRepresents(ops, decode);
    LoadedOfRepresented(Run(ops, decode), done, tail, SurviveAll(ops), decode);
  }

  /** The same for the step of a run that forgets: the prompts of every other conversation
      survive it. */
  lemma ForgetStepKeepsOthers(ops: seq<Op>, conv: string, decode: string -> Option<Entry>) returns (places: seq<nat>)
    requires Reads(decode)
    requires forall op :: op in ops ==> Possible(op)
    ensures var before, after := Loaded(Run(ops, decode), decode), Loaded(Run(ops + [Forget(conv)], decode), decode);
            && before == SurviveAll(ops).All() && after == SurviveAll(ops + [Forget(conv)]).All()
            && (forall e :: e in after ==> e.convId != conv)
            && (forall e :: multiset(after)[e] == if e.convId == conv then 0 else multiset(before)[e])
            && PartAt(before, after, places)
            && (forall i :: 0 <= i < |before| ==> (i in places <==> before[i].convId != conv))
  {
    var more := ops + [Forget(conv)];
    assert more[..|more| - 1] == ops && Run(more, decode) == Forgotten(Run(ops, decode), conv, decode);
    LoadReturnsSurvivors(ops, decode);
    LoadReturnsSurvivors(more, decode);
    hide *;
    places := ForgetKeepsOthers(Run(ops, decode), conv, decode);
  }

  function Appends(entries: seq<Entry>): (ops: seq<Op>)
    ensures forall op :: op in ops ==> op.Append?
  {
    if entries == [] then [] else Appends(entries[..|entries| - 1]) + [Append(entries[|entries| - 1])]
  }

  lemma {:induction false} SurviveAppends(entries: seq<Entry>)
    ensures SurviveAll(Appends(entries)) == Survivors(entries, Clean)
  {
    if entries != [] {
      var init, last := entries[..|entries| - 1], entries[|entries| - 1];
      SurviveAppends(init);
      assert Appends(entries)[..|Appends(entries)| - 1] == Appends(init);
      assert init + [last] == entries;
    }
  }

  /** Appended entries load in order; cutting the last append anywhere keeps every earlier entry
      and adds the last only if its whole record was written. */
  lemma TornAppendKeepsEarlier(entries: seq<Entry>, e: Entry, k: nat, decode: string -> Option<Entry>)
    requires Reads(decode)
    requires k <= |Encode(e)|
    ensures Loaded(Run(Appends(entries), decode), decode) == entries
    ensures Loaded(Apply(Run(Appends(entries), decode), Torn(e, k), decode), decode) == entries + if k == |Encode(e)| then [e] else []
  {
    hide Encode, Loaded;
    var ops := Appends(entries) + [Torn(e, k)];
    SurviveAppends(entries);
    EncodeBegins(e);
    LoadReturnsSurvivors(Appends(entries), decode);
    assert ops[..|ops| - 1] == Appends(entries);
    LoadReturnsSurvivors(ops, decode);
  }

  /** Nothing repairs a torn tail: in any run an append is recovered exactly when the file ended
      at a line boundary. */
  lemma AppendKeptExactlyAtBoundary(ops: seq<Op>, e: Entry, decode: string -> Option<Entry>)
    requires Reads(decode)
    requires forall op :: op in ops ==> Possible(op)
    ensures var text := TextOf(Run(ops, decode));
            Loaded(Apply(Run(ops, decode), Append(e), decode), decode) == Loaded(Run(ops, decode), decode) + [e] <==> text == "" || EndsWithNewline(text)
  {
    var more := ops + [Append(e)];
    assert more[..|more| - 1] == ops;
    LoadReturnsSurvivors(ops, decode);
    LoadReturnsSurvivors(more, decode);
    var done, tail := RunRepresents(ops, decode);
    BoundaryIsCleanTail(Run(ops, decode), done, tail, SurviveAll(ops), decode);
  }

  lemma BoundaryIsCleanTail(content: Option<string>, done: seq<string>, tail: string, s: Survivors, decode: string -> Option<Entry>)
    requires Represents(content, done, tail, s, decode)
    ensures s.tail.Clean? <==> TextOf(content) == "" || EndsWithNewline(TextOf(content))
  {
    hide Encode, Pasted, Decoded;
    var text := TextOf(content);
    if s.tail.Whole? { EncodeBegins(s.tail.e); }
    if s.tail.Broken? { BrokenIsNotEmpty(tail); }
    if tail != "" {
      OneLineAt(tail, |tail| - 1);
      assert text[|text| - 1] == tail[|tail| - 1];
    } else if done != [] {
      EndOfConcat(Ended(done));
      assert text == Concat(Ended(done));
    }
  }
}
