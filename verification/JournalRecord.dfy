/** One journal record: the line that serde_json writes for an entry, and a reader for such
    lines. Models the encoding used by crates/gaviero-core/src/session_journal.rs. */
module JournalRecord {
  import opened Json

  datatype Entry = Entry(ts: nat, convId: string, convTitle: string, role: string, text: string)

  // ---------------------------------------------------------------------------
  // Writing

  function DigitChar(d: nat): char
    requires d < 10
  {
    '0' + d as char
  }

  function PrintNat(n: nat): string {
    if n < 10 then [DigitChar(n)] else PrintNat(n / 10) + [DigitChar(n % 10)]
  }

  function HexChar(d: nat): char
    requires d < 16
  {
    if d < 10 then '0' + d as char else 'a' + (d - 10) as char
  }

  /** The escapes of serde_json: two-character ones where they exist, else `\u00xx`. */
  function EscapeChar(c: char): string {
    if c == '"' then "\\\""
    else if c == '\\' then "\\\\"
    else if c == '\n' then "\\n"
    else if c == '\r' then "\\r"
    else if c == '\t' then "\\t"
    else if c == '\U{0008}' then "\\b"
    else if c == '\U{000C}' then "\\f"
    else if IsControl(c) then "\\u00" + [HexChar(c as int / 16), HexChar(c as int % 16)]
    else [c]
  }

  function Escape(s: string): string {
    if s == "" then "" else EscapeChar(s[0]) + Escape(s[1..])
  }

  /** What stands before each field, and at the end. */
  function Frame(n: nat): string {
    match n
    case 0 => "{\"ts\":"
    case 1 => ",\"conv_id\":\""
    case 2 => ",\"conv_title\":\""
    case 3 => ",\"role\":\""
    case 4 => ",\"text\":\""
    case _ => "}"
  }

  /** The opening of a record, up to the quote of its first string. */
  function Head(e: Entry): string {
    Frame(0) + PrintNat(e.ts) + Frame(1)
  }

  /** String field `n`, its closing quote and what follows it. */
  function Part(n: nat, s: string): string {
    Escape(s) + "\"" + Frame(n + 1)
  }

  function Encode(e: Entry): string {
    Head(e) + Part(1, e.convId) + Part(2, e.convTitle) + Part(3, e.role) + Part(4, e.text)
  }

  // ---------------------------------------------------------------------------
  // Reading, character by character

  datatype Phase =
    | InFrame(n: nat, pos: nat)
    | FirstDigit
    | Digits
    | Chars(n: nat)
    | Escaped(n: nat)
    | Hex(n: nat, left: nat, code: nat)
    | Done
    | Dead

  datatype Reader = Reader(phase: Phase, ts: nat, fields: seq<string>, current: string)

  const START: Reader := Reader(InFrame(0, 0), 0, [], "")

  /** The phase after the last character of frame `n`. */
  function AfterFrame(n: nat): Phase {
    if n == 0 then FirstDigit else if n < 5 then Chars(n) else Done
  }

  function ReadFrame(r: Reader, c: char): Reader
    requires r.phase.InFrame?
  {
    var n, pos := r.phase.n, r.phase.pos;
    if pos >= |Frame(n)| || Frame(n)[pos] != c then r.(phase := Dead)
    else if pos + 1 == |Frame(n)| then r.(phase := AfterFrame(n))
    else r.(phase := InFrame(n, pos + 1))
  }

  function ReadChar(r: Reader, c: char): Reader {
    match r.phase
    case InFrame(_, _) => ReadFrame(r, c)
    case FirstDigit => if IsDigit(c) then r.(phase := Digits, ts := (c - '0') as nat) else r.(phase := Dead)
    case Digits =>
      if IsDigit(c) then r.(ts := r.ts * 10 + (c - '0') as nat)
      else ReadFrame(r.(phase := InFrame(1, 0)), c)
    case Chars(n) =>
      if c == '"' then r.(phase := InFrame(n + 1, 0), fields := r.fields + [r.current], current := "")
      else if c == '\\' then r.(phase := Escaped(n))
      else if IsControl(c) then r.(phase := Dead)
      else r.(current := r.current + [c])
    case Escaped(n) =>
      if c == 'u' then r.(phase := Hex(n, 4, 0))
      else if Unescape(c).Some? then r.(phase := Chars(n), current := r.current + [Unescape(c).value])
      else r.(phase := Dead)
    case Hex(n, left, code) =>
      if HexValue(c) == None then r.(phase := Dead)
      else
        var value := code * 16 + HexValue(c).value;
        if left > 1 then r.(phase := Hex(n, left - 1, value))
        else if value < 0xD800 || 0xE000 <= value <= 0xFFFF then r.(phase := Chars(n), current := r.current + [value as char])
        else r.(phase := Dead)
    case Done => r.(phase := Dead)
    case Dead => r
  }

  function Read(r: Reader, s: string): Reader {
    if s == "" then r else ReadChar(Read(r, s[..|s| - 1]), s[|s| - 1])
  }

  /** The entry a whole line holds, if it is a record as written here. */
  function Decode(line: string): Option<Entry> {
    var r := Read(START, line);
    if r.phase == Done && |r.fields| == 4 then Some(Entry(r.ts, r.fields[0], r.fields[1], r.fields[2], r.fields[3]))
    else None
  }

  // ---------------------------------------------------------------------------
  // Round trip

  lemma {:induction false} ReadAppend(r: Reader, a: string, b: string)
    ensures Read(r, a + b) == Read(Read(r, a), b)
  {
    hide *;
    if b == "" {
      ReadNothing(Read(r, a));
      assert a + b == a;
    } else {
      var init, last := b[..|b| - 1], b[|b| - 1];
      ReadAppend(r, a, init);
      SplitLast(a, b);
      ReadSnoc(r, a + init, last);
      ReadSnoc(Read(r, a), init, last);
    }
  }

  lemma SplitLast(a: string, b: string)
    requires b != ""
    ensures b == b[..|b| - 1] + [b[|b| - 1]] && a + b == (a + b[..|b| - 1]) + [b[|b| - 1]]
  {
  }

  lemma ReadNothing(r: Reader)
    ensures Read(r, "") == r
  {
  }

  lemma ReadSnoc(r: Reader, s: string, c: char)
    ensures Read(r, s + [c]) == ReadChar(Read(r, s), c)
  {
    hide ReadChar;
    assert (s + [c])[..|s|] == s;
  }

  lemma ReadOne(r: Reader, c: char)
    ensures Read(r, [c]) == ReadChar(r, c)
  {
    assert Read(r, [c][..0]) == r;
  }

  lemma {:induction false} ReadRestOfFrame(r: Reader, n: nat, pos: nat)
    requires r.phase == InFrame(n, pos) && pos < |Frame(n)|
    ensures Read(r, Frame(n)[pos..]) == r.(phase := AfterFrame(n))
    decreases |Frame(n)| - pos
  {
    var f := Frame(n);
    ReadOne(r, f[pos]);
    assert f[pos..] == [f[pos]] + f[pos + 1..];
    ReadAppend(r, [f[pos]], f[pos + 1..]);
    if pos + 1 < |f| {
      ReadRestOfFrame(r.(phase := InFrame(n, pos + 1)), n, pos + 1);
    }
  }

  lemma ReadWholeFrame(r: Reader, n: nat)
    requires r.phase == InFrame(n, 0)
    ensures Read(r, Frame(n)) == r.(phase := AfterFrame(n))
  {
    ReadRestOfFrame(r, n, 0);
    assert Frame(n)[0..] == Frame(n);
  }

  lemma DigitRoundTrip(d: nat)
    requires d < 10
    ensures IsDigit(DigitChar(d)) && (DigitChar(d) - '0') as nat == d
  {
  }

  lemma {:induction false} ReadPrintedNat(r: Reader, n: nat)
    requires r.phase == FirstDigit
    ensures Read(r, PrintNat(n)) == r.(phase := Digits, ts := n)
  {
    DigitRoundTrip(n % 10);
    if n < 10 {
      ReadOne(r, DigitChar(n));
    } else {
      ReadPrintedNat(r, n / 10);
      ReadAppend(r, PrintNat(n / 10), [DigitChar(n % 10)]);
      ReadOne(r.(phase := Digits, ts := n / 10), DigitChar(n % 10));
    }
  }

  lemma HexRoundTrip(d: nat)
    requires d < 16
    ensures HexValue(HexChar(d)) == Some(d)
  {
  }

  lemma ReadTwo(r: Reader, a: char, b: char)
    ensures Read(r, [a, b]) == ReadChar(ReadChar(r, a), b)
  {
    assert [a, b] == [a] + [b];
    ReadAppend(r, [a], [b]);
    ReadOne(r, a);
    ReadOne(ReadChar(r, a), b);
  }

  /** Reading `a` and then `b`. */
  lemma ReadChain(r: Reader, a: string, r1: Reader, b: string, r2: Reader)
    requires Read(r, a) == r1 && Read(r1, b) == r2
    ensures Read(r, a + b) == r2
  {
    ReadAppend(r, a, b);
  }

  lemma ReadUnicodeEscape(r: Reader, n: nat, hi: nat, lo: nat)
    requires r.phase == Chars(n) && hi < 2 && lo < 16
    ensures Read(r, "\\u00" + [HexChar(hi), HexChar(lo)]) == r.(current := r.current + [(hi * 16 + lo) as char])
  {
    HexRoundTrip(hi);
    HexRoundTrip(lo);
    assert HexValue('0') == Some(0);
    var r4, r2 := r.(phase := Hex(n, 4, 0)), r.(phase := Hex(n, 2, 0));
    ReadTwo(r, '\\', 'u');
    ReadTwo(r4, '0', '0');
    ReadChain(r, ['\\', 'u'], r4, ['0', '0'], r2);
    assert ['\\', 'u'] + ['0', '0'] == "\\u00";
    ReadHexPair(r2, n, hi, lo);
    ReadChain(r, "\\u00", r2, [HexChar(hi), HexChar(lo)], r.(current := r.current + [(hi * 16 + lo) as char]));
  }

  lemma ReadHexPair(r: Reader, n: nat, hi: nat, lo: nat)
    requires r.phase == Hex(n, 2, 0) && hi < 2 && lo < 16
    ensures Read(r, [HexChar(hi), HexChar(lo)]) == r.(phase := Chars(n), current := r.current + [(hi * 16 + lo) as char])
  {
    hide *;
    ReadTwo(r, HexChar(hi), HexChar(lo));
    ReadHexDigit(r, n, 2, 0, hi);
    ReadHexDigit(r.(phase := Hex(n, 1, hi)), n, 1, hi, lo);
  }

  lemma ReadHexDigit(r: Reader, n: nat, left: nat, code: nat, d: nat)
    requires r.phase == Hex(n, left, code) && d < 16 && code * 16 + d < 0xD800
    ensures ReadChar(r, HexChar(d)) ==
            if left > 1 then r.(phase := Hex(n, left - 1, code * 16 + d))
            else r.(phase := Chars(n), current := r.current + [(code * 16 + d) as char])
  {
    HexRoundTrip(d);
    hide Frame, ReadFrame, HexValue, HexChar, IsDigit, Unescape;
  }

  predicate HasShortEscape(c: char) {
    c == '"' || c == '\\' || c == '\n' || c == '\r' || c == '\t' || c == '\U{0008}' || c == '\U{000C}'
  }

  lemma ReadShortEscape(r: Reader, n: nat, c: char, letter: char)
    requires r.phase == Chars(n) && Unescape(letter) == Some(c)
    ensures Read(r, ['\\', letter]) == r.(current := r.current + [c])
  {
    hide Read, Frame, ReadFrame, HexValue, IsDigit;
    ReadTwo(r, '\\', letter);
  }

  lemma EscapeShapes(c: char)
    ensures HasShortEscape(c) ==> EscapeChar(c) == ['\\', EscapeChar(c)[1]] && Unescape(EscapeChar(c)[1]) == Some(c)
    ensures !HasShortEscape(c) && IsControl(c) ==>
              EscapeChar(c) == "\\u00" + [HexChar(c as int / 16), HexChar(c as int % 16)] && c as int / 16 < 2
    ensures !HasShortEscape(c) && !IsControl(c) ==> EscapeChar(c) == [c] && c != '"' && c != '\\'
  {
  }

  lemma ReadEscapedChar(r: Reader, n: nat, c: char)
    requires r.phase == Chars(n)
    ensures Read(r, EscapeChar(c)) == r.(current := r.current + [c])
  {
    EscapeShapes(c);
    if HasShortEscape(c) {
      ReadShortEscape(r, n, c, EscapeChar(c)[1]);
    } else if IsControl(c) {
      ReadUnicodeEscape(r, n, c as int / 16, c as int % 16);
    } else {
      ReadOne(r, c);
    }
  }

  lemma {:induction false} ReadEscaped(r: Reader, n: nat, s: string)
    requires r.phase == Chars(n)
    ensures Read(r, Escape(s)) == r.(current := r.current + s)
    decreases |s|
  {
    if s == "" {
      assert r.current + s == r.current;
    } else {
      var next := r.(current := r.current + [s[0]]);
      assert next.current + s[1..] == r.current + s;
      ReadEscapedChar(r, n, s[0]);
      ReadEscaped(next, n, s[1..]);
      ReadChain(r, EscapeChar(s[0]), next, Escape(s[1..]), r.(current := r.current + s));
    }
  }

  /** A string field as written, its closing quote and the frame after it. */
  lemma ReadField(r: Reader, n: nat, s: string, written: string)
    requires r.phase == Chars(n) && r.current == "" && Read(r, written) == r.(current := s)
    ensures Read(r, written + "\"" + Frame(n + 1)) == Reader(AfterFrame(n + 1), r.ts, r.fields + [s], "")
  {
    var r1 := r.(current := s);
    var r2 := Reader(InFrame(n + 1, 0), r.ts, r.fields + [s], "");
    ReadOne(r1, '"');
    ReadChain(r, written, r1, "\"", r2);
    ReadWholeFrame(r2, n + 1);
    ReadChain(r, written + "\"", r2, Frame(n + 1), r2.(phase := AfterFrame(n + 1)));
  }

  lemma ReadPart(r: Reader, n: nat, s: string)
    requires r.phase == Chars(n) && r.current == ""
    ensures Read(r, Part(n, s)) == Reader(AfterFrame(n + 1), r.ts, r.fields + [s], "")
  {
    ReadEscaped(r, n, s);
    assert "" + s == s;
    ReadField(r, n, s, Escape(s));
  }

  lemma ReadHead(e: Entry)
    ensures Read(START, Head(e)) == Reader(Chars(1), e.ts, [], "")
  {
    ReadWholeFrame(START, 0);
    ReadPrintedNat(START.(phase := FirstDigit), e.ts);
    ReadAppend(START, Frame(0), PrintNat(e.ts));
    var r := Reader(Digits, e.ts, [], "");
    ReadAppend(START, Frame(0) + PrintNat(e.ts), Frame(1));
    ReadWholeFrame(r.(phase := InFrame(1, 0)), 1);
    assert Frame(1) == [','] + Frame(1)[1..];
    ReadAppend(r, [','], Frame(1)[1..]);
    ReadOne(r, ',');
    ReadAppend(r.(phase := InFrame(1, 0)), [','], Frame(1)[1..]);
    ReadOne(r.(phase := InFrame(1, 0)), ',');
  }

  lemma ReadParts(r0: Reader, h: string, r1: Reader, a: string, r2: Reader, b: string, r3: Reader, c: string, r4: Reader,
                  d: string, r5: Reader)
    requires Read(r0, h) == r1 && Read(r1, a) == r2 && Read(r2, b) == r3 && Read(r3, c) == r4 && Read(r4, d) == r5
    ensures Read(r0, h + a + b + c + d) == r5
  {
    ReadChain(r0, h, r1, a, r2);
    ReadChain(r0, h + a, r2, b, r3);
    ReadChain(r0, h + a + b, r3, c, r4);
    ReadChain(r0, h + a + b + c, r4, d, r5);
  }

  lemma ReadEncoded(e: Entry)
    ensures Read(START, Encode(e)) == Reader(Done, e.ts, [e.convId, e.convTitle, e.role, e.text], "")
  {
    hide Read, Head, Part;
    var r1 := Reader(Chars(1), e.ts, [], "");
    var r2 := Reader(Chars(2), e.ts, [e.convId], "");
    var r3 := Reader(Chars(3), e.ts, [e.convId, e.convTitle], "");
    var r4 := Reader(Chars(4), e.ts, [e.convId, e.convTitle, e.role], "");
    var r5 := Reader(Done, e.ts, [e.convId, e.convTitle, e.role, e.text], "");
    ReadHead(e);
    ReadPart(r1, 1, e.convId);
    ReadPart(r2, 2, e.convTitle);
    ReadPart(r3, 3, e.role);
    ReadPart(r4, 4, e.text);
    ReadParts(START, Head(e), r1, Part(1, e.convId), r2, Part(2, e.convTitle), r3, Part(3, e.role), r4, Part(4, e.text), r5);
  }

  /** What is written is read back. */
  lemma DecodeOfEncode(e: Entry)
    ensures Decode(Encode(e)) == Some(e)
  {
    ReadEncoded(e);
  }

  // ---------------------------------------------------------------------------
  // Torn records

  lemma {:induction false} DeadStaysDead(r: Reader, s: string)
    requires r.phase == Dead
    ensures Read(r, s) == r
  {
    if s != "" { DeadStaysDead(r, s[..|s| - 1]); }
  }

  /** No record is a proper prefix of another, nor of itself. */
  lemma PrefixIsNoRecord(e: Entry, k: nat)
    requires k < |Encode(e)|
    ensures Read(START, Encode(e)[..k]).phase != Done
  {
    hide *;
    var p, q := Encode(e)[..k], Encode(e)[k..];
    assert Encode(e) == p + q;
    ReadAppend(START, p, q);
    ReadEncoded(e);
    if Read(START, p).phase == Done { MoreIsDead(Read(START, p), q); }
  }

  lemma MoreIsDead(r: Reader, s: string)
    requires r.phase == Done && s != ""
    ensures Read(r, s).phase == Dead
  {
    hide Read, Frame;
    assert s == [s[0]] + s[1..];
    ReadAppend(r, [s[0]], s[1..]);
    ReadOne(r, s[0]);
    DeadStaysDead(r.(phase := Dead), s[1..]);
  }

  /** A reader that has begun a record and will not finish it on any run of records or parts of
      records. */
  predicate Stuck(phase: Phase) {
    phase != Done && phase != InFrame(0, 0)
  }

  lemma NeverBackToStart(r: Reader, c: char)
    ensures ReadChar(r, c).phase != InFrame(0, 0)
  {
  }

  lemma EncodeBegins(e: Entry)
    ensures |Encode(e)| > 3 && Encode(e)[0] == '{' && Encode(e)[1] == '"' && Encode(e)[2] == 't'
  {
    assert Frame(0) <= Encode(e);
    assert Frame(0)[0] == '{' && Frame(0)[1] == '"' && Frame(0)[2] == 't';
  }

  /** Once a record has been begun, the first three characters of another one end it: the brace
      fits only inside a string, the quote then closes the string, and the letter fits nothing. */
  lemma BraceQuoteLetter(r: Reader)
    requires r.phase != InFrame(0, 0)
    ensures var r1 := ReadChar(r, '{');
            var r2 := ReadChar(r1, '"');
            Stuck(r1.phase) && Stuck(r2.phase) && ReadChar(r2, 't').phase == Dead
  {
    FramesWithoutBrace(r.phase);
    if r.phase.Chars? {
      var n := r.phase.n + 1;
      assert Frame(n)[0] == ',' || Frame(n)[0] == '{' || Frame(n)[0] == '}';
    }
  }

  lemma FramesWithoutBrace(phase: Phase)
    ensures phase.InFrame? && phase != InFrame(0, 0) && phase.pos < |Frame(phase.n)| ==> Frame(phase.n)[phase.pos] != '{'
  {
  }

  /** Any part of a record read after a begun one leaves the reader stuck. */
  lemma RecordAfterBegunOne(r: Reader, e: Entry, k: nat)
    requires r.phase != InFrame(0, 0) && 0 < k <= |Encode(e)|
    ensures Stuck(Read(r, Encode(e)[..k]).phase)
  {
    hide Encode, Read, ReadChar;
    var p := Encode(e)[..k];
    EncodeBegins(e);
    BraceQuoteLetter(r);
    ReadOne(r, '{');
    ReadTwo(r, '{', '"');
    if k == 1 {
      assert p == ['{'];
    } else if k == 2 {
      assert p == ['{', '"'];
    } else {
      var dead := ReadChar(ReadChar(ReadChar(r, '{'), '"'), 't');
      assert p == ['{', '"'] + ['t'] + p[3..];
      ReadAppend(r, ['{', '"'] + ['t'], p[3..]);
      ReadAppend(r, ['{', '"'], ['t']);
      ReadOne(ReadChar(ReadChar(r, '{'), '"'), 't');
      DeadStaysDead(dead, p[3..]);
    }
  }

  lemma PartOfRecordIsStuck(e: Entry, k: nat)
    requires 0 < k < |Encode(e)|
    ensures Stuck(Read(START, Encode(e)[..k]).phase)
  {
    hide ReadChar, Encode;
    var p := Encode(e)[..k];
    PrefixIsNoRecord(e, k);
    NeverBackToStart(Read(START, p[..k - 1]), p[k - 1]);
  }

  /** The first `k` characters of the record of `e`. */
  datatype Fragment = Fragment(e: Entry, k: nat)

  predicate AreFragments(frags: seq<Fragment>) {
    frags != [] && forall i :: 0 <= i < |frags| ==> 0 < frags[i].k <= |Encode(frags[i].e)|
  }

  predicate IsWhole(frags: seq<Fragment>) {
    |frags| == 1 && frags[0].k == |Encode(frags[0].e)|
  }

  /** What torn appends leave on one line: records and parts of records, one behind the other. */
  function Pasted(frags: seq<Fragment>): string
    requires forall i :: 0 <= i < |frags| ==> frags[i].k <= |Encode(frags[i].e)|
  {
    if frags == [] then "" else
    var last := frags[|frags| - 1];
    Pasted(frags[..|frags| - 1]) + Encode(last.e)[..last.k]
  }

  ghost predicate RejectsPasted(decode: string -> Option<Entry>, frags: seq<Fragment>) {
    AreFragments(frags) && !IsWhole(frags) ==> decode(Pasted(frags)) == None
  }

  /** What the journal needs of the JSON reader: it reads every record back, and takes nothing
      else that torn appends can leave on a line for one. */
  ghost predicate Reads(decode: string -> Option<Entry>) {
    && (forall e :: decode(Encode(e)) == Some(e))
    && (forall frags :: RejectsPasted(decode, frags))
  }

  lemma PastedSnoc(frags: seq<Fragment>, f: Fragment)
    requires AreFragments(frags) && 0 < f.k <= |Encode(f.e)|
    ensures AreFragments(frags + [f]) && !IsWhole(frags + [f])
    ensures Pasted(frags + [f]) == Pasted(frags) + Encode(f.e)[..f.k]
  {
    hide Encode;
    assert (frags + [f])[..|frags|] == frags;
  }

  lemma PastedOne(f: Fragment)
    requires 0 < f.k <= |Encode(f.e)|
    ensures AreFragments([f]) && Pasted([f]) == Encode(f.e)[..f.k]
  {
    hide Encode;
    assert [f][..0] == [];
    assert Pasted([f]) == "" + Encode(f.e)[..f.k];
  }

  lemma {:induction false} PastedIsBegun(frags: seq<Fragment>)
    requires AreFragments(frags)
    ensures if IsWhole(frags) then Read(START, Pasted(frags)).phase == Done else Stuck(Read(START, Pasted(frags)).phase)
  {
    hide Encode, Read;
    var init, last := frags[..|frags| - 1], frags[|frags| - 1];
    assert frags == init + [last];
    if init == [] {
      PastedOne(last);
      if last.k == |Encode(last.e)| {
        ReadEncoded(last.e);
        assert Encode(last.e)[..last.k] == Encode(last.e);
      } else {
        PartOfRecordIsStuck(last.e, last.k);
      }
    } else {
      PastedIsBegun(init);
      PastedSnoc(init, last);
      ReadAppend(START, Pasted(init), Encode(last.e)[..last.k]);
      RecordAfterBegunOne(Read(START, Pasted(init)), last.e, last.k);
    }
  }

  /** The strict reader is such a reader. */
  lemma StrictReaderReads()
    ensures Reads(Decode)
  {
    hide Encode, Read;
    forall e ensures Decode(Encode(e)) == Some(e) { DecodeOfEncode(e); }
    forall frags ensures RejectsPasted(Decode, frags) {
      if AreFragments(frags) { PastedIsBegun(frags); }
    }
  }

  // ---------------------------------------------------------------------------
  // Framing

  /** No character of a record can break a line. */
  predicate OneLine(s: string) {
    forall c :: c in s ==> !IsControl(c)
  }

  lemma {:induction false} EscapeIsOneLine(s: string)
    ensures OneLine(Escape(s))
  {
    if s != "" {
      EscapeIsOneLine(s[1..]);
      assert OneLine(EscapeChar(s[0])) by {
        forall c | c in EscapeChar(s[0]) ensures !IsControl(c) {}
      }
    }
  }

  lemma {:induction false} PrintNatIsOneLine(n: nat)
    ensures OneLine(PrintNat(n))
  {
    DigitRoundTrip(n % 10);
    if n >= 10 { PrintNatIsOneLine(n / 10); }
  }

  lemma FrameIsOneLine(n: nat)
    ensures OneLine(Frame(n))
  {
  }

  lemma OneLineJoin(a: string, b: string)
    requires OneLine(a) && OneLine(b)
    ensures OneLine(a + b)
  {
  }

  lemma HeadIsOneLine(e: Entry)
    ensures OneLine(Head(e))
  {
    hide OneLine, Frame, PrintNat;
    PrintNatIsOneLine(e.ts);
    FrameIsOneLine(0);
    FrameIsOneLine(1);
    OneLineJoin(Frame(0), PrintNat(e.ts));
    OneLineJoin(Frame(0) + PrintNat(e.ts), Frame(1));
  }

  lemma PartIsOneLine(n: nat, s: string)
    ensures OneLine(Part(n, s))
  {
    assert OneLine("\"");
    hide OneLine, Frame, Escape;
    EscapeIsOneLine(s);
    FrameIsOneLine(n + 1);
    OneLineJoin(Escape(s), "\"");
    OneLineJoin(Escape(s) + "\"", Frame(n + 1));
  }

  /** A prompt of many lines stays on one physical line. */
  lemma EncodeIsOneLine(e: Entry)
    ensures OneLine(Encode(e))
  {
    hide OneLine, Head, Part;
    var head, a, b, c, d := Head(e), Part(1, e.convId), Part(2, e.convTitle), Part(3, e.role), Part(4, e.text);
    HeadIsOneLine(e);
    PartIsOneLine(1, e.convId);
    PartIsOneLine(2, e.convTitle);
    PartIsOneLine(3, e.role);
    PartIsOneLine(4, e.text);
    OneLineJoin(head, a);
    OneLineJoin(head + a, b);
    OneLineJoin(head + a + b, c);
    OneLineJoin(head + a + b + c, d);
  }

  // ---------------------------------------------------------------------------
  // A record as JSON text

  /** The value of a run of decimal digits. */
  ghost function DecimalOf(digits: string): int {
    if digits == "" then 0
    else DecimalOf(digits[..|digits| - 1]) * 10 + (digits[|digits| - 1] as int - '0' as int)
  }

  predicate AllDigits(s: string) {
    forall i :: 0 <= i < |s| ==> '0' <= s[i] <= '9'
  }

  /** The number of a record is its decimal text, without a leading zero. */
  lemma {:induction false} PrintedDecimal(n: nat)
    ensures AllDigits(PrintNat(n)) && DecimalOf(PrintNat(n)) == n
    ensures PrintNat(n) != "" && (PrintNat(n)[0] == '0' ==> n == 0)
  {
    var last := [DigitChar(n % 10)];
    assert DecimalOf(last[..0]) == 0;
    if n >= 10 {
      PrintedDecimal(n / 10);
      assert (PrintNat(n / 10) + last)[..|PrintNat(n / 10)|] == PrintNat(n / 10);
    }
  }

  lemma ShortEscapeIsJson(letter: char, rest: string)
    requires Unescape(letter).Some?
    ensures JsonString(['\\', letter] + rest) == Prepend(Unescape(letter).value, JsonString(rest))
  {
    hide UnicodeEscape, CodeUnit, HexValue, IsControl;
    assert letter != 'u' by { assert Unescape('u') == None; }
    var raw := ['\\', letter] + rest;
    assert raw[0] == '\\' && raw[1] == letter && raw[2..] == rest;
  }

  lemma UnicodeEscapeIsJson(hi: nat, lo: nat, rest: string)
    requires hi < 2 && lo < 16
    ensures JsonString("\\u00" + [HexChar(hi), HexChar(lo)] + rest) == Prepend((hi * 16 + lo) as char, JsonString(rest))
  {
    HexRoundTrip(hi);
    HexRoundTrip(lo);
    var raw := "\\u00" + [HexChar(hi), HexChar(lo)] + rest;
    var code := raw[2..];
    assert code[0] == '0' && code[1] == '0' && code[2] == HexChar(hi) && code[3] == HexChar(lo);
    assert HexValue('0') == Some(0);
    hide HexValue, HexChar;
    assert CodeUnit(code) == Some(hi * 16 + lo);
    assert UnicodeEscape(code) == Some(((hi * 16 + lo) as char, 4));
    assert raw[6..] == rest;
  }

  lemma PlainIsJson(c: char, rest: string)
    requires c != '"' && c != '\\' && !IsControl(c)
    ensures JsonString([c] + rest) == Prepend(c, JsonString(rest))
  {
    assert ([c] + rest)[1..] == rest;
  }

  lemma EscapedCharIsJson(c: char, rest: string)
    ensures JsonString(EscapeChar(c) + rest) == Prepend(c, JsonString(rest))
  {
    EscapeShapes(c);
    if HasShortEscape(c) {
      ShortEscapeIsJson(EscapeChar(c)[1], rest);
    } else if IsControl(c) {
      UnicodeEscapeIsJson(c as int / 16, c as int % 16, rest);
    } else {
      PlainIsJson(c, rest);
    }
  }

  /** What is written between two quotes is, read as JSON, the string itself. */
  lemma {:induction false} EscapeIsJson(s: string)
    ensures JsonString(Escape(s)) == Some(s)
  {
    hide EscapeChar;
    if s != "" {
      EscapeIsJson(s[1..]);
      EscapedCharIsJson(s[0], Escape(s[1..]));
      assert [s[0]] + s[1..] == s;
    }
  }

  /** A record is the JSON object of its five fields, in this order and under these names, on one
      line: the number in decimal, the strings as JSON strings. */
  lemma RecordIsJson(e: Entry)
    ensures Encode(e) == "{\"ts\":" + PrintNat(e.ts) + ",\"conv_id\":\"" + Escape(e.convId)
                         + "\",\"conv_title\":\"" + Escape(e.convTitle) + "\",\"role\":\"" + Escape(e.role)
                         + "\",\"text\":\"" + Escape(e.text) + "\"}"
    ensures AllDigits(PrintNat(e.ts)) && DecimalOf(PrintNat(e.ts)) == e.ts
    ensures PrintNat(e.ts) != "" && (PrintNat(e.ts)[0] == '0' ==> e.ts == 0)
    ensures JsonString(Escape(e.convId)) == Some(e.convId) && JsonString(Escape(e.convTitle)) == Some(e.convTitle)
    ensures JsonString(Escape(e.role)) == Some(e.role) && JsonString(Escape(e.text)) == Some(e.text)
  {
    var ts, conv, title, role, text :=
      PrintNat(e.ts), Escape(e.convId), Escape(e.convTitle), Escape(e.role), Escape(e.text);
    PrintedDecimal(e.ts);
    EscapeIsJson(e.convId);
    EscapeIsJson(e.convTitle);
    EscapeIsJson(e.role);
    EscapeIsJson(e.text);
    hide *;
    RecordFrames();
    FramedPart(1, e.convId);
    FramedPart(2, e.convTitle);
    FramedPart(3, e.role);
    FramedPart(4, e.text);
    RecordParts(e);
    Regroup(Frame(0) + ts + Frame(1) + conv, title, "\",\"conv_title\":\"");
    Regroup(Frame(0) + ts + Frame(1) + conv + "\",\"conv_title\":\"" + title, role, "\",\"role\":\"");
    Regroup(Frame(0) + ts + Frame(1) + conv + "\",\"conv_title\":\"" + title + "\",\"role\":\"" + role, text, "\",\"text\":\"");
  }

  lemma Regroup(head: string, field: string, frame: string)
    ensures head + frame + field == head + (frame + field)
  {
  }

  lemma RecordFrames()
    ensures Frame(0) == "{\"ts\":" && Frame(1) == ",\"conv_id\":\""
    ensures "\"" + Frame(2) == "\",\"conv_title\":\"" && "\"" + Frame(3) == "\",\"role\":\""
    ensures "\"" + Frame(4) == "\",\"text\":\"" && "\"" + Frame(5) == "\"}"
  {
  }

  lemma FramedPart(n: nat, s: string)
    ensures Part(n, s) == Escape(s) + ("\"" + Frame(n + 1))
  {
    hide Escape, Frame;
  }

  lemma RecordParts(e: Entry)
    ensures Encode(e) == Frame(0) + PrintNat(e.ts) + Frame(1)
                         + Part(1, e.convId) + Part(2, e.convTitle) + Part(3, e.role) + Part(4, e.text)
  {
    hide Frame, Part, PrintNat;
  }
}
