/** The string operations of Rust's standard library that the modelled code relies on:
    `trim`, `strip_prefix`, `starts_with`, `split_inclusive('\n')` and `lines`. */
module Text {

  /** Unicode White_Space, the class that `char::is_whitespace` and `str::trim` use. */
  predicate IsWhitespace(c: char) {
    || '\U{0009}' <= c <= '\U{000D}'
    || c == ' ' || c == '\U{0085}' || c == '\U{00A0}' || c == '\U{1680}'
    || '\U{2000}' <= c <= '\U{200A}'
    || c == '\U{2028}' || c == '\U{2029}' || c == '\U{202F}' || c == '\U{205F}' || c == '\U{3000}'
  }

  function TrimStart(s: string): string {
    if s != "" && IsWhitespace(s[0]) then TrimStart(s[1..]) else s
  }

  function TrimEnd(s: string): string {
    if s != "" && IsWhitespace(s[|s| - 1]) then TrimEnd(s[..|s| - 1]) else s
  }

  function Trim(s: string): string {
    TrimEnd(TrimStart(s))
  }

  predicate IsBlank(s: string) {
    forall c :: c in s ==> IsWhitespace(c)
  }

  lemma {:induction false} TrimEndOfBlank(s: string)
    ensures TrimEnd(s) == "" <==> IsBlank(s)
  {
    if s != "" {
      TrimEndOfBlank(s[..|s| - 1]);
      assert s == s[..|s| - 1] + [s[|s| - 1]];
    }
  }

  /** Trimming leaves nothing exactly of blank text. */
  lemma {:induction false} TrimOfBlank(s: string)
    ensures Trim(s) == "" <==> IsBlank(s)
  {
    if s != "" && IsWhitespace(s[0]) {
      TrimOfBlank(s[1..]);
      assert s == [s[0]] + s[1..];
    } else {
      TrimEndOfBlank(s);
    }
  }

  /** No white space at either end. */
  predicate IsTrimmed(s: string) {
    s != "" ==> !IsWhitespace(s[0]) && !IsWhitespace(s[|s| - 1])
  }

  lemma {:induction false} TrimStartOfPadded(before: string, s: string)
    requires IsBlank(before)
    ensures TrimStart(before + s) == TrimStart(s)
  {
    if before == "" {
      assert before + s == s;
    } else {
      assert before[0] in before && (before + s)[1..] == before[1..] + s;
      TrimStartOfPadded(before[1..], s);
    }
  }

  lemma {:induction false} TrimEndOfPadded(s: string, after: string)
    requires IsBlank(after)
    ensures TrimEnd(s + after) == TrimEnd(s)
  {
    if after == "" {
      assert s + after == s;
    } else {
      var init := after[..|after| - 1];
      assert after[|after| - 1] in after && (s + after)[..|s + after| - 1] == s + init;
      TrimEndOfPadded(s, init);
    }
  }

  /** Trimming takes the white space at both ends and nothing else. */
  lemma TrimOfPadded(before: string, s: string, after: string)
    requires IsBlank(before) && IsBlank(after) && IsTrimmed(s)
    ensures Trim(before + s + after) == s
  {
    if s == "" {
      TrimOfBlank(before + s + after);
    } else {
      assert before + s + after == before + (s + after);
      TrimStartOfPadded(before, s + after);
      assert (s + after)[0] == s[0];
      TrimEndOfPadded(s, after);
    }
  }

  predicate EndsWithNewline(s: string) {
    s != "" && s[|s| - 1] == '\n'
  }

  /** The length of the first line of `s`, its terminator included. */
  function FirstLineLength(s: string): (n: nat)
    ensures n <= |s|
    ensures s != "" ==> n > 0
    ensures forall i :: 0 <= i < n - 1 ==> s[i] != '\n'
    ensures n < |s| ==> n > 0 && s[n - 1] == '\n'
  {
    if s == "" then 0
    else if s[0] == '\n' then 1
    else 1 + FirstLineLength(s[1..])
  }

  /** `split_inclusive('\n')`. */
  function Pieces(s: string): seq<string> {
    if s == "" then []
    else
      var n := FirstLineLength(s);
      [s[..n]] + Pieces(s[n..])
  }

  /** A line without its terminator; a carriage return goes only with a line feed. */
  function StripEol(piece: string): string {
    if !EndsWithNewline(piece) then piece
    else
      var body := piece[..|piece| - 1];
      if body != "" && body[|body| - 1] == '\r' then body[..|body| - 1] else body
  }

  function StripAll(pieces: seq<string>): (lines: seq<string>)
    ensures |lines| == |pieces|
    ensures forall i :: 0 <= i < |lines| ==> lines[i] == StripEol(pieces[i])
  {
    seq(|pieces|, i requires 0 <= i < |pieces| => StripEol(pieces[i]))
  }

  /** `str::lines`. */
  function Lines(s: string): seq<string> {
    StripAll(Pieces(s))
  }

  function Concat(parts: seq<string>): string {
    if parts == [] then "" else parts[0] + Concat(parts[1..])
  }

  /** Each line with its terminator. */
  function Ended(lines: seq<string>): (pieces: seq<string>)
    ensures |pieces| == |lines|
    ensures forall i :: 0 <= i < |pieces| ==> pieces[i] == lines[i] + "\n"
  {
    seq(|lines|, i requires 0 <= i < |lines| => lines[i] + "\n")
  }

  predicate IsPiece(piece: string) {
    piece != "" && forall j :: 0 <= j < |piece| - 1 ==> piece[j] != '\n'
  }

  /** What `split_inclusive` can return: no empty piece, a line feed only at the end of
      a piece, and at the end of every piece but possibly the last. */
  predicate IsPieceList(parts: seq<string>) {
    forall i :: 0 <= i < |parts| ==> IsPiece(parts[i]) && (i < |parts| - 1 ==> EndsWithNewline(parts[i]))
  }

  lemma ConcatNil()
    ensures Concat([]) == ""
  {
  }

  lemma ConcatCons(x: string, rest: seq<string>)
    ensures Concat([x] + rest) == x + Concat(rest)
  {
    assert ([x] + rest)[1..] == rest;
  }

  lemma {:induction false} ConcatAppend(a: seq<string>, b: seq<string>)
    ensures Concat(a + b) == Concat(a) + Concat(b)
  {
    ConcatNil();
    hide Concat;
    if a == [] {
      assert a + b == b;
    } else {
      ConcatAppend(a[1..], b);
      ConcatCons(a[0], a[1..]);
      ConcatCons(a[0], a[1..] + b);
      assert a == [a[0]] + a[1..] && a + b == [a[0]] + (a[1..] + b);
    }
  }

  lemma ConcatOne(x: string)
    ensures Concat([x]) == x
  {
    assert Concat([x]) == x + Concat([x][1..]);
  }

  lemma PieceListCons(first: string, rest: seq<string>)
    requires IsPiece(first) && IsPieceList(rest) && (rest != [] ==> EndsWithNewline(first))
    ensures IsPieceList([first] + rest)
  {
    var parts := [first] + rest;
    forall i | 0 <= i < |parts| ensures IsPiece(parts[i]) && (i < |parts| - 1 ==> EndsWithNewline(parts[i])) {
      if i > 0 { assert parts[i] == rest[i - 1]; }
    }
  }

  lemma FirstLineIsPiece(s: string)
    requires s != ""
    ensures IsPiece(s[..FirstLineLength(s)])
    ensures s[FirstLineLength(s)..] != "" ==> EndsWithNewline(s[..FirstLineLength(s)])
    ensures Pieces(s) == [s[..FirstLineLength(s)]] + Pieces(s[FirstLineLength(s)..])
    ensures s == s[..FirstLineLength(s)] + s[FirstLineLength(s)..]
  {
    hide FirstLineLength;
  }

  /** Splitting loses nothing and yields well-formed pieces. */
  lemma {:induction false} PiecesPartition(s: string)
    ensures IsPieceList(Pieces(s))
    ensures Concat(Pieces(s)) == s
  {
    if s != "" {
      var n := FirstLineLength(s);
      FirstLineIsPiece(s);
      hide Pieces, Concat, FirstLineLength, IsPieceList, IsPiece;
      PiecesPartition(s[n..]);
      if s[n..] == "" { PiecesOfNothing(); }
      PieceListCons(s[..n], Pieces(s[n..]));
      ConcatCons(s[..n], Pieces(s[n..]));
    }
  }

  lemma PiecesOfNothing()
    ensures Pieces("") == []
  {
  }

  /** A well-formed piece list is the split of its concatenation. */
  lemma {:induction false} PiecesOfConcat(parts: seq<string>)
    requires IsPieceList(parts)
    ensures Pieces(Concat(parts)) == parts
  {
    if parts != [] {
      var rest := parts[1..];
      assert IsPieceList(rest) by {
        forall i | 0 <= i < |rest| ensures rest[i] == parts[i + 1] {}
      }
      PiecesOfConcat(rest);
      var s := Concat(parts);
      var n := FirstLineLength(s);
      assert s[..|parts[0]|] == parts[0];
      assert s[|parts[0]|..] == Concat(rest);
      if rest == [] {
        assert s == parts[0];
      } else {
        assert s[|parts[0]| - 1] == '\n';
      }
      assert forall i :: 0 <= i < |parts[0]| ==> s[i] == parts[0][i];
      assert n == |parts[0]|;
    }
  }

  lemma EndOfConcat(parts: seq<string>)
    requires parts != [] && parts[|parts| - 1] != ""
    ensures Concat(parts) != ""
    ensures EndsWithNewline(Concat(parts)) <==> EndsWithNewline(parts[|parts| - 1])
  {
    var last := parts[|parts| - 1];
    ConcatAppend(parts[..|parts| - 1], [last]);
    ConcatOne(last);
    assert parts == parts[..|parts| - 1] + [last];
  }

  lemma EndedSnoc(lines: seq<string>, line: string)
    ensures Concat(Ended(lines + [line])) == Concat(Ended(lines)) + line + "\n"
  {
    assert Ended(lines + [line]) == Ended(lines) + [line + "\n"];
    ConcatAppend(Ended(lines), [line + "\n"]);
    ConcatOne(line + "\n");
  }
}
