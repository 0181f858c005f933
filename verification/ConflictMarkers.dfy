/** Git conflict markers and the regions they delimit. Models
    crates/gaviero-core/src/git_conflict.rs. */
module ConflictMarkers {
  import opened Text

  datatype Region = Region(start: nat, sep: nat, end: nat)

  datatype LineKind = Start | Ours | Sep | Theirs | End | Normal

  predicate IsStart(line: string) { "<<<<<<<" <= line }

  predicate IsSep(line: string) { "=======" <= line && !("========" <= line) }

  predicate IsEnd(line: string) { ">>>>>>>" <= line }

  predicate IsMarker(line: string) { IsStart(line) || IsSep(line) || IsEnd(line) }

  /** A line is at most one kind of marker. */
  lemma MarkersExclude(line: string)
    ensures !(IsStart(line) && IsSep(line)) && !(IsStart(line) && IsEnd(line)) && !(IsSep(line) && IsEnd(line))
  {
    if IsMarker(line) { assert line[0] == '<' || line[0] == '=' || line[0] == '>'; }
  }

  /** Seven characters of one kind begin a marker line; the separator has no eighth. */
  lemma MarkersInCharacters(line: string)
    ensures IsStart(line) <==> |line| >= 7 && forall i :: 0 <= i < 7 ==> line[i] == '<'
    ensures IsEnd(line) <==> |line| >= 7 && forall i :: 0 <= i < 7 ==> line[i] == '>'
    ensures IsSep(line) <==> |line| >= 7 && (forall i :: 0 <= i < 7 ==> line[i] == '=') && (|line| > 7 ==> line[7] != '=')
  {
    var start, end, sep, more := "<<<<<<<", ">>>>>>>", "=======", "========";
    assert forall i :: 0 <= i < 7 ==> start[i] == '<' && end[i] == '>' && sep[i] == '=';
    assert forall i :: 0 <= i < 8 ==> more[i] == '=';
    if |line| >= 7 {
      assert start <= line <==> line[..7] == start;
      assert end <= line <==> line[..7] == end;
      assert sep <= line <==> line[..7] == sep;
    }
    if |line| >= 8 { assert more <= line <==> line[..8] == more; }
  }

  /** The reference: the three markers in order, and no other marker between them. */
  ghost predicate IsRegion(lines: seq<string>, r: Region) {
    && r.start < r.sep < r.end < |lines|
    && IsStart(lines[r.start]) && IsSep(lines[r.sep]) && IsEnd(lines[r.end])
    && forall i :: r.start < i < r.end && i != r.sep ==> !IsMarker(lines[i])
  }

  ghost predicate InOrder(regions: seq<Region>) {
    forall i, j :: 0 <= i < j < |regions| ==> regions[i].end < regions[j].start
  }

  /** All regions that begin before line `i`. */
  ghost predicate Complete(lines: seq<string>, regions: seq<Region>, i: nat) {
    forall r :: IsRegion(lines, r) && r.start < i ==> r in regions
  }

  /** The next marker line at or after `from`, or the end. */
  method NextMarker(lines: seq<string>, from: nat) returns (i: nat)
    requires from <= |lines|
    ensures from <= i <= |lines|
    ensures forall k :: from <= k < i ==> !IsMarker(lines[k])
    ensures i < |lines| ==> IsMarker(lines[i])
  {
    i := from;
    while i < |lines|
      invariant from <= i <= |lines|
      invariant forall k :: from <= k < i ==> !IsMarker(lines[k])
    {
      if IsMarker(lines[i]) {
        return;
      }
      i := i + 1;
    }
  }

  /** Exactly the regions, in increasing order and pairwise disjoint; it ends although a
      malformed start resets the scan to the line after it. */
  method FindConflictRegions(content: string) returns (regions: seq<Region>)
    ensures forall r :: r in regions <==> IsRegion(Lines(content), r)
    ensures InOrder(regions)
  {
    hide *;
    var lines := Lines(content);
    regions := [];
    var i: nat := 0;
    FoundNothing(lines);
    while i < |lines|
      invariant i <= |lines|
      invariant Found(lines, regions, i)
      decreases |lines| - i
    {
      if !IsStart(lines[i]) {
        NoRegionHere(lines, i);
        SkipLine(lines, regions, i);
        i := i + 1;
        continue;
      }
      var start := i;
      var sep: int := -1;
      var end: int := -1;
      i := NextMarker(lines, i + 1);
      if i < |lines| && IsSep(lines[i]) {
        sep := i;
        i := i + 1;
      }
      if sep >= 0 {
        i := NextMarker(lines, i);
        if i < |lines| && IsEnd(lines[i]) {
          end := i;
          i := i + 1;
        }
        if end >= 0 {
          var r := Region(start, sep, end);
          RegionFound(lines, r);
          AddRegion(lines, regions, r);
          regions := regions + [r];
          continue;
        }
      }
      MalformedStart(lines, start, if sep >= 0 then sep else i, i, sep >= 0);
      SkipLine(lines, regions, start);
      i := start + 1;
    }
    FoundAll(lines, regions);
  }

  lemma FoundNothing(lines: seq<string>)
    ensures Found(lines, [], 0)
  {
  }

  lemma FoundAll(lines: seq<string>, regions: seq<Region>)
    requires Found(lines, regions, |lines|)
    ensures InOrder(regions) && forall r :: r in regions <==> IsRegion(lines, r)
  {
  }

  lemma NoRegionHere(lines: seq<string>, i: nat)
    requires i < |lines| && !IsStart(lines[i])
    ensures forall q :: IsRegion(lines, q) ==> q.start != i
  {
  }

  lemma RegionFound(lines: seq<string>, r: Region)
    requires r.start < r.sep < r.end < |lines|
    requires IsStart(lines[r.start]) && IsSep(lines[r.sep]) && IsEnd(lines[r.end])
    requires forall k :: r.start < k < r.sep || r.sep < k < r.end ==> !IsMarker(lines[k])
    ensures IsRegion(lines, r)
  {
    hide IsMarker, IsStart, IsSep, IsEnd;
  }

  /** The regions found so far: sound, in order, before line `i`, and complete up to it. */
  ghost predicate Found(lines: seq<string>, regions: seq<Region>, i: nat) {
    && (forall r :: r in regions ==> IsRegion(lines, r) && r.end < i)
    && InOrder(regions)
    && Complete(lines, regions, i)
  }

  lemma SkipLine(lines: seq<string>, regions: seq<Region>, i: nat)
    requires Found(lines, regions, i)
    requires forall q :: IsRegion(lines, q) ==> q.start != i
    ensures Found(lines, regions, i + 1)
  {
  }

  lemma AddRegion(lines: seq<string>, regions: seq<Region>, r: Region)
    requires Found(lines, regions, r.start) && IsRegion(lines, r)
    ensures Found(lines, regions + [r], r.end + 1)
  {
    SameStart(lines, r);
    NoStartWithin(lines, r);
    forall q | IsRegion(lines, q) && q.start < r.end + 1 ensures q in regions + [r] {
      if q.start < r.start { assert q in regions; }
    }
  }

  /** A start line begins at most one region. */
  lemma SameStart(lines: seq<string>, r: Region)
    requires IsRegion(lines, r)
    ensures forall q :: IsRegion(lines, q) && q.start == r.start ==> q == r
  {
    forall q | IsRegion(lines, q) && q.start == r.start ensures q == r {
      MarkersExclude(lines[r.sep]);
      MarkersExclude(lines[q.sep]);
      MarkersExclude(lines[r.end]);
      MarkersExclude(lines[q.end]);
    }
  }

  lemma NoStartWithin(lines: seq<string>, r: Region)
    requires IsRegion(lines, r)
    ensures forall q :: IsRegion(lines, q) && r.start < q.start ==> r.end < q.start
  {
    forall q | IsRegion(lines, q) && r.start < q.start ensures r.end < q.start {
      MarkersExclude(lines[q.start]);
    }
  }

  /** Where the scan gives up, no region begins at `start`. */
  lemma MalformedStart(lines: seq<string>, start: nat, mid: nat, stop: nat, sawSep: bool)
    requires start < mid <= stop <= |lines| && IsStart(lines[start])
    requires forall k :: start < k < mid ==> !IsMarker(lines[k])
    requires sawSep ==> mid < stop && IsSep(lines[mid]) && (forall k :: mid < k < stop ==> !IsMarker(lines[k]))
                        && (stop < |lines| ==> IsMarker(lines[stop]) && !IsEnd(lines[stop]))
    requires !sawSep ==> mid == stop && (stop < |lines| ==> IsMarker(lines[stop]) && !IsSep(lines[stop]))
    ensures forall q :: IsRegion(lines, q) ==> q.start != start
  {
    forall q | IsRegion(lines, q) ensures q.start != start {
      MarkersExclude(lines[q.sep]);
      MarkersExclude(lines[q.end]);
      if mid < |lines| { MarkersExclude(lines[mid]); }
      if stop < |lines| { MarkersExclude(lines[stop]); }
    }
  }

  // ---------------------------------------------------------------------------
  // Annotation

  /** The kind a region gives to a line, if it covers the line. */
  function KindIn(r: Region, i: nat): LineKind {
    if i == r.start then Start
    else if i == r.sep then Sep
    else if i == r.end then End
    else if r.start < i < r.sep then Ours
    else if r.sep < i < r.end then Theirs
    else Normal
  }

  predicate Covers(r: Region, i: nat) {
    r.start <= i <= r.end
  }

  function KindByMarker(line: string): LineKind {
    if IsStart(line) then Start else if IsSep(line) then Sep else if IsEnd(line) then End else Normal
  }

  /** None of the first `k` regions gives the line a kind. */
  predicate NoKindBefore(regions: seq<Region>, i: nat, k: nat)
    requires k <= |regions|
  {
    forall m :: 0 <= m < k ==> KindIn(regions[m], i) == Normal
  }

  /** For any list of regions: the first one that gives the line a kind decides, else the line's
      own marker does. */
  method ClassifyConflictLine(line: string, i: nat, regions: seq<Region>) returns (kind: LineKind)
    ensures forall k :: 0 <= k < |regions| && NoKindBefore(regions, i, k) && KindIn(regions[k], i) != Normal ==>
              kind == KindIn(regions[k], i)
    ensures NoKindBefore(regions, i, |regions|) ==> kind == KindByMarker(line)
  {
    hide IsStart, IsSep, IsEnd;
    for k := 0 to |regions|
      invariant NoKindBefore(regions, i, k)
    {
      var r := regions[k];
      assert forall m :: k < m <= |regions| && NoKindBefore(regions, i, m) ==> KindIn(r, i) == Normal;
      if i == r.start {
        return Start;
      }
      if i == r.sep {
        return Sep;
      }
      if i == r.end {
        return End;
      }
      if r.start < i < r.sep {
        return Ours;
      }
      if r.sep < i < r.end {
        return Theirs;
      }
    }
    if IsStart(line) {
      return Start;
    }
    if IsSep(line) {
      return Sep;
    }
    if IsEnd(line) {
      return End;
    }
    return Normal;
  }

  /** What the annotation of a line must be, from the regions of the text alone. */
  ghost predicate Annotates(lines: seq<string>, i: nat, kind: LineKind)
    requires i < |lines|
  {
    && (kind == Ours <==> exists r :: IsRegion(lines, r) && r.start < i < r.sep)
    && (kind == Theirs <==> exists r :: IsRegion(lines, r) && r.sep < i < r.end)
    && (kind == Start <==> IsStart(lines[i]))
    && (kind == Sep <==> IsSep(lines[i]))
    && (kind == End <==> IsEnd(lines[i]))
  }

  /** Ordered regions give a line at most one kind. */
  lemma OneKind(lines: seq<string>, regions: seq<Region>, i: nat, k: nat)
    requires InOrder(regions) && (forall r :: r in regions ==> IsRegion(lines, r))
    requires k < |regions| && Covers(regions[k], i)
    ensures NoKindBefore(regions, i, k) && KindIn(regions[k], i) != Normal
    ensures forall r :: r in regions && Covers(r, i) ==> r == regions[k]
  {
    hide IsMarker, IsStart, IsSep, IsEnd;
    assert regions[k] in regions;
    forall m | 0 <= m < k ensures KindIn(regions[m], i) == Normal { assert regions[m] in regions; }
    forall r | r in regions && Covers(r, i) ensures r == regions[k] {
      var m :| 0 <= m < |regions| && regions[m] == r;
      assert !(m < k) && !(k < m);
    }
  }

  lemma NoKind(lines: seq<string>, regions: seq<Region>, i: nat)
    requires (forall r :: r in regions ==> IsRegion(lines, r)) && forall r :: r in regions ==> !Covers(r, i)
    ensures NoKindBefore(regions, i, |regions|)
  {
    hide IsMarker, IsStart, IsSep, IsEnd;
    forall m | 0 <= m < |regions| ensures KindIn(regions[m], i) == Normal { assert regions[m] in regions; }
  }

  lemma AnnotationOf(lines: seq<string>, regions: seq<Region>, i: nat, kind: LineKind)
    requires i < |lines| && InOrder(regions) && forall r :: r in regions <==> IsRegion(lines, r)
    requires forall k :: 0 <= k < |regions| && NoKindBefore(regions, i, k) && KindIn(regions[k], i) != Normal ==>
               kind == KindIn(regions[k], i)
    requires NoKindBefore(regions, i, |regions|) ==> kind == KindByMarker(lines[i])
    ensures Annotates(lines, i, kind)
  {
    MarkersExclude(lines[i]);
    if k :| 0 <= k < |regions| && Covers(regions[k], i) {
      OneKind(lines, regions, i, k);
      assert regions[k] in regions && IsRegion(lines, regions[k]);
      AnnotationInRegion(lines, regions[k], i, kind);
    } else {
      forall r | r in regions ensures !Covers(r, i) {
        var m :| 0 <= m < |regions| && regions[m] == r;
      }
      NoKind(lines, regions, i);
    }
  }

  lemma AnnotationInRegion(lines: seq<string>, r: Region, i: nat, kind: LineKind)
    requires i < |lines| && IsRegion(lines, r) && Covers(r, i) && kind == KindIn(r, i)
    requires forall q :: IsRegion(lines, q) && Covers(q, i) ==> q == r
    ensures Annotates(lines, i, kind)
  {
    MarkersExclude(lines[i]);
    hide IsStart, IsSep, IsEnd;
    if r.start < i < r.end && i != r.sep { assert !IsMarker(lines[i]); }
  }

  /** Every line with its kind: a line is ours or theirs exactly when it lies in that half of a
      region, marker lines keep their kind, and dropping the kinds gives back the lines. */
  method BuildConflictAnnotatedLines(content: string) returns (out: seq<(LineKind, string)>)
    ensures |out| == |Lines(content)|
    ensures forall i :: 0 <= i < |out| ==> out[i].1 == Lines(content)[i] && Annotates(Lines(content), i, out[i].0)
  {
    hide Lines, IsRegion, InOrder, Annotates, KindIn, NoKindBefore, KindByMarker;
    var regions := FindConflictRegions(content);
    var lines := Lines(content);
    out := [];
    for i := 0 to |lines|
      invariant |out| == i
      invariant forall k :: 0 <= k < i ==> out[k].1 == lines[k] && Annotates(lines, k, out[k].0)
    {
      var kind := ClassifyConflictLine(lines[i], i, regions);
      AnnotationOf(lines, regions, i, kind);
      out := out + [(kind, lines[i])];
    }
  }
}
