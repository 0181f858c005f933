/** Dotted-key lookup and update over JSON documents, and the cascade of settings layers.
    Models crates/gaviero-core/src/workspace.rs; the table of built-in defaults is a parameter. */
module Settings {
  import opened Json
  import opened Selection
  import AppendSetting

  // ---------------------------------------------------------------------------
  // Dotted keys

  /** The position of the first dot, or the length of the key. */
  function FirstDot(key: string): (d: nat)
    ensures d <= |key|
    ensures d < |key| ==> key[d] == '.'
    ensures forall i :: 0 <= i < d ==> key[i] != '.'
  {
    if key == "" || key[0] == '.' then 0 else 1 + FirstDot(key[1..])
  }

  predicate HasDot(key: string) {
    FirstDot(key) < |key|
  }

  function Head(key: string): string {
    key[..FirstDot(key)]
  }

  function Tail(key: string): string
    requires HasDot(key)
  {
    key[FirstDot(key) + 1..]
  }

  function Member(doc: Value, key: string): Option<Value> {
    if doc.Object? && key in doc.members then Some(doc.members[key]) else None
  }

  /** An exact flat key wins; otherwise descend one segment. */
  function DotGet(doc: Value, key: string): Option<Value>
    decreases |key|
  {
    if Member(doc, key).Some? then Member(doc, key)
    else if HasDot(key) && Member(doc, Head(key)).Some? then DotGet(Member(doc, Head(key)).value, Tail(key))
    else None
  }

  function DotSet(doc: Value, key: string, value: Value): Value
    decreases |key|
  {
    var m := if doc.Object? then doc.members else map[];
    if !HasDot(key) then Object(m[key := value])
    else
      var child := if Head(key) in m then m[Head(key)] else Object(map[]);
      Object(m[Head(key) := DotSet(child, Tail(key), value)])
  }

  /** The value of the first object on the path of `key` that holds the whole rest of the key
      as one flattened member: the value that hides what `DotSet` writes. */
  function Shadow(doc: Value, key: string): Option<Value>
    decreases |key|
  {
    if !HasDot(key) then None
    else if Member(doc, key).Some? then Member(doc, key)
    else if Member(doc, Head(key)).Some? then Shadow(Member(doc, Head(key)).value, Tail(key))
    else None
  }

  lemma HeadIsNotKey(key: string)
    ensures HasDot(key) <==> Head(key) != key
  {
    if HasDot(key) { assert |Head(key)| < |key|; } else { assert Head(key) == key; }
  }

  lemma ShadowOfEmpty(doc: Value, key: string)
    requires !doc.Object? || doc.members == map[]
    ensures Shadow(doc, key) == None && DotGet(doc, key) == None
  {
  }

  /** The value that a write continues in. */
  function ChildOf(doc: Value, key: string): Value {
    if Member(doc, Head(key)).Some? then Member(doc, Head(key)).value else Object(map[])
  }

  lemma DotSetShape(doc: Value, key: string, value: Value)
    ensures var after := DotSet(doc, key, value);
            && (forall k :: k != Head(key) ==> Member(after, k) == Member(doc, k))
            && Member(after, Head(key)) == Some(if HasDot(key) then DotSet(ChildOf(doc, key), Tail(key), value) else value)
  {
    HeadIsNotKey(key);
    if HasDot(key) {
      assert DotSet(doc, key, value) ==
             Object((if doc.Object? then doc.members else map[])[Head(key) := DotSet(ChildOf(doc, key), Tail(key), value)]);
    }
  }

  lemma DotGetStep(doc: Value, key: string)
    ensures DotGet(doc, key) ==
            if Member(doc, key).Some? then Member(doc, key)
            else if HasDot(key) && Member(doc, Head(key)).Some? then DotGet(Member(doc, Head(key)).value, Tail(key))
            else None
  {
    hide Member, Head, HasDot, Tail;
  }

  lemma ShadowStep(doc: Value, key: string)
    ensures Shadow(doc, key) ==
            if !HasDot(key) then None
            else if Member(doc, key).Some? then Member(doc, key)
            else Shadow(ChildOf(doc, key), Tail(key))
  {
    if HasDot(key) { ShadowOfEmpty(Object(map[]), Tail(key)); }
  }

  lemma {:induction false} DotGetAfterDotSet(doc: Value, key: string, value: Value)
    ensures DotGet(DotSet(doc, key, value), key) ==
            if Shadow(doc, key).Some? then Shadow(doc, key) else Some(value)
    decreases |key|
  {
    hide DotSet, DotGet, Shadow, Member, ChildOf, FirstDot;
    HeadIsNotKey(key);
    DotSetShape(doc, key, value);
    DotGetStep(DotSet(doc, key, value), key);
    ShadowStep(doc, key);
    if HasDot(key) { DotGetAfterDotSet(ChildOf(doc, key), Tail(key), value); }
  }

  /** A written setting is read back for every value exactly when no object on its path holds
      the rest of the key as a flattened member. */
  lemma ReadsBackExactlyUnlessShadowed(doc: Value, key: string)
    ensures (forall value :: DotGet(DotSet(doc, key, value), key) == Some(value)) <==> Shadow(doc, key) == None
  {
    if Shadow(doc, key).Some? {
      var other := if Shadow(doc, key).value == Null then Bool(true) else Null;
      DotGetAfterDotSet(doc, key, other);
      assert DotGet(DotSet(doc, key, other), key) != Some(other);
    } else {
      forall value ensures DotGet(DotSet(doc, key, value), key) == Some(value) {
        DotGetAfterDotSet(doc, key, value);
      }
    }
  }

  /** One of the two segment lists is a prefix of the other. */
  predicate Comparable(a: string, b: string)
    decreases |a|
  {
    Head(a) == Head(b) && (HasDot(a) && HasDot(b) ==> Comparable(Tail(a), Tail(b)))
  }

  /** A write leaves every unrelated key alone, even where it replaces a scalar by an object. */
  lemma {:induction false} DotSetLeavesOthers(doc: Value, key: string, value: Value, other: string)
    requires !Comparable(key, other)
    ensures DotGet(DotSet(doc, key, value), other) == DotGet(doc, other)
    decreases |key|
  {
    hide DotSet, DotGet, Member, ChildOf, FirstDot;
    HeadIsNotKey(key);
    HeadIsNotKey(other);
    DotSetShape(doc, key, value);
    DotGetStep(DotSet(doc, key, value), other);
    DotGetStep(doc, other);
    assert other != Head(key);
    if Head(key) == Head(other) {
      DotSetLeavesOthers(ChildOf(doc, key), Tail(key), value, Tail(other));
      ChildIsNothing(doc, key, Tail(other));
    }
  }

  lemma ChildIsNothing(doc: Value, key: string, other: string)
    ensures Member(doc, Head(key)) == None ==> DotGet(ChildOf(doc, key), other) == None
    ensures Member(doc, Head(key)).Some? ==> ChildOf(doc, key) == Member(doc, Head(key)).value
  {
    ShadowOfEmpty(Object(map[]), other);
  }

  // ---------------------------------------------------------------------------
  // The cascade

  /** One layer applied to the value resolved from the broader ones. */
  function ApplyLayer(acc: Option<Value>, doc: Value, key: string, defaults: string -> Value): Option<Value> {
    var own := if DotGet(doc, key).Some? then DotGet(doc, key) else acc;
    match DotGet(doc, key + "+")
    case Some(addition) =>
      Some(AppendSetting.Append(if own.Some? then own.value else defaults(key), addition))
    case None => own
  }

  /** The full fold, broadest layer first. */
  function Cascade(layers: seq<Value>, key: string, defaults: string -> Value): Option<Value> {
    if layers == [] then None
    else ApplyLayer(Cascade(layers[..|layers| - 1], key, defaults), layers[|layers| - 1], key, defaults)
  }

  /** The most specific layer that sets `key`. */
  function LastSetting(layers: seq<Value>, key: string): Option<Value> {
    if layers == [] then None
    else if DotGet(layers[|layers| - 1], key).Some? then DotGet(layers[|layers| - 1], key)
    else LastSetting(layers[..|layers| - 1], key)
  }

  predicate SomeLayerAdds(layers: seq<Value>, key: string) {
    exists i :: 0 <= i < |layers| && DotGet(layers[i], key + "+").Some?
  }

  lemma {:induction false} CascadeWithoutAdditions(layers: seq<Value>, key: string, defaults: string -> Value)
    requires !SomeLayerAdds(layers, key)
    ensures Cascade(layers, key, defaults) == LastSetting(layers, key)
  {
    if layers != [] {
      var init := layers[..|layers| - 1];
      assert forall i :: 0 <= i < |init| ==> init[i] == layers[i];
      CascadeWithoutAdditions(init, key, defaults);
    }
  }

  lemma {:induction false} CascadeWithAdditions(layers: seq<Value>, key: string, defaults: string -> Value)
    requires SomeLayerAdds(layers, key)
    ensures Cascade(layers, key, defaults).Some?
  {
    var init := layers[..|layers| - 1];
    var i :| 0 <= i < |layers| && DotGet(layers[i], key + "+").Some?;
    if i < |layers| - 1 {
      assert DotGet(init[i], key + "+").Some?;
      CascadeWithAdditions(init, key, defaults);
    }
  }

  method FindLast(layers: seq<Value>, key: string) returns (r: Option<Value>)
    ensures r == LastSetting(layers, key)
  {
    var n := |layers|;
    assert layers[..n] == layers;
    while n > 0
      invariant 0 <= n <= |layers|
      invariant LastSetting(layers, key) == LastSetting(layers[..n], key)
    {
      assert layers[..n][..n - 1] == layers[..n - 1];
      if DotGet(layers[n - 1], key).Some? {
        return DotGet(layers[n - 1], key);
      }
      n := n - 1;
    }
    r := None;
  }

  /** With its fast path for a key no layer adds to, still the full fold. */
  method LayeredValue(layers: seq<Value>, key: string, defaults: string -> Value) returns (r: Option<Value>)
    ensures r == Cascade(layers, key, defaults)
  {
    if !SomeLayerAdds(layers, key) {
      CascadeWithoutAdditions(layers, key, defaults);
      r := FindLast(layers, key);
      return;
    }
    var acc: Option<Value> := None;
    for i := 0 to |layers|
      invariant acc == Cascade(layers[..i], key, defaults)
    {
      var doc := layers[i];
      assert layers[..i + 1][..i] == layers[..i];
      if DotGet(doc, key).Some? {
        acc := DotGet(doc, key);
      }
      var addition := DotGet(doc, key + "+");
      if addition.Some? {
        var base := if acc.Some? then acc.value else defaults(key);
        var sum := AppendSetting.AppendSetting(base, addition.value);
        acc := Some(sum);
      }
    }
    assert layers[..|layers|] == layers;
    r := acc;
  }

  // ---------------------------------------------------------------------------
  // Repeated and empty layers

  lemma ApplyLayerTwice(acc: Option<Value>, doc: Value, key: string, defaults: string -> Value)
    ensures ApplyLayer(ApplyLayer(acc, doc, key, defaults), doc, key, defaults) == ApplyLayer(acc, doc, key, defaults)
  {
    if DotGet(doc, key + "+").Some? {
      var own := if DotGet(doc, key).Some? then DotGet(doc, key) else acc;
      AppendSetting.AppendIsIdempotent(if own.Some? then own.value else defaults(key), DotGet(doc, key + "+").value);
    }
  }

  lemma CascadeSnoc(layers: seq<Value>, doc: Value, key: string, defaults: string -> Value)
    ensures Cascade(layers + [doc], key, defaults) == ApplyLayer(Cascade(layers, key, defaults), doc, key, defaults)
  {
    assert (layers + [doc])[..|layers|] == layers;
  }

  lemma {:induction false} CascadeSuffix(a: seq<Value>, b: seq<Value>, suffix: seq<Value>, key: string, defaults: string -> Value)
    requires Cascade(a, key, defaults) == Cascade(b, key, defaults)
    ensures Cascade(a + suffix, key, defaults) == Cascade(b + suffix, key, defaults)
  {
    hide Cascade, ApplyLayer;
    if suffix == [] {
      assert a + suffix == a && b + suffix == b;
    } else {
      var init, last := suffix[..|suffix| - 1], suffix[|suffix| - 1];
      CascadeSuffix(a, b, init, key, defaults);
      CascadeSnoc(a + init, last, key, defaults);
      CascadeSnoc(b + init, last, key, defaults);
      assert a + suffix == a + init + [last] && b + suffix == b + init + [last];
    }
  }

  /** Applying the same file twice in a row changes no lookup. */
  lemma RepeatedLayerIsHarmless(before: seq<Value>, doc: Value, after: seq<Value>, key: string, defaults: string -> Value)
    ensures Cascade(before + [doc, doc] + after, key, defaults) == Cascade(before + [doc] + after, key, defaults)
  {
    assert before + [doc, doc] == before + [doc] + [doc];
    CascadeSnoc(before, doc, key, defaults);
    CascadeSnoc(before + [doc], doc, key, defaults);
    ApplyLayerTwice(Cascade(before, key, defaults), doc, key, defaults);
    CascadeSuffix(before + [doc, doc], before + [doc], after, key, defaults);
  }

  lemma NullLayerIsNeutral(before: seq<Value>, after: seq<Value>, key: string, defaults: string -> Value)
    ensures Cascade(before + [Null] + after, key, defaults) == Cascade(before + after, key, defaults)
  {
    CascadeSnoc(before, Null, key, defaults);
    CascadeSuffix(before + [Null], before, after, key, defaults);
  }

  // ---------------------------------------------------------------------------
  // The precomputed index of `key+` additions

  function Join(prefix: string, key: string): string {
    if prefix == "" then key else prefix + "." + key
  }

  predicate EndsWithPlus(path: string) {
    path != "" && path[|path| - 1] == '+'
  }

  /** The dotted paths the walk records for the keys `doc` adds to. */
  function Recorded(doc: Value, prefix: string): set<string>
    decreases doc, 1
  {
    if !doc.Object? then {} else RecordedAmong(doc, doc.members.Keys, prefix)
  }

  function RecordedAmong(doc: Value, keys: set<string>, prefix: string): set<string>
    requires doc.Object?
    decreases doc, 0
  {
    set k, path | k in keys && k in doc.members && path in RecordedAt(doc.members[k], Join(prefix, k)) :: path
  }

  function RecordedAt(value: Value, path: string): set<string>
    decreases value, 2
  {
    if EndsWithPlus(path) then {path[..|path| - 1]} else Recorded(value, path)
  }

  lemma RecordsAddition(doc: Value, prefix: string, key: string)
    requires doc.Object? && key + "+" in doc.members
    ensures Join(prefix, key) in Recorded(doc, prefix)
  {
    var path := Join(prefix, key + "+");
    assert path == Join(prefix, key) + "+";
    assert path[..|path| - 1] == Join(prefix, key);
    assert Join(prefix, key) in RecordedAt(doc.members[key + "+"], path);
  }

  lemma RecordsThroughMember(doc: Value, prefix: string, k: string, path: string)
    requires doc.Object? && k in doc.members && !EndsWithPlus(Join(prefix, k))
    requires path in Recorded(doc.members[k], Join(prefix, k))
    ensures path in Recorded(doc, prefix)
  {
    assert path in RecordedAt(doc.members[k], Join(prefix, k));
  }

  function Elements<T>(s: seq<T>): set<T> {
    set x | x in s
  }

  predicate NoDuplicates<T(==)>(s: seq<T>) {
    forall i, j :: 0 <= i < j < |s| ==> s[i] != s[j]
  }

  lemma RecordedOneMore(doc: Value, keys: set<string>, k: string, prefix: string)
    requires doc.Object? && k in doc.members
    ensures RecordedAmong(doc, keys + {k}, prefix) ==
            RecordedAmong(doc, keys, prefix) + RecordedAt(doc.members[k], Join(prefix, k))
  {
  }

  lemma RecordsNothing(doc: Value, prefix: string, out: seq<string>)
    requires !doc.Object?
    ensures Elements(out) == Elements(out) + Recorded(doc, prefix)
  {
  }

  lemma NoneRecorded(doc: Value, prefix: string, out: seq<string>)
    requires doc.Object?
    ensures Elements(out) == Elements(out) + RecordedAmong(doc, {}, prefix)
  {
  }

  lemma RecordedAtUnfolds(value: Value, path: string)
    ensures RecordedAt(value, path) == if EndsWithPlus(path) then {path[..|path| - 1]} else Recorded(value, path)
  {
  }

  lemma ElementsOneMore(r: seq<string>, key: string)
    requires NoDuplicates(r)
    ensures key in r ==> Elements(r) == Elements(r) + {key}
    ensures key !in r ==> Elements(r + [key]) == Elements(r) + {key} && NoDuplicates(r + [key])
  {
  }

  lemma UnionStep(a: set<string>, b: set<string>, c: set<string>)
    ensures a + b + c == a + (b + c)
  {
  }

  method AppendedKeys(doc: Value, prefix: string, out: seq<string>) returns (r: seq<string>)
    requires NoDuplicates(out)
    ensures NoDuplicates(r)
    ensures Elements(r) == Elements(out) + Recorded(doc, prefix)
    decreases doc
  {
    hide RecordedAmong, RecordedAt, Elements, NoDuplicates, Join;
    r := out;
    if !doc.Object? {
      RecordsNothing(doc, prefix, out);
      return;
    }
    var todo := doc.members.Keys;
    ghost var nothing := doc.members.Keys - todo;
    assert nothing == {};
    NoneRecorded(doc, prefix, out);
    while todo != {}
      invariant todo <= doc.members.Keys
      invariant NoDuplicates(r)
      invariant Elements(r) == Elements(out) + RecordedAmong(doc, doc.members.Keys - todo, prefix)
      decreases |todo|
    {
      var k :| k in todo;
      ghost var before := r;
      var path := Join(prefix, k);
      RecordedAtUnfolds(doc.members[k], path);
      if EndsWithPlus(path) {
        ElementsOneMore(r, path[..|path| - 1]);
        if path[..|path| - 1] !in r {
          r := r + [path[..|path| - 1]];
        }
      } else {
        r := AppendedKeys(doc.members[k], path, r);
      }
      RecordedOneMore(doc, doc.members.Keys - todo, k, prefix);
      assert doc.members.Keys - (todo - {k}) == doc.members.Keys - todo + {k};
      UnionStep(Elements(out), RecordedAmong(doc, doc.members.Keys - todo, prefix), RecordedAt(doc.members[k], path));
      todo := todo - {k};
    }
    assert doc.members.Keys - todo == doc.members.Keys;
  }

  function AllRecorded(layers: seq<Value>): set<string> {
    set i, path | 0 <= i < |layers| && path in Recorded(layers[i], "") :: path
  }

  lemma NothingRecorded(layers: seq<Value>)
    ensures AllRecorded(layers[..0]) == Elements([])
  {
  }

  lemma AllRecordedSnoc(layers: seq<Value>, n: nat)
    requires n < |layers|
    ensures AllRecorded(layers[..n + 1]) == AllRecorded(layers[..n]) + Recorded(layers[n], "")
  {
    var longer, shorter := layers[..n + 1], layers[..n];
    forall path | path in AllRecorded(longer) ensures path in AllRecorded(shorter) + Recorded(layers[n], "") {
      var i :| 0 <= i < |longer| && path in Recorded(longer[i], "");
      if i < n { assert path in Recorded(shorter[i], ""); }
    }
    forall path | path in AllRecorded(shorter) ensures path in AllRecorded(longer) {
      var i :| 0 <= i < |shorter| && path in Recorded(shorter[i], "");
      assert path in Recorded(longer[i], "");
    }
    forall path | path in Recorded(layers[n], "") ensures path in AllRecorded(longer) {
      assert path in Recorded(longer[n], "");
    }
  }

  /** The index: the recorded keys that resolve, with what the cascade gives for them. */
  function AppendedIndex(layers: seq<Value>, defaults: string -> Value): map<string, Value> {
    map k | k in AllRecorded(layers) && Cascade(layers, k, defaults).Some? :: Cascade(layers, k, defaults).value
  }

  /** What reading `<base>/.gaviero/settings.json` yields. */
  datatype File = Missing | Unparseable | Parsed(doc: Value)

  datatype Layer = Layer(base: string, doc: Value)

  function DocsOf(layers: seq<Layer>): (docs: seq<Value>)
    ensures |docs| == |layers|
    ensures forall i :: 0 <= i < |docs| ==> docs[i] == layers[i].doc
  {
    seq(|layers|, i requires 0 <= i < |layers| => layers[i].doc)
  }

  datatype LayeredSettings = LayeredSettings(layers: seq<Layer>, broken: seq<string>, appended: map<string, Value>) {
    function Docs(): seq<Value> { DocsOf(layers) }

    function Get(key: string): Option<Value> {
      if key in appended then Some(appended[key]) else LastSetting(Docs(), key)
    }
  }

  function ParsedLayers(bases: seq<string>, read: string -> File): seq<Layer> {
    if bases == [] then []
    else
      var init := ParsedLayers(bases[..|bases| - 1], read);
      var last := bases[|bases| - 1];
      if read(last).Parsed? then init + [Layer(last, read(last).doc)] else init
  }

  function BrokenBases(bases: seq<string>, read: string -> File): seq<string> {
    if bases == [] then []
    else
      var init := BrokenBases(bases[..|bases| - 1], read);
      if read(bases[|bases| - 1]).Unparseable? then init + [bases[|bases| - 1]] else init
  }

  function Loaded(bases: seq<string>, read: string -> File, defaults: string -> Value): LayeredSettings {
    var layers := ParsedLayers(bases, read);
    var docs := DocsOf(layers);
    LayeredSettings(layers, BrokenBases(bases, read), AppendedIndex(docs, defaults))
  }

  lemma NoBases(bases: seq<string>, read: string -> File)
    ensures ParsedLayers(bases[..0], read) == [] && BrokenBases(bases[..0], read) == []
  {
  }

  lemma OneMoreBase(bases: seq<string>, i: nat, read: string -> File)
    requires i < |bases|
    ensures ParsedLayers(bases[..i + 1], read) ==
            ParsedLayers(bases[..i], read) + if read(bases[i]).Parsed? then [Layer(bases[i], read(bases[i]).doc)] else []
    ensures BrokenBases(bases[..i + 1], read) ==
            BrokenBases(bases[..i], read) + if read(bases[i]).Unparseable? then [bases[i]] else []
  {
    assert bases[..i + 1][..i] == bases[..i];
  }

  lemma NoKeys()
    ensures NoDuplicates<string>([])
  {
  }

  lemma IndexIsComplete(docs: seq<Value>, keys: seq<string>, appended: map<string, Value>, defaults: string -> Value)
    requires Elements(keys) == AllRecorded(docs)
    requires forall k :: k in appended <==> k in keys && Cascade(docs, k, defaults).Some?
    requires forall k :: k in appended ==> appended[k] == Cascade(docs, k, defaults).value
    ensures appended == AppendedIndex(docs, defaults)
  {
    assert forall k :: k in keys <==> k in Elements(keys);
    hide Cascade, AllRecorded, Elements;
  }

  method FromBases(bases: seq<string>, read: string -> File, defaults: string -> Value) returns (out: LayeredSettings)
    ensures out == Loaded(bases, read, defaults)
  {
    hide Cascade, Recorded, AllRecorded, ParsedLayers, BrokenBases, DocsOf, Elements, NoDuplicates;
    var layers: seq<Layer> := [];
    var broken: seq<string> := [];
    NoBases(bases, read);
    for i := 0 to |bases|
      invariant layers == ParsedLayers(bases[..i], read)
      invariant broken == BrokenBases(bases[..i], read)
    {
      OneMoreBase(bases, i, read);
      match read(bases[i]) {
        case Missing =>
        case Parsed(doc) => layers := layers + [Layer(bases[i], doc)];
        case Unparseable => broken := broken + [bases[i]];
      }
    }
    assert bases[..|bases|] == bases;
    var docs := DocsOf(layers);
    var keys: seq<string> := [];
    NothingRecorded(docs);
    NoKeys();
    for i := 0 to |docs|
      invariant NoDuplicates(keys)
      invariant Elements(keys) == AllRecorded(docs[..i])
    {
      keys := AppendedKeys(docs[i], "", keys);
      AllRecordedSnoc(docs, i);
    }
    assert docs[..|docs|] == docs;
    var appended: map<string, Value> := map[];
    for i := 0 to |keys|
      invariant forall k :: k in appended <==> k in keys[..i] && Cascade(docs, k, defaults).Some?
      invariant forall k :: k in appended ==> appended[k] == Cascade(docs, k, defaults).value
    {
      var value := LayeredValue(docs, keys[i], defaults);
      if value.Some? {
        appended := appended[keys[i] := value.value];
      }
    }
    assert keys[..|keys|] == keys;
    IndexIsComplete(docs, keys, appended, defaults);
    out := LayeredSettings(layers, broken, appended);
  }

  // ---------------------------------------------------------------------------
  // When the index agrees with the cascade

  /** No segment but the last ends in `+`. */
  predicate PlainInnerSegments(key: string)
    decreases |key|
  {
    HasDot(key) ==> !EndsWithPlus(Head(key)) && PlainInnerSegments(Tail(key))
  }

  /** The keys whose additions the walk finds. */
  predicate Walkable(key: string) {
    PlainInnerSegments(key) && (key == "" || key[0] != '.')
  }

  lemma FirstDotOfPlus(key: string)
    ensures HasDot(key + "+") <==> HasDot(key)
    ensures Head(key + "+") == if HasDot(key) then Head(key) else key + "+"
    ensures HasDot(key) ==> Tail(key + "+") == Tail(key) + "+"
  {
    var d := FirstDot(key);
    assert forall i :: 0 <= i < |key| ==> (key + "+")[i] == key[i];
    assert FirstDot(key + "+") == if HasDot(key) then d else |key| + 1;
  }

  /** Completeness of the walk: an addition that lookup can see under either shape, nested or
      flattened, is recorded under its dotted path. */
  lemma {:induction false} WalkFindsAddition(doc: Value, prefix: string, key: string)
    requires DotGet(doc, key + "+").Some?
    requires PlainInnerSegments(key)
    requires key != "" && key[0] == '.' ==> prefix != ""
    ensures Join(prefix, key) in Recorded(doc, prefix)
    decreases |key|
  {
    hide Recorded, RecordedAmong, RecordedAt, FirstDot;
    FirstDotOfPlus(key);
    if Member(doc, key + "+").Some? {
      RecordsAddition(doc, prefix, key);
    } else {
      var head, tail := Head(key), Tail(key);
      var path := Join(prefix, head);
      assert !EndsWithPlus(path) by {
        if head != "" {
          assert path[|path| - 1] == head[|head| - 1];
        } else {
          assert path[|path| - 1] == '.';
        }
      }
      WalkFindsAddition(doc.members[head], path, tail);
      assert Join(path, tail) == Join(prefix, key) by {
        assert key == head + "." + tail;
      }
      RecordsThroughMember(doc, prefix, head, Join(prefix, key));
    }
  }

  lemma GetAgreesOnWalkable(bases: seq<string>, read: string -> File, defaults: string -> Value, key: string)
    requires Walkable(key)
    ensures Loaded(bases, read, defaults).Get(key) == Cascade(Loaded(bases, read, defaults).Docs(), key, defaults)
  {
    var settings := Loaded(bases, read, defaults);
    var docs := settings.Docs();
    assert settings.appended == AppendedIndex(docs, defaults);
    if SomeLayerAdds(docs, key) {
      CascadeWithAdditions(docs, key, defaults);
      var i :| 0 <= i < |docs| && DotGet(docs[i], key + "+").Some?;
      WalkFindsAddition(docs[i], "", key);
      assert key in AllRecorded(docs);
    } else {
      CascadeWithoutAdditions(docs, key, defaults);
    }
  }

  /** A document that adds to `key` by nesting its segments, down to the first that ends in
      `+` or to the last. */
  function Nested(key: string): Value
    requires HasDot(key)
    decreases |key|
  {
    if EndsWithPlus(Head(key)) || !HasDot(Tail(key)) then NestedOnce(key)
    else Object(map[Head(key) := Nested(Tail(key))])
  }

  function NestedOnce(key: string): Value
    requires HasDot(key)
  {
    Object(map[Head(key) := Object(map[Tail(key) + "+" := Bool(true)])])
  }

  lemma LookupSeesNestedOnce(key: string)
    requires HasDot(key)
    ensures DotGet(NestedOnce(key), key + "+").Some?
    ensures DotGet(NestedOnce(key), key) == None
  {
    FirstDotOfPlus(key);
    HeadIsNotKey(key);
    var tail := Tail(key);
    var inner := Object(map[tail + "+" := Bool(true)]);
    assert |Head(key)| < |key| < |key + "+"|;
    assert DotGet(inner, tail + "+").Some?;
    assert |Head(tail)| <= |tail| < |tail + "+"|;
    assert DotGet(inner, tail) == None;
  }

  lemma {:induction false} LookupSeesNested(key: string)
    requires HasDot(key)
    ensures DotGet(Nested(key), key + "+").Some?
    ensures DotGet(Nested(key), key) == None
    decreases |key|
  {
    FirstDotOfPlus(key);
    if EndsWithPlus(Head(key)) || !HasDot(Tail(key)) {
      LookupSeesNestedOnce(key);
    } else {
      LookupSeesNested(Tail(key));
      assert |Head(key)| < |key| < |key + "+"|;
    }
  }

  lemma RecordedOfOneMember(k: string, value: Value, prefix: string)
    ensures Recorded(Object(map[k := value]), prefix) == RecordedAt(value, Join(prefix, k))
  {
    var doc := Object(map[k := value]);
    assert doc.members.Keys == {k};
    assert doc.members[k] == value;
  }

  /** The walk stops at a segment that ends in `+` and records a shorter path. */
  lemma {:induction false} WalkStopsEarly(key: string, prefix: string)
    requires !PlainInnerSegments(key)
    ensures forall path :: path in Recorded(Nested(key), prefix) ==> |path| < |Join(prefix, key)|
    decreases |key|
  {
    var path := Join(prefix, Head(key));
    if EndsWithPlus(Head(key)) {
      assert path[|path| - 1] == '+';
      RecordedOfOneMember(Head(key), Object(map[Tail(key) + "+" := Bool(true)]), prefix);
    } else {
      WalkStopsEarly(Tail(key), path);
      RecordedOfOneMember(Head(key), Nested(Tail(key)), prefix);
      assert !EndsWithPlus(path) by {
        if Head(key) != "" { assert path[|path| - 1] == Head(key)[|Head(key)| - 1]; }
      }
      assert |Join(path, Tail(key))| <= |Join(prefix, key)|;
    }
  }

  /** The walk loses an empty first segment. */
  lemma WalkDropsLeadingDot(key: string)
    requires key != "" && key[0] == '.'
    ensures key !in Recorded(NestedOnce(key), "")
  {
    var added := Tail(key) + "+";
    assert Head(key) == "" && Tail(key) == key[1..];
    assert added[..|added| - 1] == Tail(key);
    var inner := Object(map[added := Bool(true)]);
    RecordedOfOneMember("", inner, "");
    RecordedOfOneMember(added, Bool(true), "");
    assert Recorded(NestedOnce(key), "") == {Tail(key)};
  }

  /** The precomputed index answers every lookup of `key` as the cascade does, whatever the
      layers hold, exactly when the key is walkable. */
  lemma GetAgreesExactlyOnWalkable(key: string, defaults: string -> Value)
    ensures (forall bases, read :: Loaded(bases, read, defaults).Get(key) ==
                                   Cascade(Loaded(bases, read, defaults).Docs(), key, defaults)) <==> Walkable(key)
  {
    if Walkable(key) {
      forall bases, read
        ensures Loaded(bases, read, defaults).Get(key) == Cascade(Loaded(bases, read, defaults).Docs(), key, defaults)
      {
        GetAgreesOnWalkable(bases, read, defaults, key);
      }
    } else {
      var doc := if PlainInnerSegments(key) then NestedOnce(key) else Nested(key);
      if PlainInnerSegments(key) {
        LookupSeesNestedOnce(key);
        WalkDropsLeadingDot(key);
      } else {
        LookupSeesNested(key);
        WalkStopsEarly(key, "");
      }
      OneLayerDisagrees(doc, key, defaults);
    }
  }

  lemma OneLayerDisagrees(doc: Value, key: string, defaults: string -> Value)
    requires DotGet(doc, key + "+").Some? && DotGet(doc, key) == None && key !in Recorded(doc, "")
    ensures exists bases, read :: Loaded(bases, read, defaults).Get(key) !=
                                  Cascade(Loaded(bases, read, defaults).Docs(), key, defaults)
  {
    var bases, read := ["repo"], (base: string) => Parsed(doc);
    var settings := Loaded(bases, read, defaults);
    assert bases[..0] == [];
    assert ParsedLayers(bases, read) == [Layer("repo", doc)];
    var docs := settings.Docs();
    assert docs == [doc] && docs[..0] == [];
    assert key !in AllRecorded(docs);
    assert LastSetting(docs, key) == LastSetting(docs[..0], key) == None;
    assert settings.Get(key) == None;
    assert SomeLayerAdds(docs, key);
    CascadeWithAdditions(docs, key, defaults);
  }

  // ---------------------------------------------------------------------------
  // Lookups in plain terms

  predicate NoDot(name: string) {
    forall i :: 0 <= i < |name| ==> name[i] != '.'
  }

  predicate Segments(names: seq<string>) {
    names != [] && forall i :: 0 <= i < |names| ==> NoDot(names[i])
  }

  /** `a.b.c`. */
  function Dotted(names: seq<string>): string
    requires names != []
  {
    if |names| == 1 then names[0] else names[0] + "." + Dotted(names[1..])
  }

  /** `{"a": {"b": {"c": value}}}`. */
  function Nest(names: seq<string>, value: Value): Value
    requires names != []
  {
    Object(map[names[0] := if |names| == 1 then value else Nest(names[1..], value)])
  }

  lemma HeadOfDotted(names: seq<string>)
    requires Segments(names)
    ensures HasDot(Dotted(names)) <==> |names| > 1
    ensures Head(Dotted(names)) == names[0]
    ensures |names| > 1 ==> Tail(Dotted(names)) == Dotted(names[1..]) && Segments(names[1..])
  {
    var key := Dotted(names);
    assert NoDot(names[0]);
    if |names| > 1 {
      assert key[|names[0]|] == '.' && forall i :: 0 <= i < |names[0]| ==> key[i] == names[0][i];
      assert FirstDot(key) == |names[0]|;
      assert forall i :: 0 <= i < |names| - 1 ==> names[1..][i] == names[i + 1];
    } else {
      assert FirstDot(key) == |key|;
    }
  }

  /** A key of several segments means nested objects: a lookup finds the value there, and a write
      to an empty document makes them. */
  lemma {:induction false} DottedIsNested(names: seq<string>, value: Value)
    requires Segments(names)
    ensures DotGet(Nest(names, value), Dotted(names)) == Some(value)
    ensures DotSet(Object(map[]), Dotted(names), value) == Nest(names, value)
    decreases |names|
  {
    hide *;
    HeadOfDotted(names);
    NestStep(names, value);
    var key := Dotted(names);
    if |names| > 1 {
      DottedIsNested(names[1..], value);
      OneLevelDown(key, Nest(names[1..], value), value);
    } else {
      OneLevel(key, value);
      assert names[0] == key by { HeadIsNotKey(key); }
    }
  }

  lemma NestStep(names: seq<string>, value: Value)
    requires Segments(names)
    ensures names != []
    ensures Nest(names, value) == Object(map[names[0] := if |names| == 1 then value else Nest(names[1..], value)])
  {
  }

  lemma OneLevelDown(key: string, child: Value, value: Value)
    requires HasDot(key)
    ensures DotGet(Object(map[Head(key) := child]), key) == DotGet(child, Tail(key))
    ensures DotSet(Object(map[]), key, value) == Object(map[Head(key) := DotSet(Object(map[]), Tail(key), value)])
  {
    HeadIsNotKey(key);
    hide FirstDot;
  }

  lemma OneLevel(key: string, value: Value)
    requires !HasDot(key)
    ensures DotGet(Object(map[key := value]), key) == Some(value)
    ensures DotSet(Object(map[]), key, value) == Object(map[key := value])
  {
    hide FirstDot;
  }

  /** A member that is spelled like the whole key is found first. */
  lemma FlatIsFound(members: map<string, Value>, key: string)
    requires key in members
    ensures DotGet(Object(members), key) == Some(members[key])
  {
  }

  /** The most specific layer decides: its own value if it sets the key and adds nothing, the
      broader layers if it does neither. */
  lemma MostSpecificDecides(layers: seq<Value>, doc: Value, key: string, defaults: string -> Value)
    requires DotGet(doc, key + "+") == None
    ensures Cascade(layers + [doc], key, defaults)
            == if DotGet(doc, key).Some? then DotGet(doc, key) else Cascade(layers, key, defaults)
  {
    hide DotGet;
    CascadeSnoc(layers, doc, key, defaults);
  }

  /** What the most specific layer adds to: its own value, else what the broader layers resolve
      to, else the built-in default. */
  function AddedTo(layers: seq<Value>, doc: Value, key: string, defaults: string -> Value): Value {
    match (DotGet(doc, key), Cascade(layers, key, defaults))
    case (Some(own), _) => own
    case (None, Some(broader)) => broader
    case (None, None) => defaults(key)
  }

  /** A member named in the most specific added object is what the lookup shows; the members it
      does not name stay as they were. */
  lemma AddedMembersShow(layers: seq<Value>, doc: Value, key: string, defaults: string -> Value)
    requires DotGet(doc, key + "+").Some? && DotGet(doc, key + "+").value.Object?
    requires AddedTo(layers, doc, key, defaults).Object? || AddedTo(layers, doc, key, defaults) == Null
    ensures var base, extra := AddedTo(layers, doc, key, defaults), DotGet(doc, key + "+").value.members;
            var shown := Cascade(layers + [doc], key, defaults);
            && shown.Some? && shown.value.Object?
            && shown.value.members.Keys == (if base.Object? then base.members.Keys else {}) + extra.Keys
            && (forall k :: k in extra ==> shown.value.members[k] == extra[k])
            && (base.Object? ==> forall k :: k in base.members && k !in extra ==> shown.value.members[k] == base.members[k])
  {
    var base, addition := AddedTo(layers, doc, key, defaults), DotGet(doc, key + "+").value;
    hide DotGet, AppendSetting.Append;
    CascadeSnoc(layers, doc, key, defaults);
    if base.Object? {
      AppendSetting.ObjectsMerge(base.members, addition.members);
    } else {
      AppendSetting.OtherKinds(base, addition);
    }
  }

  function BasesOfLayers(layers: seq<Layer>): (bases: seq<string>)
    ensures |bases| == |layers|
    ensures forall i :: 0 <= i < |layers| ==> bases[i] == layers[i].base
  {
    seq(|layers|, i requires 0 <= i < |layers| => layers[i].base)
  }

  /** The loaded layers are the folders whose file parses, in their order, each with its document;
      the broken ones are the folders whose file does not. */
  lemma {:induction false} LoadedFiles(bases: seq<string>, read: string -> File) returns (parsed: seq<nat>, broken: seq<nat>)
    ensures PartAt(bases, BasesOfLayers(ParsedLayers(bases, read)), parsed)
    ensures forall i :: 0 <= i < |bases| ==> (i in parsed <==> read(bases[i]).Parsed?)
    ensures forall l :: l in ParsedLayers(bases, read) ==> read(l.base) == Parsed(l.doc)
    ensures PartAt(bases, BrokenBases(bases, read), broken)
    ensures forall i :: 0 <= i < |bases| ==> (i in broken <==> read(bases[i]).Unparseable?)
  {
    if bases == [] {
      parsed, broken := [], [];
    } else {
      hide ParsedLayers, BrokenBases, PartAt;
      var init, last := bases[..|bases| - 1], bases[|bases| - 1];
      assert bases[..|init|] == init && bases[..|init| + 1] == bases == init + [last];
      parsed, broken := LoadedFiles(init, read);
      OneMoreBase(bases, |init|, read);
      var layers := ParsedLayers(init, read);
      PartGrows(init, BasesOfLayers(layers), parsed, last);
      PartGrows(init, BrokenBases(init, read), broken, last);
      LastPlace(parsed, |init|);
      LastPlace(broken, |init|);
      match read(last) {
        case Parsed(doc) =>
          assert BasesOfLayers(layers + [Layer(last, doc)]) == BasesOfLayers(layers) + [last];
          parsed := parsed + [|init|];
        case Unparseable => broken := broken + [|init|];
        case Missing =>
      }
      assert layers + [] == layers && BrokenBases(init, read) + [] == BrokenBases(init, read);
    }
  }
}
