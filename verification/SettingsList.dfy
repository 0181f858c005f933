/** The list of a setting with the folder each entry comes from. Models
    `LayeredSettings::list_with_bases` of crates/gaviero-core/src/workspace.rs. */
module SettingsList {
  import opened Json
  import opened Settings
  import AppendSetting

  datatype Entry = Entry(base: string, value: Value)

  function Tagged(base: string, items: seq<Value>): (entries: seq<Entry>)
    ensures |entries| == |items|
    ensures forall i :: 0 <= i < |items| ==> entries[i] == Entry(base, items[i])
  {
    seq(|items|, i requires 0 <= i < |items| => Entry(base, items[i]))
  }

  function Values(entries: seq<Entry>): (values: seq<Value>)
    ensures |values| == |entries|
    ensures forall i :: 0 <= i < |entries| ==> values[i] == entries[i].value
  {
    seq(|entries|, i requires 0 <= i < |entries| => entries[i].value)
  }

  function ItemsOf(value: Value): seq<Value> {
    if value.Array? then value.items else []
  }

  /** What a `key+` value puts on the list. */
  function ListedAddition(addition: Option<Value>): seq<Value> {
    match addition
    case None => []
    case Some(Null) => []
    case Some(Array(items)) => items
    case Some(single) => [single]
  }

  function Listed(layers: seq<Layer>, key: string): seq<Entry> {
    if layers == [] then []
    else
      var layer := layers[|layers| - 1];
      var own := DotGet(layer.doc, key);
      (if own.Some? then Tagged(layer.base, ItemsOf(own.value)) else Listed(layers[..|layers| - 1], key))
      + Tagged(layer.base, ListedAddition(DotGet(layer.doc, key + "+")))
  }

  lemma ListedSnoc(layers: seq<Layer>, i: nat, key: string)
    requires i < |layers|
    ensures var layer := layers[i];
            var own := DotGet(layer.doc, key);
            Listed(layers[..i + 1], key) ==
            (if own.Some? then Tagged(layer.base, ItemsOf(own.value)) else Listed(layers[..i], key))
            + Tagged(layer.base, ListedAddition(DotGet(layer.doc, key + "+")))
  {
    hide DotGet;
    assert layers[..i + 1][..i] == layers[..i];
  }

  lemma ListedNothing(layers: seq<Layer>, key: string)
    ensures Listed(layers[..0], key) == []
  {
  }

  method ListWithBases(layers: seq<Layer>, key: string) returns (out: seq<Entry>)
    ensures out == Listed(layers, key)
  {
    hide DotGet, Tagged, Listed;
    out := [];
    ListedNothing(layers, key);
    for i := 0 to |layers|
      invariant out == Listed(layers[..i], key)
    {
      ListedSnoc(layers, i, key);
      var layer := layers[i];

      var own := DotGet(layer.doc, key);
      if own.Some? {
        out := [];
        if own.value.Array? {
          out := out + Tagged(layer.base, own.value.items);
        }
      }
      match DotGet(layer.doc, key + "+") {
        case Some(Array(items)) => out := out + Tagged(layer.base, items);
        case Some(Null) =>
        case None =>
        case Some(single) => out := out + Tagged(layer.base, [single]);
      }
    }
    assert layers[..|layers|] == layers;
  }

  // ---------------------------------------------------------------------------
  // Agreement with the resolved value

  /** The entry already stands in the list where an addition would put it. */
  predicate InPlace(items: seq<Value>, entry: Value) {
    match AppendSetting.NameOf(entry)
    case Some(name) =>
      AppendSetting.SlotOf(items, name) < |items| && items[AppendSetting.SlotOf(items, name)] == entry
    case None => entry in items
  }

  lemma PushesInPlaceExactly(items: seq<Value>, entry: Value)
    ensures AppendSetting.PushAll(items, [entry]) == items <==> InPlace(items, entry)
  {
    assert [entry][..0] == [];
    PushNothingOnto(items);
    assert AppendSetting.PushAll(items, [entry]) == AppendSetting.PushEntry(items, entry);
    hide AppendSetting.PushAll;
    assert |items + [entry]| > |items|;
  }

  lemma PushesSomething(items: seq<Value>, additions: seq<Value>)
    requires additions != []
    ensures AppendSetting.PushAll(items, additions) != []
  {
    hide AppendSetting.NameOf;
  }

  /** Nothing is added, or to a list or to null and no object, unless that object is in the list
      already. */
  predicate ListsWhatItAdds(base: Value, addition: Value) {
    || ListedAddition(Some(addition)) == []
    || match base
       case Array(items) => addition.Object? ==> InPlace(items, addition)
       case Null => !addition.Object?
       case _ => false
  }

  /** A base and an addition to it resolve to the list that is shown for them exactly then:
      resolution ignores an object that is added to a list and a list that is added to a scalar
      or an object, the listing shows both. */
  lemma AddsWhatIsListedExactly(base: Value, addition: Value)
    ensures ItemsOf(AppendSetting.Append(base, addition))
            == AppendSetting.PushAll(ItemsOf(base), ListedAddition(Some(addition)))
            <==> ListsWhatItAdds(base, addition)
  {
    var listed := ListedAddition(Some(addition));
    PushNothingOnto(ItemsOf(base));
    if listed != [] { PushesSomething(ItemsOf(base), listed); }
    if addition.Object? {
      PushesInPlaceExactly(ItemsOf(base), addition);
      PushNothingOnto([]);
    }
    hide AppendSetting.PushAll, InPlace;
  }

  /** Over all lists so far, exactly the additions that are no objects resolve to what is listed. */
  lemma EveryListAddsWhatIsListed(addition: Value)
    ensures (forall items :: AppendSetting.Append(Array(items), addition)
                             == Array(AppendSetting.PushAll(items, ListedAddition(Some(addition)))))
            <==> !addition.Object?
  {
    if addition.Object? {
      assert AppendSetting.Append(Array([]), addition) == Array([]);
      assert AppendSetting.PushAll([], [addition][..0]) == [];
      assert AppendSetting.PushAll([], [addition]) == [addition];
    }
  }

  predicate IsEmptyList(value: Value) {
    value == Null || value == Array([])
  }

  /** From the most specific layer down to the one that sets it, the setting is a list or null,
      and nothing adds an object to it; an addition without a setting below it finds a built-in
      default that lists nothing. What an overridden layer holds does not matter. */
  predicate IsListSetting(layers: seq<Layer>, key: string, defaults: string -> Value) {
    layers == [] ||
    var init, doc := layers[..|layers| - 1], layers[|layers| - 1].doc;
    var addition := DotGet(doc, key + "+");
    && (addition.Some? ==> !addition.value.Object?)
    && match DotGet(doc, key)
       case Some(own) => own.Array? || own.Null?
       case None =>
         && IsListSetting(init, key, defaults)
         && (addition.Some? && Cascade(DocsOf(init), key, defaults).None? ==> IsEmptyList(defaults(key)))
  }

  /** How many entries the list of the most specific layer that sets the key holds. */
  function SetCount(layers: seq<Layer>, key: string): nat {
    if layers == [] then 0
    else
      var own := DotGet(layers[|layers| - 1].doc, key);
      if own.Some? then |ItemsOf(own.value)| else SetCount(layers[..|layers| - 1], key)
  }

  /** The resolved list is the listed entries, those after the first `n` pushed one by one. */
  predicate Resolves(value: Option<Value>, listed: seq<Value>, n: nat) {
    && n <= |listed|
    && (value.None? || value == Some(Null) ==> listed == [])
    && (value.Some? ==>
          value == Some(Null) || value == Some(Array(AppendSetting.PushAll(listed[..n], listed[n..]))))
  }

  lemma {:induction false} PushAllAppend(items: seq<Value>, a: seq<Value>, b: seq<Value>)
    ensures AppendSetting.PushAll(items, a + b) == AppendSetting.PushAll(AppendSetting.PushAll(items, a), b)
  {
    if b == [] {
      assert a + b == a;
    } else {
      PushAllAppend(items, a, b[..|b| - 1]);
      assert (a + b)[..|a + b| - 1] == a + b[..|b| - 1];
    }
  }

  lemma ResolvesOneMore(before: Value, listed: seq<Value>, n: nat, addition: Value)
    requires !addition.Object? && Resolves(Some(before), listed, n)
    ensures Resolves(Some(AppendSetting.Append(before, addition)), listed + ListedAddition(Some(addition)), n)
  {
    hide AppendSetting.PushAll;
    var more := ListedAddition(Some(addition));
    var all := listed + more;
    assert all[..n] == listed[..n] && all[n..] == listed[n..] + more;
    PushAllAppend(listed[..n], listed[n..], more);
    if before == Null {
      assert all == more && all[..0] == [] && all[0..] == more;
    } else if addition == Null {
      assert all == listed;
    }
  }

  lemma PushNothing()
    ensures AppendSetting.PushAll([], []) == []
  {
  }

  lemma PushNothingOnto(items: seq<Value>)
    ensures AppendSetting.PushAll(items, []) == items
  {
  }

  lemma SplitValues(a: seq<Entry>, base: string, items: seq<Value>)
    ensures Values(a + Tagged(base, items)) == Values(a) + items
  {
  }

  /** For a list setting the listing shows what the cascade resolves: the resolved list is the
      listed entries pushed in order onto the list that the most specific setter wrote. */
  lemma {:induction false} ListedIsResolved(layers: seq<Layer>, key: string, defaults: string -> Value)
    requires IsListSetting(layers, key, defaults)
    ensures Resolves(Cascade(DocsOf(layers), key, defaults), Values(Listed(layers, key)), SetCount(layers, key))
  {
    hide AppendSetting.PushAll, AppendSetting.Append, DotGet, Cascade, Listed, Tagged, Values, Resolves;
    if layers == [] {
      NothingResolves(key, defaults);
    } else {
      var init, layer := layers[..|layers| - 1], layers[|layers| - 1];
      var own, addition := DotGet(layer.doc, key), DotGet(layer.doc, key + "+");
      OneMoreLayer(layers, key, defaults);
      var listed, value, n := Values(Listed(init, key)), Cascade(DocsOf(init), key, defaults), SetCount(init, key);
      if own.Some? {
        listed, value, n := ItemsOf(own.value), own, |ItemsOf(own.value)|;
        SetResolves(own.value);
      } else {
        ListedIsResolved(init, key, defaults);
        if value.None? && addition.Some? {
          DefaultResolves(defaults(key), listed, n);
          value := Some(defaults(key));
        }
      }
      if addition.Some? {
        ResolvesOneMore(value.value, listed, n, addition.value);
      } else {
        assert listed + [] == listed;
      }
    }
  }

  /** What the most specific layer does to both readings. */
  lemma OneMoreLayer(layers: seq<Layer>, key: string, defaults: string -> Value)
    requires layers != []
    ensures var init, layer := layers[..|layers| - 1], layers[|layers| - 1];
            var own, addition := DotGet(layer.doc, key), DotGet(layer.doc, key + "+");
            && Cascade(DocsOf(layers), key, defaults)
               == ApplyLayer(Cascade(DocsOf(init), key, defaults), layer.doc, key, defaults)
            && Values(Listed(layers, key))
               == (if own.Some? then ItemsOf(own.value) else Values(Listed(init, key))) + ListedAddition(addition)
            && SetCount(layers, key) == if own.Some? then |ItemsOf(own.value)| else SetCount(init, key)
  {
    hide DotGet, Cascade, ApplyLayer, Listed, Tagged, Values;
    var init, layer := layers[..|layers| - 1], layers[|layers| - 1];
    assert DocsOf(layers) == DocsOf(init) + [layer.doc];
    CascadeSnoc(DocsOf(init), layer.doc, key, defaults);
    assert layers[..|init| + 1] == layers;
    ListedSnoc(layers, |init|, key);
    var own, addition := DotGet(layer.doc, key), DotGet(layer.doc, key + "+");
    var entries := if own.Some? then Tagged(layer.base, ItemsOf(own.value)) else Listed(init, key);
    SplitValues(entries, layer.base, ListedAddition(addition));
    if own.Some? { ValuesOfTagged(layer.base, ItemsOf(own.value)); }
  }

  lemma SetResolves(value: Value)
    requires value.Array? || value.Null?
    ensures Resolves(Some(value), ItemsOf(value), |ItemsOf(value)|)
  {
    var items := ItemsOf(value);
    assert items[..|items|] == items && items[|items|..] == [];
    PushNothingOnto(items);
  }

  lemma DefaultResolves(value: Value, listed: seq<Value>, n: nat)
    requires Resolves(None, listed, n) && IsEmptyList(value)
    ensures Resolves(Some(value), listed, n)
  {
    PushNothing();
    assert listed[..0] == [] && listed[0..] == [];
  }

  lemma NothingResolves(key: string, defaults: string -> Value)
    ensures Resolves(Cascade(DocsOf([]), key, defaults), Values(Listed([], key)), 0)
  {
  }

  lemma ValuesOfTagged(base: string, items: seq<Value>)
    ensures Values(Tagged(base, items)) == items
  {
  }

  // ---------------------------------------------------------------------------
  // Where listing and resolution part

  /** The resolved value, read as a list, is the listing with all entries but the first `n` pushed. */
  predicate Shows(value: Option<Value>, listed: seq<Value>, n: nat) {
    && n <= |listed|
    && (if value.Some? then ItemsOf(value.value) else []) == AppendSetting.PushAll(listed[..n], listed[n..])
  }

  /** Whatever the broader layers hold: the layer that sets the key and adds to it shows what it
      resolves to exactly when it lists what it adds. */
  lemma SetLayerShowsExactly(layers: seq<Layer>, key: string, defaults: string -> Value)
    requires layers != [] && DotGet(layers[|layers| - 1].doc, key).Some?
    ensures var doc := layers[|layers| - 1].doc;
            Shows(Cascade(DocsOf(layers), key, defaults), Values(Listed(layers, key)), SetCount(layers, key))
            <==> DotGet(doc, key + "+").Some? ==>
                   ListsWhatItAdds(DotGet(doc, key).value, DotGet(doc, key + "+").value)
  {
    hide AppendSetting.PushAll, AppendSetting.Append, DotGet, Cascade, Listed, Values, SetCount, ListsWhatItAdds, ItemsOf, ListedAddition;
    var doc := layers[|layers| - 1].doc;
    var own, addition := DotGet(doc, key).value, DotGet(doc, key + "+");
    OneMoreLayer(layers, key, defaults);
    SplitListed(ItemsOf(own), ListedAddition(addition));
    if addition.Some? {
      AddsWhatIsListedExactly(own, addition.value);
    } else {
      ListsNoAddition();
      PushNothingOnto(ItemsOf(own));
    }
  }

  lemma SplitListed(a: seq<Value>, b: seq<Value>)
    ensures (a + b)[..|a|] == a && (a + b)[|a|..] == b
  {
  }

  lemma ListsNoAddition()
    ensures ListedAddition(None) == []
  {
  }

  lemma {:induction false} NothingIsListed(layers: seq<Layer>, key: string, defaults: string -> Value)
    requires Cascade(DocsOf(layers), key, defaults).None?
    ensures Values(Listed(layers, key)) == [] && SetCount(layers, key) == 0
  {
    hide DotGet, Cascade, Listed, Values;
    if layers == [] {
      ListedNothing(layers, key);
      assert layers[..0] == [];
      ListsNoAddition();
      NoValues();
    } else {
      OneMoreLayer(layers, key, defaults);
      NothingIsListed(layers[..|layers| - 1], key, defaults);
    }
  }

  lemma NoValues()
    ensures Values([]) == []
  {
  }

  /** A document that adds to the key and does not set it. */
  ghost function Adds(key: string, addition: Value): Value {
    Object(map[key + "+" := addition])
  }

  lemma AddsOnly(key: string, addition: Value)
    ensures DotGet(Adds(key, addition), key) == None && DotGet(Adds(key, addition), key + "+") == Some(addition)
  {
    assert |key + "+"| > |key| && |Head(key)| <= |key|;
  }

  lemma AddedShows(layers: seq<Layer>, base: string, doc: Value, key: string, defaults: string -> Value)
    requires Cascade(DocsOf(layers), key, defaults).None? && DotGet(doc, key).None? && DotGet(doc, key + "+").Some?
    ensures var all, addition := layers + [Layer(base, doc)], DotGet(doc, key + "+").value;
            Shows(Cascade(DocsOf(all), key, defaults), Values(Listed(all, key)), SetCount(all, key))
            <==> ItemsOf(AppendSetting.Append(defaults(key), addition))
                 == AppendSetting.PushAll([], ListedAddition(Some(addition)))
  {
    hide AppendSetting.PushAll, AppendSetting.Append, DotGet, Cascade, Listed, Values, SetCount, ItemsOf, ListedAddition;
    var all, addition := layers + [Layer(base, doc)], DotGet(doc, key + "+");
    assert all[..|all| - 1] == layers;
    OneMoreLayer(all, key, defaults);
    NothingIsListed(layers, key, defaults);
    SplitListed([], ListedAddition(addition));
    assert [] + ListedAddition(addition) == ListedAddition(addition);
  }

  /** An addition to a setting that no layer sets shows what it resolves to, whatever is added
      but an object, exactly when the built-in default lists nothing and is no scalar. */
  lemma UnsetShowsExactly(layers: seq<Layer>, base: string, key: string, defaults: string -> Value)
    requires Cascade(DocsOf(layers), key, defaults).None?
    ensures (forall doc :: DotGet(doc, key).None? && DotGet(doc, key + "+").Some? && !DotGet(doc, key + "+").value.Object? ==>
               var all := layers + [Layer(base, doc)];
               Shows(Cascade(DocsOf(all), key, defaults), Values(Listed(all, key)), SetCount(all, key)))
            <==> IsEmptyList(defaults(key))
  {
    hide Shows, DotGet, Cascade, Listed, Values, SetCount;
    if IsEmptyList(defaults(key)) {
      forall doc | DotGet(doc, key).None? && DotGet(doc, key + "+").Some? && !DotGet(doc, key + "+").value.Object?
        ensures var all := layers + [Layer(base, doc)];
                Shows(Cascade(DocsOf(all), key, defaults), Values(Listed(all, key)), SetCount(all, key))
      {
        AddedShows(layers, base, doc, key, defaults);
        AddsWhatIsListedExactly(defaults(key), DotGet(doc, key + "+").value);
      }
    } else {
      var addition := if defaults(key).Array? then Array([]) else Bool(true);
      AddsOnly(key, addition);
      AddedShows(layers, base, Adds(key, addition), key, defaults);
      DefaultIsNotListed(defaults(key), addition);
    }
  }

  lemma DefaultIsNotListed(value: Value, addition: Value)
    requires !IsEmptyList(value) && addition == if value.Array? then Array([]) else Bool(true)
    ensures ItemsOf(AppendSetting.Append(value, addition)) != AppendSetting.PushAll([], ListedAddition(Some(addition)))
  {
    AddsWhatIsListedExactly(value, addition);
    PushNothing();
    if value.Array? { PushNothingOnto(value.items); } else { PushesSomething([], [addition]); }
  }

  // ---------------------------------------------------------------------------
  // Where the entries come from

  /** The document writes this entry for the key: in the list it sets, or as what it adds. */
  predicate Wrote(doc: Value, key: string, entry: Value) {
    var own, addition := DotGet(doc, key), DotGet(doc, key + "+");
    || (own.Some? && own.value.Array? && entry in own.value.items)
    || (addition.Some? && addition.value.Array? && entry in addition.value.items)
    || (addition == Some(entry) && !entry.Array? && entry != Null)
  }

  /** The file of this layer wrote the entry, and no more specific layer starts the list over. */
  predicate Source(layers: seq<Layer>, key: string, entry: Entry, i: nat) {
    && i < |layers| && entry.base == layers[i].base && Wrote(layers[i].doc, key, entry.value)
    && forall j :: i < j < |layers| ==> DotGet(layers[j].doc, key) == None
  }

  lemma InTagged(base: string, items: seq<Value>, entry: Entry)
    ensures entry in Tagged(base, items) <==> entry.base == base && entry.value in items
  {
    if entry.base == base && entry.value in items {
      var i :| 0 <= i < |items| && items[i] == entry.value;
      assert Tagged(base, items)[i] == entry;
    }
  }

  lemma OfLastLayer(layer: Layer, key: string, entry: Entry)
    ensures var own, addition := DotGet(layer.doc, key), DotGet(layer.doc, key + "+");
            (own.Some? && entry in Tagged(layer.base, ItemsOf(own.value)))
            || entry in Tagged(layer.base, ListedAddition(addition))
            <==> entry.base == layer.base && Wrote(layer.doc, key, entry.value)
  {
    var own, addition := DotGet(layer.doc, key), DotGet(layer.doc, key + "+");
    hide DotGet;
    if own.Some? { InTagged(layer.base, ItemsOf(own.value), entry); }
    InTagged(layer.base, ListedAddition(addition), entry);
  }

  lemma SourceOneMore(init: seq<Layer>, layer: Layer, key: string, entry: Entry)
    ensures (exists i: nat :: Source(init + [layer], key, entry, i))
            <==> (entry.base == layer.base && Wrote(layer.doc, key, entry.value))
                 || (DotGet(layer.doc, key) == None && exists i: nat :: Source(init, key, entry, i))
  {
    hide DotGet, Wrote;
    var all := init + [layer];
    if i: nat :| Source(all, key, entry, i) {
      if i < |init| {
        assert all[|init|] == layer && DotGet(layer.doc, key) == None;
        assert forall j :: i < j < |init| ==> all[j] == init[j];
        assert Source(init, key, entry, i);
      }
    }
    if entry.base == layer.base && Wrote(layer.doc, key, entry.value) { assert Source(all, key, entry, |init|); }
    if i: nat :| DotGet(layer.doc, key) == None && Source(init, key, entry, i) {
      assert forall j :: i < j < |all| ==> all[j] == if j < |init| then init[j] else layer;
      assert Source(all, key, entry, i);
    }
  }

  /** An entry is listed under a folder exactly when the file of that folder wrote it and no more
      specific file sets the key. */
  lemma {:induction false} ListedHasSource(layers: seq<Layer>, key: string, entry: Entry)
    ensures entry in Listed(layers, key) <==> exists i: nat :: Source(layers, key, entry, i)
  {
    hide DotGet, Listed, Tagged, Source, Wrote, ItemsOf, ListedAddition;
    if layers == [] {
      ListedNothing(layers, key);
      assert layers[..0] == [];
      NoSource(key, entry);
    } else {
      var init, layer := layers[..|layers| - 1], layers[|layers| - 1];
      ListedHasSource(init, key, entry);
      assert layers[..|init| + 1] == layers == init + [layer];
      ListedSnoc(layers, |init|, key);
      OfLastLayer(layer, key, entry);
      SourceOneMore(init, layer, key, entry);
    }
  }

  lemma NoSource(key: string, entry: Entry)
    ensures !exists i: nat :: Source([], key, entry, i)
  {
    hide DotGet, Wrote;
  }
}
