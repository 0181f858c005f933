/** Adding a `"key+"` value to a setting. Models `append_setting` and `push_setting_entry`
    of crates/gaviero-core/src/workspace.rs. */
module AppendSetting {
  import opened Text
  import opened Json

  /** The trimmed `"name"` of an object entry. */
  function NameOf(v: Value): Option<string> {
    if v.Object? && "name" in v.members && v.members["name"].String? then Some(Trim(v.members["name"].s))
    else None
  }

  /** The first entry called `name`, or the length of the list. */
  function SlotOf(items: seq<Value>, name: string): (k: nat)
    ensures k <= |items|
    ensures k < |items| ==> NameOf(items[k]) == Some(name)
    ensures forall j :: 0 <= j < k ==> NameOf(items[j]) != Some(name)
  {
    if items == [] then 0
    else if NameOf(items[0]) == Some(name) then 0
    else
      assert forall j :: 0 < j < |items| ==> items[j] == items[1..][j - 1];
      1 + SlotOf(items[1..], name)
  }

  function PushEntry(items: seq<Value>, item: Value): seq<Value> {
    if NameOf(item).Some? && SlotOf(items, NameOf(item).value) < |items| then
      items[SlotOf(items, NameOf(item).value) := item]
    else if item in items then items
    else items + [item]
  }

  function PushAll(items: seq<Value>, additions: seq<Value>): seq<Value> {
    if additions == [] then items
    else PushEntry(PushAll(items, additions[..|additions| - 1]), additions[|additions| - 1])
  }

  function Additions(addition: Value): seq<Value> {
    match addition
    case Array(items) => items
    case Object(_) => []
    case Null => []
    case _ => [addition]
  }

  function Append(base: Value, addition: Value): Value {
    match (base, addition)
    case (_, Null) => base
    case (Object(m), Object(extra)) => Object(m + extra)
    case (Null, Object(extra)) => Object(extra)
    case (Array(items), _) => Array(PushAll(items, Additions(addition)))
    case (Null, _) => Array(PushAll([], Additions(addition)))
    case (_, _) => base
  }

  method PushSettingEntry(items: seq<Value>, item: Value) returns (r: seq<Value>)
    ensures r == PushEntry(items, item)
  {
    var name := NameOf(item);
    if name.Some? {
      for k := 0 to |items|
        invariant forall j :: 0 <= j < k ==> NameOf(items[j]) != name
      {
        if NameOf(items[k]) == name {
          assert SlotOf(items, name.value) == k;
          return items[k := item];
        }
      }
    }
    r := if item in items then items else items + [item];
  }

  method PushSettingEntries(items: seq<Value>, additions: seq<Value>) returns (r: seq<Value>)
    ensures r == PushAll(items, additions)
  {
    r := items;
    for i := 0 to |additions|
      invariant r == PushAll(items, additions[..i])
    {
      r := PushSettingEntry(r, additions[i]);
      assert additions[..i + 1][..i] == additions[..i];
    }
    assert additions[..|additions|] == additions;
  }

  method AppendSetting(base: Value, addition: Value) returns (r: Value)
    ensures r == Append(base, addition)
  {
    var additions := Additions(addition);
    match (base, addition) {
      case (_, Null) => r := base;
      case (Object(m), Object(extra)) => r := Object(m + extra);
      case (Null, Object(extra)) => r := Object(extra);
      case (Array(items), _) =>
        var all := PushSettingEntries(items, additions);
        r := Array(all);
      case (Null, _) =>
        var all := PushSettingEntries([], additions);
        r := Array(all);
      case (_, _) => r := base;
    }
  }

  // ---------------------------------------------------------------------------
  // What adding a list does

  predicate HasNamed(additions: seq<Value>, name: string) {
    exists i :: 0 <= i < |additions| && NameOf(additions[i]) == Some(name)
  }

  function LastNamed(additions: seq<Value>, name: string): (v: Value)
    requires HasNamed(additions, name)
    ensures NameOf(v) == Some(name) && v in additions
  {
    var last := additions[|additions| - 1];
    if NameOf(last) == Some(name) then last
    else
      assert HasNamed(additions[..|additions| - 1], name) by {
        var i :| 0 <= i < |additions| && NameOf(additions[i]) == Some(name);
        assert additions[..|additions| - 1][i] == additions[i];
      }
      LastNamed(additions[..|additions| - 1], name)
  }

  /** Entry `j` of `items` once `additions` are in: the last addition of its name if it is the
      first entry of that name, else itself. */
  function Overwritten(items: seq<Value>, additions: seq<Value>, j: nat): (v: Value)
    requires j < |items|
    ensures NameOf(v) == NameOf(items[j])
  {
    match NameOf(items[j])
    case Some(name) =>
      if SlotOf(items, name) == j && HasNamed(additions, name) then LastNamed(additions, name) else items[j]
    case None => items[j]
  }

  /** The entry is in the list already: by name, or by value when it has no name. */
  predicate Present(items: seq<Value>, item: Value) {
    match NameOf(item)
    case Some(name) => SlotOf(items, name) < |items|
    case None => item in items
  }

  lemma SameNamesSameSlot(a: seq<Value>, b: seq<Value>, name: string)
    requires |a| <= |b|
    requires forall j :: 0 <= j < |a| ==> NameOf(a[j]) == NameOf(b[j])
    ensures SlotOf(a, name) < |a| ==> SlotOf(b, name) == SlotOf(a, name)
    ensures SlotOf(b, name) < |a| ==> SlotOf(a, name) == SlotOf(b, name)
  {
  }

  lemma HasNamedSnoc(init: seq<Value>, last: Value, name: string)
    ensures HasNamed(init + [last], name) <==> HasNamed(init, name) || NameOf(last) == Some(name)
    ensures HasNamed(init, name) && NameOf(last) != Some(name) ==> LastNamed(init + [last], name) == LastNamed(init, name)
    ensures NameOf(last) == Some(name) ==> LastNamed(init + [last], name) == last
  {
    var all := init + [last];
    assert all[..|all| - 1] == init;
    if NameOf(last) == Some(name) { assert NameOf(all[|init|]) == Some(name); }
    if i :| 0 <= i < |init| && NameOf(init[i]) == Some(name) { assert NameOf(all[i]) == Some(name); }
  }

  /** The old entries keep their places, each name's first entry is redefined by the last
      addition of that name, and what follows are additions. */
  lemma {:induction false} PushAllOverwrites(items: seq<Value>, additions: seq<Value>)
    ensures |PushAll(items, additions)| >= |items|
    ensures forall j :: 0 <= j < |items| ==> PushAll(items, additions)[j] == Overwritten(items, additions, j)
    ensures forall j :: |items| <= j < |PushAll(items, additions)| ==> PushAll(items, additions)[j] in additions
  {
    if additions != [] {
      var init, last := additions[..|additions| - 1], additions[|additions| - 1];
      assert additions == init + [last];
      PushAllOverwrites(items, init);
      var before, r := PushAll(items, init), PushAll(items, additions);
      assert r == PushEntry(before, last);
      forall j | 0 <= j < |items| ensures r[j] == Overwritten(items, additions, j) {
        if NameOf(items[j]).Some? {
          var name := NameOf(items[j]).value;
          HasNamedSnoc(init, last, name);
          SameNamesSameSlot(items, before, name);
        }
      }
    }
  }

  /** The first entry of this name is the last addition of that name. */
  predicate Settled(items: seq<Value>, additions: seq<Value>, name: string) {
    HasNamed(additions, name) ==>
      SlotOf(items, name) < |items| && items[SlotOf(items, name)] == LastNamed(additions, name)
  }

  lemma PushEntryKeepsNames(items: seq<Value>, item: Value)
    ensures var r := PushEntry(items, item);
            |r| >= |items| && forall j :: 0 <= j < |items| ==> NameOf(r[j]) == NameOf(items[j])
  {
  }

  lemma PushEntrySettles(items: seq<Value>, item: Value, name: string)
    requires NameOf(item) == Some(name)
    ensures var r := PushEntry(items, item);
            SlotOf(r, name) < |r| && r[SlotOf(r, name)] == item
  {
    var r := PushEntry(items, item);
    PushEntryKeepsNames(items, item);
    SameNamesSameSlot(items, r, name);
    if SlotOf(items, name) == |items| { assert r == items + [item] && r[|items|] == item; }
  }

  lemma PushEntryKeepsSlot(items: seq<Value>, item: Value, name: string)
    requires NameOf(item) != Some(name) && SlotOf(items, name) < |items|
    ensures var r := PushEntry(items, item);
            |r| >= |items| && SlotOf(r, name) == SlotOf(items, name) && r[SlotOf(r, name)] == items[SlotOf(items, name)]
  {
    PushEntryKeepsNames(items, item);
    SameNamesSameSlot(items, PushEntry(items, item), name);
  }

  lemma SettledOneMore(before: seq<Value>, init: seq<Value>, last: Value, name: string)
    requires Settled(before, init, name)
    ensures Settled(PushEntry(before, last), init + [last], name)
  {
    HasNamedSnoc(init, last, name);
    hide PushEntry, SlotOf, HasNamed, LastNamed, NameOf;
    if NameOf(last) == Some(name) {
      PushEntrySettles(before, last, name);
    } else if HasNamed(init, name) {
      PushEntryKeepsSlot(before, last, name);
    }
  }

  lemma PresentOneMore(before: seq<Value>, last: Value, x: Value)
    requires x == last || Present(before, x)
    ensures Present(PushEntry(before, last), x)
  {
    var r := PushEntry(before, last);
    PushEntryKeepsNames(before, last);
    match NameOf(x) {
      case Some(name) =>
        if x == last { PushEntrySettles(before, last, name); }
        SameNamesSameSlot(before, r, name);
      case None =>
        if x != last {
          var j :| 0 <= j < |before| && before[j] == x;
          assert r[j] == x;
        }
    }
  }

  predicate AllPresent(items: seq<Value>, additions: seq<Value>) {
    forall x :: x in additions ==> Present(items, x)
  }

  /** Afterwards every addition is present, and each added name's first entry is the last
      addition of that name. */
  lemma {:induction false} PushAllSettles(items: seq<Value>, additions: seq<Value>)
    ensures AllPresent(PushAll(items, additions), additions)
    ensures forall name :: Settled(PushAll(items, additions), additions, name)
  {
    if additions != [] {
      hide Present, PushEntry, Settled;
      var init, last := additions[..|additions| - 1], additions[|additions| - 1];
      assert additions == init + [last];
      PushAllSettles(items, init);
      var before := PushAll(items, init);
      forall name ensures Settled(PushAll(items, additions), additions, name) {
        SettledOneMore(before, init, last, name);
      }
      forall x | x in additions ensures Present(PushAll(items, additions), x) {
        PresentOneMore(before, last, x);
      }
    }
  }

  lemma {:induction false} PushAllOfPresent(items: seq<Value>, additions: seq<Value>)
    requires AllPresent(items, additions)
    ensures |PushAll(items, additions)| == |items|
  {
    if additions != [] {
      var init, last := additions[..|additions| - 1], additions[|additions| - 1];
      PushAllOfPresent(items, init);
      PushAllOverwrites(items, init);
      var before := PushAll(items, init);
      assert last in additions;
      match NameOf(last) {
        case Some(name) => SameNamesSameSlot(items, before, name);
        case None =>
          var j :| 0 <= j < |items| && items[j] == last;
          assert before[j] == Overwritten(items, init, j);
      }
    }
  }

  lemma PushAllTwice(items: seq<Value>, additions: seq<Value>)
    ensures PushAll(PushAll(items, additions), additions) == PushAll(items, additions)
  {
    var once := PushAll(items, additions);
    var twice := PushAll(once, additions);
    PushAllSettles(items, additions);
    PushAllOfPresent(once, additions);
    PushAllOverwrites(once, additions);
    forall j | 0 <= j < |once| ensures twice[j] == once[j] {
      assert twice[j] == Overwritten(once, additions, j);
      if NameOf(once[j]).Some? { assert Settled(once, additions, NameOf(once[j]).value); }
    }
  }

  /** A second addition of a value finds everything in place, whatever the base and the value. */
  lemma AppendIsIdempotent(base: Value, addition: Value)
    ensures Append(Append(base, addition), addition) == Append(base, addition)
  {
    var additions := Additions(addition);
    match base {
      case Array(items) => PushAllTwice(items, additions);
      case Null => PushAllTwice([], additions);
      case Object(m) =>
        if addition.Object? { assert m + addition.members + addition.members == m + addition.members; }
      case _ =>
    }
  }

  // ---------------------------------------------------------------------------
  // The kinds of base and addition

  /** Objects are merged member by member, the addition's value winning. */
  lemma ObjectsMerge(m: map<string, Value>, extra: map<string, Value>)
    ensures var r := Append(Object(m), Object(extra));
            && r.Object? && r.members.Keys == m.Keys + extra.Keys
            && (forall k :: k in extra ==> r.members[k] == extra[k])
            && (forall k :: k in m && k !in extra ==> r.members[k] == m[k])
  {
  }

  /** What each other pair of kinds gives: the base unchanged, the addition itself, or a list. */
  lemma OtherKinds(base: Value, addition: Value)
    ensures addition == Null ==> Append(base, addition) == base
    ensures base.Bool? || base.Number? || base.String? ==> Append(base, addition) == base
    ensures base.Object? && !addition.Object? ==> Append(base, addition) == base
    ensures base.Array? && addition.Object? ==> Append(base, addition) == base
    ensures base == Null && addition.Object? ==> Append(base, addition) == addition
    ensures base.Array? && addition.Array? ==> Append(base, addition) == Array(PushAll(base.items, addition.items))
    ensures base == Null && addition.Array? ==> Append(base, addition) == Array(PushAll([], addition.items))
    ensures addition.Bool? || addition.Number? || addition.String? ==>
              && (base == Null ==> Append(base, addition) == Array([addition]))
              && (base.Array? ==> Append(base, addition)
                                  == Array(if addition in base.items then base.items else base.items + [addition]))
  {
    if addition.Bool? || addition.Number? || addition.String? {
      assert [addition][..0] == [];
      if base.Array? { assert PushAll(base.items, [addition]) == PushEntry(base.items, addition); }
      assert PushAll([], [addition]) == PushEntry([], addition);
    }
  }

  /** Entries that are new by value and by name are appended in their order. */
  lemma {:induction false} NewEntriesAreAppended(items: seq<Value>, additions: seq<Value>)
    requires forall i :: 0 <= i < |additions| ==> additions[i] !in items && additions[i] !in additions[..i]
    requires forall i, j :: 0 <= i < |additions| && 0 <= j < |items| ==>
               NameOf(additions[i]).Some? ==> NameOf(additions[i]) != NameOf(items[j])
    requires forall i, j :: 0 <= j < i < |additions| ==>
               NameOf(additions[i]).Some? ==> NameOf(additions[i]) != NameOf(additions[j])
    ensures PushAll(items, additions) == items + additions
  {
    hide NameOf;
    if additions == [] {
      assert items + additions == items;
    } else {
      var init, last := additions[..|additions| - 1], additions[|additions| - 1];
      assert additions == init + [last];
      forall i | 0 <= i < |init| ensures init[i] !in init[..i] { assert init[..i] == additions[..i]; }
      NewEntriesAreAppended(items, init);
      NewEntry(items + init, last);
      assert items + additions == items + init + [last];
    }
  }

  lemma NewEntry(items: seq<Value>, item: Value)
    requires item !in items
    requires forall j :: 0 <= j < |items| ==> NameOf(item).Some? ==> NameOf(item) != NameOf(items[j])
    ensures PushEntry(items, item) == items + [item]
  {
    hide NameOf;
  }

  /** An object whose `"name"` is this text, white space around it aside. */
  ghost predicate IsNamed(v: Value, name: string) {
    v.Object? && "name" in v.members && v.members["name"].String? &&
    exists before, after :: IsBlank(before) && IsBlank(after) && v.members["name"].s == before + name + after
  }

  lemma NamedHasName(v: Value, name: string)
    requires IsTrimmed(name) && IsNamed(v, name)
    ensures NameOf(v) == Some(name)
  {
    var before, after :| IsBlank(before) && IsBlank(after) && v.members["name"].s == before + name + after;
    TrimOfPadded(before, name, after);
  }

  /** An entry takes the place of the first one of its name, however either name is padded. */
  lemma SameNameIsReplaced(items: seq<Value>, k: nat, item: Value, name: string, others: seq<string>)
    requires IsTrimmed(name) && IsNamed(item, name) && k < |items| && IsNamed(items[k], name)
    requires |others| == k && forall j :: 0 <= j < k ==> IsTrimmed(others[j]) && others[j] != name && IsNamed(items[j], others[j])
    ensures PushEntry(items, item) == items[k := item]
  {
    NamedHasName(item, name);
    NamedHasName(items[k], name);
    forall j | 0 <= j < k ensures NameOf(items[j]) != Some(name) { NamedHasName(items[j], others[j]); }
    hide NameOf;
    assert SlotOf(items, name) == k;
  }
}
