/** How the operations of the write gate act on the proposals it tracks, bucket boundaries aside. */
module GateBuckets {
  import opened Json
  import opened WriteGate

  // ---------------------------------------------------------------------------
  // One bucket

  lemma ByIdSnoc(ps: seq<Proposal>, p: Proposal)
    ensures ById(ps + [p]) == if p.id in ById(ps) then ById(ps) else ById(ps)[p.id := p]
  {
    assert (ps + [p])[..|ps|] == ps;
  }

  lemma {:induction false} ByIdMembers(ps: seq<Proposal>)
    ensures forall i :: 0 <= i < |ps| ==> ps[i].id in ById(ps)
    ensures Distinct(ps) ==> forall i :: 0 <= i < |ps| ==> ById(ps)[ps[i].id] == ps[i]
    ensures forall k :: k in ById(ps) ==> exists i :: 0 <= i < |ps| && ps[i].id == k && ps[i] == ById(ps)[k]
  {
    hide ById, Distinct;
    if ps == [] {
      NothingById();
    } else {
      var init, last := ps[..|ps| - 1], ps[|ps| - 1];
      assert ps == init + [last];
      ByIdMembers(init);
      ByIdSnoc(init, last);
      DistinctSnoc(init, last);
      forall k | k in ById(ps) ensures exists i :: 0 <= i < |ps| && ps[i].id == k && ps[i] == ById(ps)[k] {
        if k in ById(init) {
          var i :| 0 <= i < |init| && init[i].id == k && init[i] == ById(init)[k];
          assert ps[i] == init[i];
        } else {
          assert ps[|ps| - 1].id == k;
        }
      }
    }
  }

  lemma DistinctSnoc(ps: seq<Proposal>, p: Proposal)
    ensures Distinct(ps + [p]) <==> Distinct(ps) && p.id !in ById(ps)
  {
    assert (ps + [p])[..|ps|] == ps;
  }

  lemma OfConvSnoc(ps: seq<Proposal>, p: Proposal, conv: Option<string>, same: bool)
    ensures OfConv(ps + [p], conv, same) == OfConv(ps, conv, same) + if SameConv(conv, p) == same then [p] else []
  {
    assert (ps + [p])[..|ps|] == ps;
  }

  /** `part` holds the proposals of `all` that belong to the conversation, or the others. */
  ghost predicate IsPart(part: map<nat, Proposal>, all: map<nat, Proposal>, conv: Option<string>, same: bool) {
    && (forall k :: k in part <==> k in all && SameConv(conv, all[k]) == same)
    && (forall k :: k in part ==> part[k] == all[k])
  }

  lemma PartOneMore(part: map<nat, Proposal>, all: map<nat, Proposal>, p: Proposal, conv: Option<string>, same: bool)
    requires IsPart(part, all, conv, same) && p.id !in all
    ensures p.id !in part
    ensures IsPart(if SameConv(conv, p) == same then part[p.id := p] else part, all[p.id := p], conv, same)
  {
    hide SameConv;
  }

  lemma {:induction false} OfConvById(ps: seq<Proposal>, conv: Option<string>, same: bool)
    requires Distinct(ps)
    ensures IsPart(ById(OfConv(ps, conv, same)), ById(ps), conv, same)
  {
    hide *;
    if ps == [] {
      NothingIsPart(conv, same);
    } else {
      var init, last := ps[..|ps| - 1], ps[|ps| - 1];
      assert ps == init + [last];
      DistinctSnoc(init, last);
      OfConvById(init, conv, same);
      OfConvSnoc(init, last, conv, same);
      ByIdSnoc(init, last);
      var part := OfConv(init, conv, same);
      PartOneMore(ById(part), ById(init), last, conv, same);
      if SameConv(conv, last) == same {
        ByIdSnoc(part, last);
      } else {
        assert part + [] == part;
      }
    }
  }

  lemma NothingIsPart(conv: Option<string>, same: bool)
    ensures IsPart(ById(OfConv([], conv, same)), ById([]), conv, same)
  {
  }

  lemma {:induction false} OfConvDistinct(ps: seq<Proposal>, conv: Option<string>, same: bool)
    requires Distinct(ps)
    ensures Distinct(OfConv(ps, conv, same))
  {
    if ps != [] {
      hide ById, SameConv;
      var init, last := ps[..|ps| - 1], ps[|ps| - 1];
      OfConvDistinct(init, conv, same);
      OfConvById(init, conv, same);
      DistinctSnoc(OfConv(init, conv, same), last);
    }
  }

  lemma HoldsById(ps: seq<Proposal>, id: nat)
    ensures Holds(ps, id) <==> id in ById(ps)
  {
    ByIdMembers(ps);
  }

  /** Holding drained proposals that are not held yet appends them all. */
  lemma {:induction false} HeldAppends(hold: seq<Proposal>, ps: seq<Proposal>)
    requires Distinct(hold) && Distinct(ps) && ById(hold).Keys !! ById(ps).Keys
    ensures Held(hold, ps) == hold + ps
    ensures Distinct(hold + ps)
    ensures ById(hold + ps) == ById(hold) + ById(ps)
  {
    if ps == [] {
      NothingIsHeld(hold);
      assert hold + ps == hold;
    } else {
      hide *;
      var init, last := ps[..|ps| - 1], ps[|ps| - 1];
      assert ps == init + [last];
      DistinctSnoc(init, last);
      ByIdSnoc(init, last);
      UnionUpdate(ById(hold), ById(init), last.id, last);
      HeldAppends(hold, init);
      HeldSnoc(hold, init, last);
      assert hold + ps == (hold + init) + [last];
      HoldsById(hold + init, last.id);
      DistinctSnoc(hold + init, last);
      ByIdSnoc(hold + init, last);
    }
  }

  lemma UnionUpdate(m: map<nat, Proposal>, n: map<nat, Proposal>, k: nat, x: Proposal)
    requires m.Keys !! n[k := x].Keys
    ensures m.Keys !! n.Keys && k !in m
    ensures m + n[k := x] == (m + n)[k := x]
  {
    assert k in n[k := x].Keys && n.Keys <= n[k := x].Keys;
  }

  lemma NothingIsHeld(hold: seq<Proposal>)
    ensures Held(hold, []) == hold && ById(hold) + ById([]) == ById(hold)
  {
  }

  lemma HeldSnoc(hold: seq<Proposal>, ps: seq<Proposal>, p: Proposal)
    ensures Held(hold, ps + [p]) == if Holds(Held(hold, ps), p.id) then Held(hold, ps) else Held(hold, ps) + [p]
  {
    assert (ps + [p])[..|ps|] == ps;
  }

  lemma {:induction false} WithoutById(ps: seq<Proposal>, ids: seq<nat>)
    requires Distinct(ps)
    ensures forall k :: k in ById(Without(ps, ids)) <==> k in ById(ps) && k !in ids
    ensures forall k :: k in ById(Without(ps, ids)) ==> ById(Without(ps, ids))[k] == ById(ps)[k]
  {
    if ps != [] {
      var init, last := ps[..|ps| - 1], ps[|ps| - 1];
      WithoutById(init, ids);
      ByIdSnoc(Without(init, ids), last);
    }
  }

  lemma {:induction false} WithoutDistinct(ps: seq<Proposal>, ids: seq<nat>)
    requires Distinct(ps)
    ensures Distinct(Without(ps, ids))
  {
    if ps != [] {
      var init, last := ps[..|ps| - 1], ps[|ps| - 1];
      WithoutDistinct(init, ids);
      WithoutById(init, ids);
      DistinctSnoc(Without(init, ids), last);
    }
  }

  lemma EditFirstSnoc(ps: seq<Proposal>, p: Proposal, id: nat, e: Edit)
    ensures EditFirst(ps + [p], id, e) ==
            if id in ById(ps) then EditFirst(ps, id, e) + [p] else ps + [if p.id == id then e.Apply(p) else p]
  {
    assert (ps + [p])[..|ps|] == ps;
  }

  lemma EditKeepsId(p: Proposal, e: Edit)
    ensures e.Apply(p).id == p.id
  {
  }

  lemma {:induction false} EditFirstIds(ps: seq<Proposal>, id: nat, e: Edit)
    ensures |EditFirst(ps, id, e)| == |ps|
    ensures forall i :: 0 <= i < |ps| ==> EditFirst(ps, id, e)[i].id == ps[i].id
  {
    if ps != [] {
      hide ById;
      EditFirstIds(ps[..|ps| - 1], id, e);
    }
  }

  lemma MapCommute(m: map<nat, Proposal>, a: nat, x: Proposal, b: nat, y: Proposal)
    requires a != b
    ensures m[a := x][b := y] == m[b := y][a := x]
  {
  }

  /** `after` is `before` with the proposal `id` edited. */
  ghost predicate EditedAt(before: map<nat, Proposal>, after: map<nat, Proposal>, id: nat, e: Edit) {
    after == if id in before then before[id := e.Apply(before[id])] else before
  }

  lemma EditedAtOneMore(before: map<nat, Proposal>, after: map<nat, Proposal>, id: nat, e: Edit, p: Proposal)
    requires id in before && EditedAt(before, after, id, e)
    ensures EditedAt(if p.id in before then before else before[p.id := p],
                     if p.id in after then after else after[p.id := p], id, e)
  {
    hide Edit.Apply;
    if p.id !in before { MapCommute(before, id, e.Apply(before[id]), p.id, p); }
  }

  lemma EditedAtLast(before: map<nat, Proposal>, id: nat, e: Edit, p: Proposal)
    requires id !in before
    ensures var q := if p.id == id then e.Apply(p) else p;
            EditedAt(if p.id in before then before else before[p.id := p],
                     if q.id in before then before else before[q.id := q], id, e)
  {
    EditKeepsId(p, e);
    hide Edit.Apply;
  }

  lemma {:induction false} EditFirstEdits(ps: seq<Proposal>, id: nat, e: Edit)
    ensures EditedAt(ById(ps), ById(EditFirst(ps, id, e)), id, e)
  {
    if ps != [] {
      hide *;
      var init, last := ps[..|ps| - 1], ps[|ps| - 1];
      assert ps == init + [last];
      EditFirstEdits(init, id, e);
      EditFirstSnoc(init, last, id, e);
      ByIdSnoc(init, last);
      if id in ById(init) {
        ByIdSnoc(EditFirst(init, id, e), last);
        EditedAtOneMore(ById(init), ById(EditFirst(init, id, e)), id, e, last);
      } else {
        ByIdSnoc(init, if last.id == id then e.Apply(last) else last);
        EditedAtLast(ById(init), id, e, last);
      }
    }
  }

  lemma {:induction false} SameIdsSameDistinct(a: seq<Proposal>, b: seq<Proposal>)
    requires |a| == |b| && forall i :: 0 <= i < |a| ==> a[i].id == b[i].id
    ensures Distinct(a) <==> Distinct(b)
    ensures ById(a).Keys == ById(b).Keys
  {
    if a != [] {
      hide *;
      var c, d := a[..|a| - 1], b[..|b| - 1];
      var x, y := a[|a| - 1], b[|b| - 1];
      SameIdsSameDistinct(c, d);
      ByIdSnoc(c, x);
      ByIdSnoc(d, y);
      DistinctSnoc(c, x);
      DistinctSnoc(d, y);
      assert a == c + [x] && b == d + [y];
    }
  }

  // ---------------------------------------------------------------------------
  // All buckets

  function IdsAt(view: map<nat, Proposal>, path: string): set<nat> {
    set k | k in view && view[k].path == path
  }

  lemma CandidatesFromView(g: Gate, path: string)
    requires Disjoint(g)
    ensures IdsOn(g, path) == IdsAt(View(g), path)
  {
    IdsOfBucket(g.deferred, path);
    IdsOfBucket(g.hold, path);
    hide ById, Distinct;
    var ids := IdsAt(View(g), path);
    forall k ensures k in IdsOn(g, path) <==> k in ids {}
  }

  lemma IdsOfBucket(ps: seq<Proposal>, path: string)
    requires Distinct(ps)
    ensures (set i | 0 <= i < |ps| && ps[i].path == path :: ps[i].id) == IdsAt(ById(ps), path)
  {
    ByIdMembers(ps);
    hide ById, Distinct;
    forall k | k in IdsAt(ById(ps), path) ensures exists i :: 0 <= i < |ps| && ps[i].path == path && ps[i].id == k {
      var i :| 0 <= i < |ps| && ps[i].id == k && ps[i] == ById(ps)[k];
    }
  }

  predicate NoDuplicates(ids: seq<nat>) {
    forall i, j :: 0 <= i < j < |ids| ==> ids[i] != ids[j]
  }

  /** `after` is `before` with the tracked proposals among `ids` edited. */
  ghost predicate Edited(before: map<nat, Proposal>, after: map<nat, Proposal>, ids: seq<nat>, e: Edit) {
    && (forall k :: k in after <==> k in before)
    && (forall k :: k in after ==> after[k] == if k in ids then e.Apply(before[k]) else before[k])
  }

  /** One update for each tracked peer that the edit changes. */
  function Updates(view: map<nat, Proposal>, ids: seq<nat>, e: Edit): seq<Event> {
    if ids == [] then []
    else
      var init, last := Updates(view, ids[..|ids| - 1], e), ids[|ids| - 1];
      if last in view && e.Touches(view[last]) then init + [Updated(last)] else init
  }

  lemma EditPeerParts(g: Gate, id: nat, e: Edit)
    ensures EditedAt(ById(g.hold), ById(EditPeer(g, id, e).hold), id, e)
    ensures EditedAt(ById(g.deferred), ById(EditPeer(g, id, e).deferred), id, e)
    ensures EditedAt(g.active, EditPeer(g, id, e).active, id, e)
  {
    hide ById, EditFirst, Edit.Apply;
    EditFirstEdits(g.deferred, id, e);
    EditFirstEdits(g.hold, id, e);
  }

  lemma EditPeerView(g: Gate, id: nat, e: Edit)
    requires Disjoint(g)
    ensures Edited(View(g), View(EditPeer(g, id, e)), [id], e)
  {
    hide ById, Distinct, EditPeer, Edit.Apply, EditedAt, Edited;
    var next := EditPeer(g, id, e);
    EditPeerParts(g, id, e);
    EditedUnion(ById(g.hold), ById(next.hold), ById(g.deferred), ById(next.deferred), id, e);
    EditedUnion(ById(g.hold) + ById(g.deferred), ById(next.hold) + ById(next.deferred), g.active, next.active, id, e);
    EditedAtIsEdited(View(g), View(next), id, e);
  }

  lemma EditedAtIsEdited(before: map<nat, Proposal>, after: map<nat, Proposal>, id: nat, e: Edit)
    requires EditedAt(before, after, id, e)
    ensures Edited(before, after, [id], e)
  {
    hide Edit.Apply;
  }

  lemma EditedUnion(m: map<nat, Proposal>, m1: map<nat, Proposal>, n: map<nat, Proposal>, n1: map<nat, Proposal>, id: nat, e: Edit)
    requires EditedAt(m, m1, id, e) && EditedAt(n, n1, id, e) && m.Keys !! n.Keys
    ensures EditedAt(m + n, m1 + n1, id, e)
  {
    hide Edit.Apply;
  }

  lemma EditPeerLog(g: Gate, id: nat, e: Edit)
    requires Disjoint(g)
    ensures EditPeer(g, id, e).log == if id in View(g) && e.Touches(View(g)[id]) then g.log + [Updated(id)] else g.log
  {
  }

  lemma EditPeerDisjoint(g: Gate, id: nat, e: Edit)
    requires Disjoint(g)
    ensures Disjoint(EditPeer(g, id, e))
  {
    EditFirstIds(g.deferred, id, e);
    EditFirstIds(g.hold, id, e);
    hide ById, EditFirst, Distinct;
    SameIdsSameDistinct(g.deferred, EditFirst(g.deferred, id, e));
    SameIdsSameDistinct(g.hold, EditFirst(g.hold, id, e));
  }

  lemma EditedThenOneMore(v0: map<nat, Proposal>, v1: map<nat, Proposal>, v2: map<nat, Proposal>,
                          ids: seq<nat>, last: nat, e: Edit)
    requires Edited(v0, v1, ids, e) && Edited(v1, v2, [last], e) && last !in ids
    ensures Edited(v0, v2, ids + [last], e)
  {
  }

  lemma {:induction false} EditPeersDisjoint(g: Gate, ids: seq<nat>, e: Edit)
    requires Disjoint(g)
    ensures Disjoint(EditPeers(g, ids, e))
    ensures EditPeers(g, ids, e).nextId == g.nextId
  {
    if ids != [] {
      hide Disjoint;
      EditPeersDisjoint(g, ids[..|ids| - 1], e);
      EditPeerDisjoint(EditPeers(g, ids[..|ids| - 1], e), ids[|ids| - 1], e);
    }
  }

  lemma NoDuplicatesSnoc(ids: seq<nat>)
    requires NoDuplicates(ids) && ids != []
    ensures NoDuplicates(ids[..|ids| - 1]) && ids[|ids| - 1] !in ids[..|ids| - 1]
  {
  }

  lemma EditedOneMore(view: map<nat, Proposal>, before: Gate, init: seq<nat>, last: nat, e: Edit)
    requires Disjoint(before) && Edited(view, View(before), init, e) && last !in init
    ensures Edited(view, View(EditPeer(before, last, e)), init + [last], e)
  {
    EditPeerView(before, last, e);
    EditedThenOneMore(view, View(before), View(EditPeer(before, last, e)), init, last, e);
  }

  lemma EditPeersSnoc(g: Gate, ids: seq<nat>, id: nat, e: Edit)
    ensures EditPeers(g, ids + [id], e) == EditPeer(EditPeers(g, ids, e), id, e)
  {
    hide EditPeer;
    assert (ids + [id])[..|ids|] == ids;
  }

  lemma NothingEdited(view: map<nat, Proposal>, e: Edit)
    ensures Edited(view, view, [], e)
  {
    hide Edit.Apply;
  }

  lemma {:induction false} EditPeersEdits(g: Gate, ids: seq<nat>, e: Edit)
    requires Disjoint(g) && NoDuplicates(ids)
    ensures Edited(View(g), View(EditPeers(g, ids, e)), ids, e)
  {
    if ids == [] {
      NothingEdited(View(g), e);
    } else {
      hide *;
      var init, last := ids[..|ids| - 1], ids[|ids| - 1];
      NoDuplicatesSnoc(ids);
      EditPeersSnoc(g, init, last, e);
      EditPeersEdits(g, init, e);
      EditPeersDisjoint(g, init, e);
      var before := EditPeers(g, init, e);
      EditedOneMore(View(g), before, init, last, e);
      assert ids == init + [last];
    }
  }

  lemma UpdatesSnoc(view: map<nat, Proposal>, ids: seq<nat>, id: nat, e: Edit)
    ensures Updates(view, ids + [id], e) ==
            Updates(view, ids, e) + if id in view && e.Touches(view[id]) then [Updated(id)] else []
  {
    hide Edit.Touches;
    assert (ids + [id])[..|ids|] == ids;
  }

  lemma NotYetEdited(view: map<nat, Proposal>, after: map<nat, Proposal>, ids: seq<nat>, e: Edit, k: nat)
    requires Edited(view, after, ids, e) && k !in ids
    ensures (k in after <==> k in view) && (k in view ==> after[k] == view[k])
  {
  }

  lemma NothingLogged(g: Gate, e: Edit)
    ensures EditPeers(g, [], e).log == g.log + Updates(View(g), [], e)
  {
  }

  lemma {:induction false} EditPeersLog(g: Gate, ids: seq<nat>, e: Edit)
    requires Disjoint(g) && NoDuplicates(ids)
    ensures EditPeers(g, ids, e).log == g.log + Updates(View(g), ids, e)
  {
    hide *;
    if ids == [] {
      NothingLogged(g, e);
    } else {
      var init, last := ids[..|ids| - 1], ids[|ids| - 1];
      var before := EditPeers(g, init, e);
      assert ids == init + [last];
      NoDuplicatesSnoc(ids);
      EditPeersLog(g, init, e);
      EditPeersDisjoint(g, init, e);
      EditPeersEdits(g, init, e);
      NotYetEdited(View(g), View(before), init, e, last);
      EditPeersSnoc(g, init, last, e);
      EditPeerLog(before, last, e);
      UpdatesSnoc(View(g), init, last, e);
    }
  }

  lemma DrainConvDisjoint(g: Gate, conv: Option<string>)
    requires Disjoint(g)
    ensures Disjoint(DrainConv(g, conv).0)
    ensures DrainConv(g, conv).0.hold == g.hold + DrainConv(g, conv).1
  {
    var drained := OfConv(g.deferred, conv, true);
    OfConvById(g.deferred, conv, true);
    OfConvById(g.deferred, conv, false);
    OfConvDistinct(g.deferred, conv, true);
    OfConvDistinct(g.deferred, conv, false);
    hide OfConv, ById, Distinct, Held;
    HeldAppends(g.hold, drained);
  }

  lemma DrainConvView(g: Gate, conv: Option<string>)
    requires Disjoint(g)
    ensures View(DrainConv(g, conv).0) == View(g)
  {
    var drained, keep := OfConv(g.deferred, conv, true), OfConv(g.deferred, conv, false);
    OfConvById(g.deferred, conv, true);
    OfConvById(g.deferred, conv, false);
    OfConvDistinct(g.deferred, conv, true);
    hide OfConv, ById, Distinct, Held;
    HeldAppends(g.hold, drained);
    MoveBetweenBuckets(ById(g.hold), ById(g.deferred), ById(drained), ById(keep));
  }

  lemma MoveBetweenBuckets(hold: map<nat, Proposal>, deferred: map<nat, Proposal>,
                           drained: map<nat, Proposal>, keep: map<nat, Proposal>)
    requires hold.Keys !! deferred.Keys
    requires forall k :: k in deferred <==> k in drained || k in keep
    requires forall k :: k in drained ==> k !in keep && drained[k] == deferred[k]
    requires forall k :: k in keep ==> keep[k] == deferred[k]
    ensures hold + drained + keep == hold + deferred
  {
  }

  /** Draining one conversation sends exactly its deferred proposals to the review hold and
      keeps tracking every proposal, unchanged. */
  lemma DrainConvConserves(g: Gate, conv: Option<string>)
    requires Disjoint(g)
    ensures Disjoint(DrainConv(g, conv).0)
    ensures View(DrainConv(g, conv).0) == View(g)
    ensures DrainConv(g, conv).0.hold == g.hold + DrainConv(g, conv).1
    ensures forall p :: p in DrainConv(g, conv).1 <==> p in g.deferred && p.conv == conv
    ensures forall p :: p in DrainConv(g, conv).0.deferred <==> p in g.deferred && p.conv != conv
  {
    DrainConvDisjoint(g, conv);
    DrainConvView(g, conv);
    ConvMembers(g.deferred, conv, true);
    ConvMembers(g.deferred, conv, false);
  }

  lemma {:induction false} ConvMembers(ps: seq<Proposal>, conv: Option<string>, same: bool)
    ensures forall p :: p in OfConv(ps, conv, same) <==> p in ps && SameConv(conv, p) == same
  {
    if ps != [] {
      var init, last := ps[..|ps| - 1], ps[|ps| - 1];
      assert ps == init + [last];
      ConvMembers(init, conv, same);
    }
  }

  /** The partition is stable: of any two drained (or kept) proposals, the one queued first
      comes first. */
  lemma {:induction false} DrainIsStable(ps: seq<Proposal>, conv: Option<string>, same: bool, i: nat, j: nat)
    requires i < j < |OfConv(ps, conv, same)|
    ensures exists m, n :: 0 <= m < n < |ps| && ps[m] == OfConv(ps, conv, same)[i] && ps[n] == OfConv(ps, conv, same)[j]
  {
    var init, last := ps[..|ps| - 1], ps[|ps| - 1];
    var part := OfConv(init, conv, same);
    if j < |part| {
      DrainIsStable(init, conv, same, i, j);
      var m, n :| 0 <= m < n < |init| && init[m] == part[i] && init[n] == part[j];
      assert ps[m] == init[m] && ps[n] == init[n];
    } else {
      ConvMembers(init, conv, same);
      assert part[i] in part;
      var m :| 0 <= m < |init| && init[m] == part[i];
      assert ps[m] == part[i] && ps[|ps| - 1] == last;
    }
  }

  lemma DrainAllConserves(g: Gate)
    requires Disjoint(g)
    ensures Disjoint(DrainAll(g).0)
    ensures View(DrainAll(g).0) == View(g)
    ensures DrainAll(g).0.hold == g.hold + g.deferred
  {
    NothingById();
    hide ById, Distinct, Held;
    HeldAppends(g.hold, g.deferred);
    MoveBetweenBuckets(ById(g.hold), ById(g.deferred), ById(g.deferred), ById([]));
  }

  lemma NothingById()
    ensures ById([]) == map[] && Distinct([])
  {
  }

  /** No drain changes the conflict candidates of any path. */
  lemma DrainsKeepCandidates(g: Gate, conv: Option<string>, path: string)
    requires Disjoint(g)
    ensures Candidates(DrainConv(g, conv).0, path) == Candidates(g, path)
    ensures Candidates(DrainAll(g).0, path) == Candidates(g, path)
  {
    DrainConvConserves(g, conv);
    DrainAllConserves(g);
    CandidatesFromView(g, path);
    CandidatesFromView(DrainConv(g, conv).0, path);
    CandidatesFromView(DrainAll(g).0, path);
  }

  /** Releasing untracks held proposals and changes no other. */
  lemma ReleaseView(g: Gate, ids: seq<nat>)
    requires Disjoint(g)
    ensures Disjoint(g.(hold := Without(g.hold, ids)))
    ensures forall k :: k in View(g.(hold := Without(g.hold, ids))) ==>
              k in View(g) && View(g.(hold := Without(g.hold, ids)))[k] == View(g)[k]
    ensures forall k :: k in View(g) && k !in ids ==> k in View(g.(hold := Without(g.hold, ids)))
  {
    hide ById, Distinct, Without;
    WithoutById(g.hold, ids);
    WithoutDistinct(g.hold, ids);
  }

  predicate Tracks(mode: WriteMode) {
    mode.Interactive? || mode.Deferred?
  }

  lemma QueueView(g: Gate, p: Proposal)
    requires Disjoint(g) && p.id !in View(g)
    ensures Disjoint(g.(deferred := g.deferred + [p]))
    ensures View(g.(deferred := g.deferred + [p])) == View(g)[p.id := p]
  {
    hide ById, Distinct;
    DistinctSnoc(g.deferred, p);
    ByIdSnoc(g.deferred, p);
    assert p.id !in ById(g.hold) && p.id !in ById(g.deferred) && p.id !in g.active;
  }

  lemma ActivateView(g: Gate, p: Proposal)
    requires Disjoint(g) && p.id !in View(g)
    ensures Disjoint(g.(active := g.active[p.id := p]))
    ensures View(g.(active := g.active[p.id := p])) == View(g)[p.id := p]
  {
    hide ById, Distinct;
    assert p.id !in ById(g.hold) && p.id !in ById(g.deferred) && p.id !in g.active;
  }

  lemma LogIsNotTracked(g: Gate, log: seq<Event>)
    ensures View(g.(log := log)) == View(g)
    ensures Disjoint(g.(log := log)) <==> Disjoint(g)
  {
  }

  lemma InsertView(g: Gate, p: Proposal)
    requires Disjoint(g) && p.id !in View(g)
    ensures Disjoint(Insert(g, p).0)
    ensures Insert(g, p).0.nextId == g.nextId
    ensures View(Insert(g, p).0) == if Tracks(EffectiveMode(g, p.conv)) then View(g)[p.id := p] else View(g)
  {
    match EffectiveMode(g, p.conv) {
      case Interactive =>
        ActivateView(g, p);
        LogIsNotTracked(g.(active := g.active[p.id := p]), g.log + [Created(p.id)]);
      case AutoAccept => LogIsNotTracked(g, g.log + [Finalized(p.path)]);
      case RejectAll =>
      case Deferred => QueueView(g, p);
    }
  }

  /** Finalizing marks each tracked peer superseded, once, and touches nothing else. */
  lemma FinalizeView(g: Gate, id: nat)
    requires Disjoint(g) && id in g.active && NoDuplicates(g.active[id].conflicts)
    ensures Disjoint(Finalize(g, id).0)
    ensures Edited(View(g) - {id}, View(Finalize(g, id).0), g.active[id].conflicts, Edit.Supersede)
    ensures Finalize(g, id).0.log ==
            g.log + Updates(View(g) - {id}, g.active[id].conflicts, Edit.Supersede) + [Finalized(g.active[id].path)]
    ensures Finalize(g, id).0.nextId == g.nextId
  {
    hide ById, Distinct, EditPeers, Updates, Edited;
    var rest := g.(active := g.active - {id});
    assert View(rest) == View(g) - {id};
    EditPeersEdits(rest, g.active[id].conflicts, Edit.Supersede);
    EditPeersLog(rest, g.active[id].conflicts, Edit.Supersede);
    EditPeersDisjoint(rest, g.active[id].conflicts, Edit.Supersede);
  }
}
