/** What the write gate hands to the disk. Models `insert_proposal`, `finalize` and the decisions
    of crates/gaviero-core/src/write_gate.rs. */
module GateActions {
  import opened Json
  import opened Selection
  import opened Text
  import opened HunkAssembly
  import opened WriteGate
  import opened GateBuckets

  // ---------------------------------------------------------------------------
  // Modes

  /** A conversation's own mode decides for its proposals, the default for all others. */
  lemma OwnModeDecides(g: Gate, conv: Option<string>)
    ensures conv == None ==> EffectiveMode(g, conv) == g.defaultMode
    ensures conv.Some? && conv.value !in g.convModes ==> EffectiveMode(g, conv) == g.defaultMode
    ensures conv.Some? && conv.value in g.convModes ==> EffectiveMode(g, conv) == g.convModes[conv.value]
  {
  }

  // ---------------------------------------------------------------------------
  // Content

  /** The same hunks, all of one status. */
  ghost predicate AllDecided(hunks: seq<Hunk>, decided: seq<Hunk>, status: HunkStatus) {
    && |decided| == |hunks|
    && forall i :: 0 <= i < |hunks| ==> decided[i] == hunks[i].(status := status)
  }

  lemma DecidedTail(hunks: seq<Hunk>, decided: seq<Hunk>, status: HunkStatus)
    requires AllDecided(hunks, decided, status) && hunks != []
    ensures AllDecided(hunks[1..], decided[1..], status) && decided != [] && decided[0] == hunks[0].(status := status)
  {
    forall i | 0 <= i < |hunks[1..]| ensures decided[1..][i] == hunks[1..][i].(status := status) {
      assert decided[1..][i] == decided[i + 1] && hunks[1..][i] == hunks[i + 1];
    }
  }

  /** A diff stays one whatever is decided. */
  lemma {:induction false} DiffIgnoresStatus(o: seq<string>, p: seq<string>, hunks: seq<Hunk>, decided: seq<Hunk>,
                                             status: HunkStatus, i: nat, j: nat)
    requires IsDiffFrom(o, p, hunks, i, j) && AllDecided(hunks, decided, status)
    ensures IsDiffFrom(o, p, decided, i, j) && CopiedCrlf(o, decided, i) == CopiedCrlf(o, hunks, i)
    decreases |hunks|
  {
    hide AllDecided, Concat, CountCrlf;
    if hunks != [] {
      DecidedTail(hunks, decided, status);
      DiffIgnoresStatus(o, p, hunks[1..], decided[1..], status, hunks[0].originalEnd, hunks[0].proposedEnd);
    } else {
      NothingDecided(hunks, decided, status);
    }
  }

  lemma NothingDecided(hunks: seq<Hunk>, decided: seq<Hunk>, status: HunkStatus)
    requires AllDecided(hunks, decided, status) && hunks == []
    ensures decided == []
  {
  }

  lemma DecidedAreAll(hunks: seq<Hunk>, decided: seq<Hunk>, status: HunkStatus)
    requires AllDecided(hunks, decided, status)
    ensures All(decided, status.Accepted?)
  {
  }

  /** What is written, for a diff between the original and a proposed text: the splice of the
      decided hunks with the copied lines' carriage returns gone, which is the splice itself
      exactly when no copied line ends in CRLF; in that case all hunks accepted give the proposed
      text, its final newline following the original, and no hunk accepted gives the original. */
  ghost predicate Writes(content: string, original: string, proposed: string, hunks: seq<Hunk>)
    requires IsDiff(original, proposed, hunks)
  {
    var o, p := Pieces(original), Pieces(proposed);
    var plain := CopiedCrlf(o, hunks, 0) == 0;
    && content == MatchFinalNewline(original, Concat(Rewritten(o, p, hunks, 0, 0)))
    && (content == MatchFinalNewline(original, Concat(Spliced(o, p, hunks, 0, 0))) <==> plain)
    && (All(hunks, true) ==>
          && (content == MatchFinalNewline(original, proposed) <==> plain)
          && (content == proposed <==> plain && (EndsWithNewline(original) <==> EndsWithNewline(proposed))))
    && (All(hunks, false) ==> (content == original <==> plain))
  }

  lemma AssembledWrites(original: string, proposed: string, hunks: seq<Hunk>)
    requires IsDiff(original, proposed, hunks)
    ensures Writes(Assembled(original, hunks), original, proposed, hunks)
  {
    hide Assembled, MatchFinalNewline, Pieces, Concat, IsDiffFrom, CopiedCrlf, All;
    AssembledIsRewritten(original, proposed, hunks);
    AssembledIsSplice(original, proposed, hunks);
    if All(hunks, true) { AcceptAllGivesProposed(original, proposed, hunks); }
    if All(hunks, false) { RejectAllGivesOriginal(original, proposed, hunks); }
  }

  // ---------------------------------------------------------------------------
  // Finalizing

  /** Finalizing acts exactly for an active proposal, on its path: it deletes exactly for a
      deletion, and else writes what its hunks, as decided so far, make of the original. */
  lemma FinalizeActs(g: Gate, id: nat, proposed: string)
    ensures Finalize(g, id).1 == None <==> id !in g.active
    ensures id in g.active ==>
              var p, action := g.active[id], Finalize(g, id).1.value;
              && action.path == p.path
              && (action == Delete(p.path) <==> p.isDeletion)
              && (action.Write? <==> !p.isDeletion)
              && (!p.isDeletion && IsDiff(p.original, proposed, p.hunks) ==>
                    Writes(action.content, p.original, proposed, p.hunks))
  {
    if id in g.active {
      var p := g.active[id];
      hide EditPeers, Writes, IsDiff, Assembled;
      if IsDiff(p.original, proposed, p.hunks) { AssembledWrites(p.original, proposed, p.hunks); }
    }
  }

  // ---------------------------------------------------------------------------
  // Inserting

  /** Inserting acts exactly when the mode in force accepts by itself: it deletes for a deletion,
      and else writes what all hunks accepted make of the original, whatever their status was. */
  lemma InsertActs(g: Gate, p: Proposal, proposed: string, accepted: seq<Hunk>)
    requires AllDecided(p.hunks, accepted, HunkStatus.Accepted)
    ensures var own := p.conv.Some? && p.conv.value in g.convModes;
            var mode := if own then g.convModes[p.conv.value] else g.defaultMode;
            && (Insert(g, p).1 == None <==> mode != WriteMode.AutoAccept)
            && (mode == WriteMode.AutoAccept ==>
                  var action := Insert(g, p).1.value;
                  && action.path == p.path
                  && (action == Delete(p.path) <==> p.isDeletion)
                  && (action.Write? <==> !p.isDeletion)
                  && (!p.isDeletion && IsDiff(p.original, proposed, p.hunks) ==>
                        && IsDiff(p.original, proposed, accepted) && All(accepted, true)
                        && Writes(action.content, p.original, proposed, accepted)
                        && CopiedCrlf(Pieces(p.original), accepted, 0) == CopiedCrlf(Pieces(p.original), p.hunks, 0)))
  {
    InsertOutcome(g, p, accepted);
    hide *;
    OwnModeDecides(g, p.conv);
    if IsDiff(p.original, proposed, p.hunks) { AcceptedWrites(p.original, proposed, p.hunks, accepted); }
  }

  lemma InsertOutcome(g: Gate, p: Proposal, accepted: seq<Hunk>)
    requires AllDecided(p.hunks, accepted, HunkStatus.Accepted)
    ensures Insert(g, p).1 ==
            if EffectiveMode(g, p.conv) != WriteMode.AutoAccept then None
            else Some(if p.isDeletion then Delete(p.path) else Write(p.path, Assembled(p.original, accepted)))
  {
    assert AcceptHunks(p.hunks, HunkStatus.Accepted) == accepted;
    hide Assembled, EffectiveMode, AllDecided, AcceptHunks;
  }

  lemma AcceptedWrites(original: string, proposed: string, hunks: seq<Hunk>, accepted: seq<Hunk>)
    requires IsDiff(original, proposed, hunks) && AllDecided(hunks, accepted, HunkStatus.Accepted)
    ensures IsDiff(original, proposed, accepted) && All(accepted, true)
    ensures Writes(Assembled(original, accepted), original, proposed, accepted)
    ensures CopiedCrlf(Pieces(original), accepted, 0) == CopiedCrlf(Pieces(original), hunks, 0)
  {
    DecidedAreAll(hunks, accepted, HunkStatus.Accepted);
    hide AllDecided, Assembled, Writes, Pieces, CopiedCrlf, All, IsDiffFrom;
    DiffIgnoresStatus(Pieces(original), Pieces(proposed), hunks, accepted, HunkStatus.Accepted, 0, 0);
    AssembledWrites(original, proposed, accepted);
  }

  /** Where an inserted proposal goes and what the observer hears, by the mode in force. */
  lemma InsertPlaces(g: Gate, p: Proposal)
    ensures var own := p.conv.Some? && p.conv.value in g.convModes;
            var mode := if own then g.convModes[p.conv.value] else g.defaultMode;
            var after := Insert(g, p).0;
            && after.hold == g.hold && after.nextId == g.nextId
            && after.defaultMode == g.defaultMode && after.convModes == g.convModes
            && after.active == (if mode == WriteMode.Interactive then g.active[p.id := p] else g.active)
            && after.deferred == (if mode == WriteMode.Deferred then g.deferred + [p] else g.deferred)
            && after.log == g.log + (if mode == WriteMode.Interactive then [Created(p.id)]
                                     else if mode == WriteMode.AutoAccept then [Finalized(p.path)] else [])
  {
    assert g.log + [] == g.log;
  }

  // ---------------------------------------------------------------------------
  // Review and acceptance at once

  /** Accepting by itself writes exactly what reviewing, accepting everything and finalizing
      writes. */
  lemma AutoAcceptIsAcceptAndFinalize(g: Gate, p: Proposal)
    ensures var reviewed := Insert(g.(defaultMode := WriteMode.Interactive, convModes := map[]), p).0;
            var decided := SetHunks(reviewed, p.id, AcceptHunks(p.hunks, HunkStatus.Accepted), ProposalAccepted);
            Insert(g.(defaultMode := WriteMode.AutoAccept, convModes := map[]), p).1 == Finalize(decided, p.id).1
  {
    hide EditPeers, Assembled;
  }

  /** Once a whole proposal is accepted or rejected, finalizing writes the proposed text, its
      final newline following the original, or the original, exactly when no copied line ends in
      CRLF. */
  lemma DecideAllThenFinalize(g: Gate, id: nat, accept: bool, proposed: string)
    requires id in g.active && !g.active[id].isDeletion && IsDiff(g.active[id].original, proposed, g.active[id].hunks)
    ensures var p, status := g.active[id], if accept then HunkStatus.Accepted else HunkStatus.Rejected;
            var decided := SetHunks(g, id, AcceptHunks(p.hunks, status),
                                    if accept then ProposalAccepted else ProposalRejected);
            var plain := CopiedCrlf(Pieces(p.original), p.hunks, 0) == 0;
            && Finalize(decided, id).1.Some? && Finalize(decided, id).1.value.Write?
            && Finalize(decided, id).1.value.path == p.path
            && var content := Finalize(decided, id).1.value.content;
               if accept then content == MatchFinalNewline(p.original, proposed) <==> plain
               else content == p.original <==> plain
  {
    var p, status := g.active[id], if accept then HunkStatus.Accepted else HunkStatus.Rejected;
    var hunks := AcceptHunks(p.hunks, status);
    var decided := SetHunks(g, id, hunks, if accept then ProposalAccepted else ProposalRejected);
    assert decided.active[id] == p.(hunks := hunks, status := decided.active[id].status);
    assert AllDecided(p.hunks, hunks, status);
    DecidedAreAll(p.hunks, hunks, status);
    hide AllDecided, SetHunks, AcceptHunks, Finalize, Pieces, CopiedCrlf, All, IsDiffFrom, MatchFinalNewline;
    DiffIgnoresStatus(Pieces(p.original), Pieces(proposed), p.hunks, hunks, status, 0, 0);
    FinalizeActs(decided, id, proposed);
  }

  // ---------------------------------------------------------------------------
  // Links and the review hold

  lemma {:induction false} LinkUpdates(view: map<nat, Proposal>, ids: seq<nat>, newId: nat, e: Event)
    requires NoDuplicates(ids)
    ensures multiset(Updates(view, ids, Link(newId)))[e] ==
            if e.Updated? && e.id in ids && e.id in view && newId !in view[e.id].conflicts then 1 else 0
  {
    if ids != [] {
      hide Updates;
      var init, last := ids[..|ids| - 1], ids[|ids| - 1];
      NoDuplicatesSnoc(ids);
      LinkUpdates(view, init, newId, e);
      UpdatesSnoc(view, init, last, Link(newId));
      assert ids == init + [last];
    }
  }

  /** Marking a conflict adds the new id, behind the old ones, to the links of each tracked peer
      that lacks it, tells the observer of each of these once, and changes nothing else. */
  lemma MarkLinksPeers(g: Gate, newId: nat, peers: seq<nat>) returns (updates: seq<Event>)
    requires Disjoint(g) && NoDuplicates(peers)
    ensures var after := EditPeers(g, peers, Link(newId));
            && View(after).Keys == View(g).Keys
            && (forall k :: k in View(g) ==>
                  View(after)[k] == if k in peers && newId !in View(g)[k].conflicts
                                    then View(g)[k].(conflicts := View(g)[k].conflicts + [newId]) else View(g)[k])
            && after.log == g.log + updates
            && (forall e :: multiset(updates)[e] ==
                  if e.Updated? && e.id in peers && e.id in View(g) && newId !in View(g)[e.id].conflicts then 1 else 0)
  {
    hide View, Disjoint, EditPeers, Updates, NoDuplicates;
    EditPeersEdits(g, peers, Link(newId));
    EditPeersLog(g, peers, Link(newId));
    updates := Updates(View(g), peers, Link(newId));
    forall e ensures multiset(updates)[e] ==
                     if e.Updated? && e.id in peers && e.id in View(g) && newId !in View(g)[e.id].conflicts then 1 else 0
    {
      LinkUpdates(View(g), peers, newId, e);
    }
  }

  /** Holding proposals appends those whose ids are not held yet, the first of each id, and keeps
      what is held. */
  lemma {:induction false} HoldKeepsFirst(hold: seq<Proposal>, ps: seq<Proposal>)
    ensures hold <= Held(hold, ps) && ById(Held(hold, ps)) == ById(hold + ps)
    ensures Distinct(hold) ==> Distinct(Held(hold, ps))
  {
    if ps == [] {
      NothingIsHeld(hold);
      assert hold + ps == hold;
    } else {
      hide *;
      var init, last := ps[..|ps| - 1], ps[|ps| - 1];
      assert ps == init + [last] && hold + ps == (hold + init) + [last];
      HoldKeepsFirst(hold, init);
      HeldSnoc(hold, init, last);
      HoldsById(Held(hold, init), last.id);
      ByIdSnoc(Held(hold, init), last);
      ByIdSnoc(hold + init, last);
      DistinctSnoc(Held(hold, init), last);
    }
  }

  lemma WithoutSnoc(ps: seq<Proposal>, p: Proposal, ids: seq<nat>)
    ensures Without(ps + [p], ids) == if p.id in ids then Without(ps, ids) else Without(ps, ids) + [p]
  {
    assert (ps + [p])[..|ps|] == ps;
  }

  lemma NothingWithout(ids: seq<nat>)
    ensures Without([], ids) == []
  {
  }

  lemma {:induction false} WithoutIsKept(ps: seq<Proposal>, ids: seq<nat>, keep: Proposal -> bool) returns (places: seq<nat>)
    requires forall p :: keep(p) <==> p.id !in ids
    ensures PartAt(ps, Without(ps, ids), places) && PlacesOf(ps, places, keep)
  {
    hide *;
    if ps == [] {
      places := [];
      NothingWithout(ids);
      NoPart(keep);
    } else {
      var init, last := ps[..|ps| - 1], ps[|ps| - 1];
      assert ps == init + [last];
      places := WithoutIsKept(init, ids, keep);
      WithoutSnoc(init, last, ids);
      Selection.PartOneMore(init, Without(init, ids), places, last, keep);
      places := if keep(last) then places + [|init|] else places;
    }
  }

  /** Releasing ids keeps the other held proposals, in their order. */
  lemma ReleaseKeepsOthers(ps: seq<Proposal>, ids: seq<nat>) returns (places: seq<nat>)
    ensures PartAt(ps, Without(ps, ids), places)
    ensures forall i :: 0 <= i < |ps| ==> (i in places <==> ps[i].id !in ids)
  {
    hide Without, PartAt;
    places := WithoutIsKept(ps, ids, (p: Proposal) => p.id !in ids);
  }
}
