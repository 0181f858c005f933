/** Every run of the write gate, what finalizing does in it, and proposers that do not overlap.
    Models crates/gaviero-core/src/write_gate.rs and its callers in
    crates/gaviero-core/src/acp/client.rs. */
module GateProtocol {
  import opened Json
  import opened HunkAssembly
  import opened WriteGate
  import opened GateBuckets
  import opened GateWorld

  lemma DecideShrinks(g: Gate, id: nat, hunks: seq<Hunk>, status: ProposalStatus)
    requires Disjoint(g)
    ensures Disjoint(SetHunks(g, id, hunks, status)) && SetHunks(g, id, hunks, status).nextId == g.nextId
    ensures Shrinks(View(g), View(SetHunks(g, id, hunks, status)))
  {
    if id in g.active {
      var p := g.active[id].(hunks := hunks, status := status);
      assert SetHunks(g, id, hunks, status) == g.(active := g.active[id := p], log := g.log + [Updated(id)]);
      ActiveReplaced(g, p);
      hide View, Disjoint;
      LogIsNotTracked(g.(active := g.active[id := p]), g.log + [Updated(id)]);
    }
  }

  lemma ActiveReplaced(g: Gate, p: Proposal)
    requires Disjoint(g) && p.id in g.active
    ensures Disjoint(g.(active := g.active[p.id := p]))
    ensures View(g)[p.id] == g.active[p.id] && View(g.(active := g.active[p.id := p])) == View(g)[p.id := p]
  {
    hide ById, Distinct;
    assert g.active[p.id := p].Keys == g.active.Keys;
  }

  lemma ReleaseAllShrinks(g: Gate)
    requires Disjoint(g)
    ensures Disjoint(g.(hold := [])) && Shrinks(View(g), View(g.(hold := [])))
  {
  }

  lemma ReleaseShrinks(g: Gate, ids: seq<nat>)
    requires Disjoint(g)
    ensures Disjoint(g.(hold := Without(g.hold, ids))) && Shrinks(View(g), View(g.(hold := Without(g.hold, ids))))
  {
    hide View, Disjoint, Without;
    ReleaseView(g, ids);
  }

  lemma DrainShrinks(g: Gate, conv: Option<string>)
    requires Disjoint(g)
    ensures Disjoint(DrainConv(g, conv).0) && View(DrainConv(g, conv).0) == View(g)
    ensures Disjoint(DrainAll(g).0) && View(DrainAll(g).0) == View(g)
    ensures DrainConv(g, conv).0.nextId == g.nextId == DrainAll(g).0.nextId
  {
    hide View, Disjoint;
    DrainConvConserves(g, conv);
    DrainAllConserves(g);
  }

  lemma TrackedLinksAreGood(view: map<nat, Proposal>, seen: map<nat, set<nat>>, committed: set<nat>, id: nat)
    requires GoodLinks(view, seen, committed) && id in view
    ensures NoDuplicates(view[id].conflicts)
  {
  }

  lemma EditedShrinks(view: map<nat, Proposal>, after: map<nat, Proposal>, id: nat, ids: seq<nat>)
    requires Edited(view - {id}, after, ids, Edit.Supersede)
    ensures Shrinks(view, after)
  {
  }

  lemma FinishShrinks(w: World, id: nat)
    requires Inv(w)
    ensures Disjoint(Finalize(w.gate, id).0) && Finalize(w.gate, id).0.nextId == w.gate.nextId
    ensures Shrinks(View(w.gate), View(Finalize(w.gate, id).0))
  {
    if id in w.gate.active {
      assert View(w.gate)[id] == w.gate.active[id];
      TrackedLinksAreGood(View(w.gate), w.seen, w.committed, id);
      hide *;
      FinalizeView(w.gate, id);
      EditedShrinks(View(w.gate), View(Finalize(w.gate, id).0), id, w.gate.active[id].conflicts);
    }
  }

  lemma AbandonKeepsInv(w: World, id: nat)
    requires Inv(w)
    ensures Inv(w.(inflight := w.inflight - {id}))
  {
    hide View, Disjoint, GoodLinks, AllBefore;
  }

  lemma SettingsKeepInv(w: World, gate: Gate)
    requires Inv(w) && View(gate) == View(w.gate) && gate.nextId == w.gate.nextId && Disjoint(gate)
    ensures Inv(w.(gate := gate))
  {
    hide View, Disjoint;
    ShrinkKeepsInv(w, gate);
  }

  lemma ModesAreNotTracked(g: Gate, mode: WriteMode, convModes: map<string, WriteMode>)
    ensures var changed := g.(defaultMode := mode, convModes := convModes);
            View(changed) == View(g) && (Disjoint(g) ==> Disjoint(changed))
  {
    hide ById, Distinct;
  }

  lemma InvIsDisjoint(w: World)
    requires Inv(w)
    ensures Disjoint(w.gate)
  {
  }

  lemma QueueStepKeepsInv(w: World, op: Op)
    requires Inv(w) && (op.Drain? || op.DrainEverything? || op.Release? || op.ReleaseEverything?)
    ensures Inv(Apply(w, op))
  {
    InvIsDisjoint(w);
    hide Inv, View, Disjoint, Shrinks, DrainConv, DrainAll, Without, BeginIn, CommitIn, SetHunks, Finalize;
    match op {
      case Drain(conv) => DrainShrinks(w.gate, conv); SettingsKeepInv(w, DrainConv(w.gate, conv).0);
      case DrainEverything => DrainShrinks(w.gate, None); SettingsKeepInv(w, DrainAll(w.gate).0);
      case Release(ids) => ReleaseShrinks(w.gate, ids); ShrinkKeepsInv(w, Apply(w, op).gate);
      case ReleaseEverything => ReleaseAllShrinks(w.gate); ShrinkKeepsInv(w, Apply(w, op).gate);
    }
  }

  lemma ModeStep(w: World, op: Op) returns (mode: WriteMode, convModes: map<string, WriteMode>)
    requires op.SetDefaultMode? || op.SetModeOf? || op.ClearModeOf?
    ensures Apply(w, op) == w.(gate := w.gate.(defaultMode := mode, convModes := convModes))
  {
    hide DrainConv, DrainAll, Without, BeginIn, CommitIn, SetHunks, Finalize;
    mode, convModes := Apply(w, op).gate.defaultMode, Apply(w, op).gate.convModes;
  }

  lemma ModeStepKeepsInv(w: World, op: Op)
    requires Inv(w) && (op.SetDefaultMode? || op.SetModeOf? || op.ClearModeOf?)
    ensures Inv(Apply(w, op))
  {
    hide *;
    InvIsDisjoint(w);
    var mode, convModes := ModeStep(w, op);
    ModesAreNotTracked(w.gate, mode, convModes);
    SettingsKeepInv(w, w.gate.(defaultMode := mode, convModes := convModes));
  }

  lemma ProposerStep(w: World, op: Op)
    ensures op.Begin? ==> Apply(w, op) == BeginIn(w, op.path, op.conv)
    ensures op.Commit? ==> Apply(w, op) == if op.id in w.inflight then CommitIn(w, op) else w
    ensures op.Abandon? ==> Apply(w, op) == w.(inflight := w.inflight - {op.id})
  {
    hide BeginIn, CommitIn, DrainConv, DrainAll, Without, SetHunks, Finalize;
  }

  lemma ReviewStep(w: World, op: Op)
    ensures op.Decide? ==> Apply(w, op) == w.(gate := SetHunks(w.gate, op.id, op.hunks, op.status))
    ensures op.Finish? ==> Apply(w, op) == w.(gate := Finalize(w.gate, op.id).0)
  {
    hide BeginIn, CommitIn, DrainConv, DrainAll, Without, SetHunks, Finalize;
  }

  lemma StepKeepsInv(w: World, op: Op)
    requires Inv(w)
    ensures Inv(Apply(w, op))
  {
    hide *;
    InvIsDisjoint(w);
    ProposerStep(w, op);
    ReviewStep(w, op);
    match op {
      case Begin(path, conv) => BeginKeepsInv(w, path, conv);
      case Commit(id, _, _, _) => if id in w.inflight { CommitKeepsInv(w, op); }
      case Abandon(id) => AbandonKeepsInv(w, id);
      case Decide(id, hunks, status) =>
        DecideShrinks(w.gate, id, hunks, status);
        ShrinkKeepsInv(w, SetHunks(w.gate, id, hunks, status));
      case Finish(id) =>
        FinishShrinks(w, id);
        ShrinkKeepsInv(w, Finalize(w.gate, id).0);
      case _ =>
        if op.SetDefaultMode? || op.SetModeOf? || op.ClearModeOf? { ModeStepKeepsInv(w, op); } else { QueueStepKeepsInv(w, op); }
    }
  }

  /** In every run, however the proposers interleave, two tracked proposals on one path are
      linked, both ways and once, exactly when one was committed before the other began; links
      between tracked proposals never cross paths. */
  lemma EveryRunKeepsInv(mode: WriteMode, ops: seq<Op>)
    ensures Inv(Run(Start(mode), ops))
  {
    assert View(Start(mode).gate) == map[];
    assert Inv(Start(mode));
    hide Inv, Start;
    RunKeepsInv(Start(mode), ops);
  }

  lemma {:induction false} RunKeepsInv(w: World, ops: seq<Op>)
    requires Inv(w)
    ensures Inv(Run(w, ops))
  {
    if ops != [] {
      hide Inv, Apply;
      RunKeepsInv(w, ops[..|ops| - 1]);
      StepKeepsInv(Run(w, ops[..|ops| - 1]), ops[|ops| - 1]);
    }
  }

  // ---------------------------------------------------------------------------
  // What finalizing does

  /** The updates a supersession sends: one for each tracked peer, no other event. */
  lemma {:induction false} SupersedeUpdates(view: map<nat, Proposal>, ids: seq<nat>, e: Event)
    requires NoDuplicates(ids)
    ensures multiset(Updates(view, ids, Edit.Supersede))[e] == if e.Updated? && e.id in ids && e.id in view then 1 else 0
  {
    if ids != [] {
      var init, last := ids[..|ids| - 1], ids[|ids| - 1];
      NoDuplicatesSnoc(ids);
      SupersedeUpdates(view, init, e);
      assert ids == init + [last];
    }
  }

  lemma LinksAreRivals(w: World, id: nat)
    requires Inv(w) && id in w.gate.active
    ensures var view := View(w.gate);
            && id in view && view[id] == w.gate.active[id] && NoDuplicates(view[id].conflicts)
            && forall q :: q in view ==> (q in view[id].conflicts <==> Rivals(view, w.seen, id, q))
  {
    assert View(w.gate)[id] == w.gate.active[id];
    hide View, Disjoint, GoodIds, GoodTickets, Rivals, AllBefore;
  }

  /** Finalizing supersedes exactly the rivals that are still tracked, with exactly one update
      each, and leaves every other proposal as it was. */
  lemma FinalizeSupersedesRivals(w: World, id: nat) returns (updates: seq<Event>)
    requires Inv(w) && id in w.gate.active
    ensures var view, after := View(w.gate), View(Finalize(w.gate, id).0);
            && id in view
            && after.Keys == view.Keys - {id}
            && (forall q :: q in after ==>
                  after[q] == if Rivals(view, w.seen, id, q) then view[q].(status := ProposalStatus.Superseded) else view[q])
            && Finalize(w.gate, id).0.log == w.gate.log + updates + [Finalized(view[id].path)]
            && (forall e :: multiset(updates)[e] ==
                  if e.Updated? && e.id in after && Rivals(view, w.seen, id, e.id) then 1 else 0)
  {
    var view, after := View(w.gate), View(Finalize(w.gate, id).0);
    LinksAreRivals(w, id);
    InvIsDisjoint(w);
    hide Inv, View, Disjoint, Finalize, Rivals, Updates, NoDuplicates;
    FinalizeView(w.gate, id);
    assert after.Keys == view.Keys - {id};
    updates := Updates(view - {id}, view[id].conflicts, Edit.Supersede);
    forall e ensures multiset(updates)[e] ==
                     if e.Updated? && e.id in after && Rivals(view, w.seen, id, e.id) then 1 else 0
    {
      SupersedeUpdates(view - {id}, view[id].conflicts, e);
    }
  }

  // ---------------------------------------------------------------------------
  // Proposers that do not overlap

  /** A proposer that runs to its end before the next begins, or any other step. */
  datatype Turn =
    | Propose(path: string, conv: Option<string>, original: string, hunks: seq<Hunk>, isDeletion: bool)
    | Skip(skippedPath: string, skippedConv: Option<string>)
    | Other(op: Op)

  predicate IsTurn(turn: Turn) {
    turn.Other? ==> !turn.op.Begin? && !turn.op.Commit? && !turn.op.Abandon?
  }

  function TakeTurn(w: World, turn: Turn): World {
    match turn
    case Propose(path, conv, original, hunks, isDeletion) =>
      Apply(Apply(w, Begin(path, conv)), Commit(w.gate.nextId, original, hunks, isDeletion))
    case Skip(path, conv) => Apply(Apply(w, Begin(path, conv)), Abandon(w.gate.nextId))
    case Other(op) => Apply(w, op)
  }

  function RunTurns(w: World, turns: seq<Turn>): World {
    if turns == [] then w else TakeTurn(RunTurns(w, turns[..|turns| - 1]), turns[|turns| - 1])
  }

  ghost predicate NoneOverlapped(w: World) {
    w.inflight == map[] && forall p, q :: p in w.committed && q in w.committed && p < q ==> q in w.seen && p in w.seen[q]
  }

  lemma TurnKeeps(w: World, turn: Turn)
    requires Inv(w) && NoneOverlapped(w) && IsTurn(turn)
    ensures Inv(TakeTurn(w, turn)) && NoneOverlapped(TakeTurn(w, turn))
  {
    assert GoodIds(w, View(w.gate));
    hide Inv, GoodIds, NoneOverlapped, Apply;
    match turn {
      case Propose(path, conv, original, hunks, isDeletion) =>
        var begun := Apply(w, Begin(path, conv));
        StepKeepsInv(w, Begin(path, conv));
        StepKeepsInv(begun, Commit(w.gate.nextId, original, hunks, isDeletion));
        ProposeOverlapsNone(w, path, conv, original, hunks, isDeletion);
      case Skip(path, conv) =>
        StepKeepsInv(w, Begin(path, conv));
        StepKeepsInv(Apply(w, Begin(path, conv)), Abandon(w.gate.nextId));
        SkipOverlapsNone(w, path, conv);
      case Other(op) =>
        StepKeepsInv(w, op);
        OtherOverlapsNone(w, op);
    }
  }

  lemma ProposeOverlapsNone(w: World, path: string, conv: Option<string>, original: string, hunks: seq<Hunk>, isDeletion: bool)
    requires GoodIds(w, View(w.gate)) && NoneOverlapped(w)
    ensures NoneOverlapped(TakeTurn(w, Propose(path, conv, original, hunks, isDeletion)))
  {
    hide View, EditPeers, Insert, Candidates;
  }

  lemma SkipOverlapsNone(w: World, path: string, conv: Option<string>)
    requires GoodIds(w, View(w.gate)) && NoneOverlapped(w)
    ensures NoneOverlapped(TakeTurn(w, Skip(path, conv)))
  {
    hide View, Candidates;
    assert TakeTurn(w, Skip(path, conv)).inflight == map[];
  }

  lemma OtherOverlapsNone(w: World, op: Op)
    requires NoneOverlapped(w) && IsTurn(Other(op))
    ensures NoneOverlapped(TakeTurn(w, Other(op)))
  {
    hide View, DrainConv, DrainAll, Finalize, SetHunks, Without;
  }

  lemma {:induction false} TurnsKeep(mode: WriteMode, turns: seq<Turn>)
    requires forall t :: t in turns ==> IsTurn(t)
    ensures Inv(RunTurns(Start(mode), turns)) && NoneOverlapped(RunTurns(Start(mode), turns))
  {
    if turns == [] {
      EveryRunKeepsInv(mode, []);
    } else {
      TurnsKeep(mode, turns[..|turns| - 1]);
      TurnKeeps(RunTurns(Start(mode), turns[..|turns| - 1]), turns[|turns| - 1]);
    }
  }

  /** When no two proposers overlap, the tracked proposals on a path are a clique: each is
      linked to every other one. */
  lemma SequentialProposersFormCliques(mode: WriteMode, turns: seq<Turn>, p: nat, q: nat)
    requires forall t :: t in turns ==> IsTurn(t)
    requires p in View(RunTurns(Start(mode), turns).gate) && q in View(RunTurns(Start(mode), turns).gate)
    ensures var view := View(RunTurns(Start(mode), turns).gate);
            q in view[p].conflicts <==> p != q && view[p].path == view[q].path
  {
    var w := RunTurns(Start(mode), turns);
    TurnsKeep(mode, turns);
    assert q in View(w.gate)[p].conflicts <==> Rivals(View(w.gate), w.seen, p, q);
    assert p in w.committed && q in w.committed;
  }

  /** Then finalizing a proposal supersedes every other one still tracked on its path, with
      exactly one update each, and changes no other proposal. */
  lemma SequentialFinalizeSupersedesPath(mode: WriteMode, turns: seq<Turn>, id: nat) returns (updates: seq<Event>)
    requires forall t :: t in turns ==> IsTurn(t)
    requires id in RunTurns(Start(mode), turns).gate.active
    ensures var gate := RunTurns(Start(mode), turns).gate;
            var view, after := View(gate), View(Finalize(gate, id).0);
            && id in view
            && after.Keys == view.Keys - {id}
            && (forall q :: q in after ==>
                  after[q] == if view[q].path == view[id].path then view[q].(status := ProposalStatus.Superseded) else view[q])
            && Finalize(gate, id).0.log == gate.log + updates + [Finalized(view[id].path)]
            && (forall e :: multiset(updates)[e] ==
                  if e.Updated? && e.id in after && view[e.id].path == view[id].path then 1 else 0)
  {
    hide *;
    var w := RunTurns(Start(mode), turns);
    TurnsKeep(mode, turns);
    updates := FinalizeSupersedesRivals(w, id);
    var view := View(w.gate);
    forall q | q in view && q != id ensures Rivals(view, w.seen, id, q) <==> view[q].path == view[id].path {
      RivalsWithoutOverlap(w, id, q);
    }
  }

  lemma RivalsWithoutOverlap(w: World, id: nat, q: nat)
    requires Inv(w) && NoneOverlapped(w) && id in View(w.gate) && q in View(w.gate) && q != id
    ensures Rivals(View(w.gate), w.seen, id, q) <==> View(w.gate)[q].path == View(w.gate)[id].path
  {
    assert GoodIds(w, View(w.gate));
    hide View, Inv, AllBefore;
    assert id in w.committed && q in w.committed;
  }

  // ---------------------------------------------------------------------------
  // Proposers that overlap

  /** What an id saw is fixed when it is allocated. */
  lemma {:induction false} SeenIsFixed(w: World, ops: seq<Op>, k: nat)
    requires Inv(w) && k in w.seen
    ensures k in Run(w, ops).seen && Run(w, ops).seen[k] == w.seen[k]
  {
    hide Inv, Apply;
    if ops != [] {
      var before, op := Run(w, ops[..|ops| - 1]), ops[|ops| - 1];
      SeenIsFixed(w, ops[..|ops| - 1], k);
      RunKeepsInv(w, ops[..|ops| - 1]);
      StepKeepsSeen(before, op, k);
    }
  }

  lemma StepKeepsSeen(w: World, op: Op, k: nat)
    requires Inv(w) && k in w.seen
    ensures k in Apply(w, op).seen && Apply(w, op).seen[k] == w.seen[k]
  {
    assert GoodIds(w, View(w.gate)) && k < w.gate.nextId;
    hide *;
    SeenAfter(w, op);
  }

  lemma SeenAfter(w: World, op: Op)
    ensures Apply(w, op).seen == if op.Begin? then w.seen[w.gate.nextId := w.committed] else w.seen
  {
    hide DrainConv, DrainAll, SetHunks, Finalize, Without, EditPeers, Insert, Candidates, Built;
  }

  /** A proposer that began while another was under way is never ordered with it. */
  lemma OverlapIsUnordered(w: World, p: nat, path: string, conv: Option<string>, later: seq<Op>)
    requires Inv(w) && p in w.inflight
    ensures p != w.gate.nextId && !Ordered(Run(Apply(w, Begin(path, conv)), later).seen, p, w.gate.nextId)
  {
    var begun, q := Apply(w, Begin(path, conv)), w.gate.nextId;
    StepKeepsInv(w, Begin(path, conv));
    assert p < q && p !in w.committed && p in w.seen && begun.seen == w.seen[q := w.committed];
    assert AllBefore(w.seen[p], w.committed, p);
    assert q !in w.seen[p];
    hide Inv, Run, Apply;
    SeenIsFixed(begun, later, p);
    SeenIsFixed(begun, later, q);
  }

  /** Finalizing one proposal leaves every tracked proposal that is not its rival as it was. */
  lemma FinalizeSparesOthers(w: World, id: nat, q: nat)
    requires Inv(w) && id in w.gate.active && q in View(w.gate) && q != id
    requires id in View(w.gate) ==> !Rivals(View(w.gate), w.seen, id, q)
    ensures q in View(Finalize(w.gate, id).0) && View(Finalize(w.gate, id).0)[q] == View(w.gate)[q]
  {
    hide Inv, View, Finalize, Rivals;
    var updates := FinalizeSupersedesRivals(w, id);
    assert q in View(w.gate).Keys - {id};
  }

  /** In any run, a proposer that begins while another is under way escapes its supersession,
      and the other one escapes its: whatever happens later, finalizing either of them leaves the
      other as it was, even on the same path. */
  lemma OverlappingProposersEscape(mode: WriteMode, ops: seq<Op>, p: nat, path: string, conv: Option<string>, later: seq<Op>)
    requires p in Run(Start(mode), ops).inflight
    ensures var q := Run(Start(mode), ops).gate.nextId;
            var gate := Run(Apply(Run(Start(mode), ops), Begin(path, conv)), later).gate;
            && (p in gate.active && q in View(gate) ==>
                  q in View(Finalize(gate, p).0) && View(Finalize(gate, p).0)[q] == View(gate)[q])
            && (q in gate.active && p in View(gate) ==>
                  p in View(Finalize(gate, q).0) && View(Finalize(gate, q).0)[p] == View(gate)[p])
  {
    var w := Run(Start(mode), ops);
    EveryRunKeepsInv(mode, ops);
    StepKeepsInv(w, Begin(path, conv));
    RunKeepsInv(Apply(w, Begin(path, conv)), later);
    OverlapIsUnordered(w, p, path, conv, later);
    hide Inv, Run, Apply, Start, View, Finalize, Ordered;
    var q, z := w.gate.nextId, Run(Apply(w, Begin(path, conv)), later);
    if p in z.gate.active && q in View(z.gate) { FinalizeSparesOthers(z, p, q); }
    if q in z.gate.active && p in View(z.gate) { FinalizeSparesOthers(z, q, p); }
  }

  /** A proposal without peers is only inserted. */
  lemma CommitAlone(w: World, op: Op)
    requires op.Commit? && op.id in w.inflight && w.inflight[op.id].peers == []
    requires EffectiveMode(w.gate, w.inflight[op.id].conv) == WriteMode.Interactive
    ensures CommitIn(w, op).gate.active == w.gate.active[op.id := Built(op.id, w.inflight[op.id], op)]
    ensures CommitIn(w, op).inflight == w.inflight - {op.id}
    ensures forall conv :: EffectiveMode(CommitIn(w, op).gate, conv) == EffectiveMode(w.gate, conv)
  {
  }

  lemma RunSnoc(w: World, ops: seq<Op>, op: Op)
    ensures Run(w, ops + [op]) == Apply(Run(w, ops), op)
  {
    assert (ops + [op])[..|ops|] == ops;
  }

  lemma TwoBegin(path: string)
    ensures var w := Apply(Apply(Start(WriteMode.Interactive), Begin(path, None)), Begin(path, None));
            && w.inflight == map[1 := Ticket(path, None, []), 2 := Ticket(path, None, [])]
            && w.gate.active == map[] && forall conv :: EffectiveMode(w.gate, conv) == WriteMode.Interactive
  {
    var w0 := Start(WriteMode.Interactive);
    var w1 := Apply(w0, Begin(path, None));
    assert IdsOn(w0.gate, path) == {} && IdsOn(w1.gate, path) == {};
  }

  /** It happens: for any two writes to one path, the second is left pending when the first is
      finalized. */
  lemma TwoWritesAtOnce(path: string, original1: string, hunks1: seq<Hunk>, original2: string, hunks2: seq<Hunk>)
    requires hunks1 != [] && hunks2 != []
    ensures var ops := [Begin(path, None), Begin(path, None)]
                       + [Commit(1, original1, hunks1, false)] + [Commit(2, original2, hunks2, false)];
            var gate := Run(Start(WriteMode.Interactive), ops).gate;
            && 1 in gate.active && 2 in gate.active && gate.active[1].path == gate.active[2].path == path
            && gate.active[1].hunks == hunks1 && gate.active[2].hunks == hunks2
            && 2 in View(Finalize(gate, 1).0) && View(Finalize(gate, 1).0)[2].status == ProposalPending
  {
    var w0, begin := Start(WriteMode.Interactive), Begin(path, None);
    var c1, c2 := Commit(1, original1, hunks1, false), Commit(2, original2, hunks2, false);
    var w1 := Apply(w0, begin);
    var w2 := Apply(w1, begin);
    TwoBegin(path);
    assert 1 in w1.inflight && w1.gate.nextId == 2;
    assert Run(w0, [begin]) == w1 by { RunSnoc(w0, [], begin); assert [] + [begin] == [begin]; }
    assert Run(w0, [begin, begin]) == w2 by { RunSnoc(w0, [begin], begin); assert [begin] + [begin] == [begin, begin]; }
    CommitAlone(w2, c1);
    var w3 := Apply(w2, c1);
    CommitAlone(w3, c2);
    var w4 := Apply(w3, c2);
    RunSnoc(w0, [begin, begin], c1);
    RunSnoc(w0, [begin, begin] + [c1], c2);
    assert w4.gate.active == map[1 := Built(1, Ticket(path, None, []), c1), 2 := Built(2, Ticket(path, None, []), c2)];
    assert View(w4.gate)[2] == w4.gate.active[2];
    assert [] + [c1] == [c1];
    RunSnoc(w2, [], c1);
    RunSnoc(w2, [c1], c2);
    OverlappingProposersEscape(WriteMode.Interactive, [begin], 1, path, None, [c1] + [c2]);
  }
}
