/** Runs of the write gate. A proposer takes the lock twice: once to read the ids already on the
    path and to allocate its own id, and once more, after building the proposal, to insert it
    and link its peers (crates/gaviero-core/src/acp/client.rs:229-306). Other proposers may act
    in between. */
module GateWorld {
  import opened Json
  import opened HunkAssembly
  import opened WriteGate
  import opened GateBuckets

  /** What a proposer carries from its first critical section to its second. */
  datatype Ticket = Ticket(path: string, conv: Option<string>, peers: seq<nat>)

  /** The gate and its proposers. `committed` are the ids that reached their second section;
      `seen[id]` is what had been committed when `id` was allocated. */
  datatype World = World(gate: Gate, inflight: map<nat, Ticket>, committed: set<nat>, seen: map<nat, set<nat>>)

  datatype Op =
    | Begin(path: string, conv: Option<string>)
    | Commit(id: nat, original: string, hunks: seq<Hunk>, isDeletion: bool)
    | Abandon(id: nat)
    | Drain(conv: Option<string>)
    | DrainEverything
    | Release(ids: seq<nat>)
    | ReleaseEverything
    | Decide(id: nat, hunks: seq<Hunk>, status: ProposalStatus)
    | Finish(id: nat)
    | SetDefaultMode(mode: WriteMode)
    | SetModeOf(convId: string, mode: WriteMode)
    | ClearModeOf(convId: string)

  function Start(mode: WriteMode): World {
    World(Gate(map[], [], [], 1, mode, map[], []), map[], {}, map[])
  }

  function Built(id: nat, t: Ticket, op: Op): Proposal
    requires op.Commit?
  {
    Proposal(id, t.path, op.original, op.hunks, ProposalPending, op.isDeletion, t.conv, t.peers)
  }

  function BeginIn(w: World, path: string, conv: Option<string>): World {
    var id := w.gate.nextId;
    w.(gate := w.gate.(nextId := id + 1),
       inflight := w.inflight[id := Ticket(path, conv, Candidates(w.gate, path))],
       seen := w.seen[id := w.committed])
  }

  function CommitIn(w: World, op: Op): World
    requires op.Commit? && op.id in w.inflight
  {
    var t := w.inflight[op.id];
    w.(gate := EditPeers(Insert(w.gate, Built(op.id, t, op)).0, t.peers, Link(op.id)),
       inflight := w.inflight - {op.id},
       committed := w.committed + {op.id})
  }

  function Apply(w: World, op: Op): World {
    match op
    case Begin(path, conv) => BeginIn(w, path, conv)
    case Commit(id, _, _, _) => if id in w.inflight then CommitIn(w, op) else w
    case Abandon(id) => w.(inflight := w.inflight - {id})
    case Drain(conv) => w.(gate := DrainConv(w.gate, conv).0)
    case DrainEverything => w.(gate := DrainAll(w.gate).0)
    case Release(ids) => w.(gate := w.gate.(hold := Without(w.gate.hold, ids)))
    case ReleaseEverything => w.(gate := w.gate.(hold := []))
    case Decide(id, hunks, status) => w.(gate := SetHunks(w.gate, id, hunks, status))
    case Finish(id) => w.(gate := Finalize(w.gate, id).0)
    case SetDefaultMode(mode) => w.(gate := w.gate.(defaultMode := mode))
    case SetModeOf(c, mode) => w.(gate := w.gate.(convModes := w.gate.convModes[c := mode]))
    case ClearModeOf(c) => w.(gate := w.gate.(convModes := w.gate.convModes - {c}))
  }

  function Run(w: World, ops: seq<Op>): World {
    if ops == [] then w else Apply(Run(w, ops[..|ops| - 1]), ops[|ops| - 1])
  }

  // ---------------------------------------------------------------------------
  // The invariant

  /** One of the two proposers had committed before the other began. */
  ghost predicate Ordered(seen: map<nat, set<nat>>, p: nat, q: nat) {
    (q in seen && p in seen[q]) || (p in seen && q in seen[p])
  }

  ghost predicate Rivals(view: map<nat, Proposal>, seen: map<nat, set<nat>>, p: nat, q: nat)
    requires p in view && q in view
  {
    p != q && view[p].path == view[q].path && Ordered(seen, p, q)
  }

  ghost predicate GoodIds(w: World, view: map<nat, Proposal>) {
    && (forall k :: k in view ==> view[k].id == k && k in w.committed)
    && (forall k :: k in w.committed || k in w.inflight ==> k < w.gate.nextId && k in w.seen)
    && (forall k :: k in w.inflight ==> k !in w.committed)
    && (forall k :: k in w.seen ==> k < w.gate.nextId && AllBefore(w.seen[k], w.committed, k))
  }

  /** The ids that `k` saw were committed and allocated before it. */
  ghost predicate AllBefore(seen: set<nat>, committed: set<nat>, k: nat) {
    forall r :: r in seen ==> r in committed && r < k
  }

  ghost predicate GoodTicket(t: Ticket, seen: set<nat>, view: map<nat, Proposal>) {
    && NoDuplicates(t.peers)
    && (forall r :: r in t.peers ==> r in seen)
    && (forall r :: r in view ==> (r in t.peers <==> r in seen && view[r].path == t.path))
  }

  ghost predicate GoodTickets(w: World, view: map<nat, Proposal>) {
    forall id :: id in w.inflight && id in w.seen ==> GoodTicket(w.inflight[id], w.seen[id], view)
  }

  /** Tracked proposals are linked both ways, without duplicates, exactly to their rivals. */
  ghost predicate GoodLinks(view: map<nat, Proposal>, seen: map<nat, set<nat>>, committed: set<nat>) {
    && (forall p :: p in view ==> NoDuplicates(view[p].conflicts))
    && (forall p, r :: p in view && r in view[p].conflicts ==> r in committed)
    && (forall p, q :: p in view && q in view ==> (q in view[p].conflicts <==> Rivals(view, seen, p, q)))
  }

  ghost predicate Inv(w: World) {
    && Disjoint(w.gate)
    && GoodIds(w, View(w.gate))
    && GoodTickets(w, View(w.gate))
    && GoodLinks(View(w.gate), w.seen, w.committed)
  }

  // ---------------------------------------------------------------------------
  // Every step keeps it

  /** Nothing new is tracked, and what stays tracked keeps its identity, path and links. */
  ghost predicate Shrinks(before: map<nat, Proposal>, after: map<nat, Proposal>) {
    forall k :: k in after ==> k in before && after[k].id == before[k].id && after[k].path == before[k].path
                               && after[k].conflicts == before[k].conflicts
  }

  lemma ShrinkKeepsInv(w: World, gate: Gate)
    requires Inv(w) && Disjoint(gate) && gate.nextId == w.gate.nextId
    requires Shrinks(View(w.gate), View(gate))
    ensures Inv(w.(gate := gate))
  {
    var view, after := View(w.gate), View(gate);
    assert GoodLinks(after, w.seen, w.committed) by {
      forall p, q | p in after && q in after
        ensures q in after[p].conflicts <==> Rivals(after, w.seen, p, q)
      {
        assert q in view[p].conflicts <==> Rivals(view, w.seen, p, q);
      }
    }
    forall id | id in w.inflight && id in w.seen ensures GoodTicket(w.inflight[id], w.seen[id], after) {
      assert GoodTicket(w.inflight[id], w.seen[id], view);
    }
  }

  lemma BeginKeepsLinks(view: map<nat, Proposal>, seen: map<nat, set<nat>>, committed: set<nat>, id: nat)
    requires GoodLinks(view, seen, committed) && id !in view
    ensures GoodLinks(view, seen[id := committed], committed)
  {
    var seen' := seen[id := committed];
    forall p, q | p in view && q in view
      ensures q in view[p].conflicts <==> Rivals(view, seen', p, q)
    {
      assert q in view[p].conflicts <==> Rivals(view, seen, p, q);
    }
  }

  lemma BeginKeepsTickets(w: World, path: string, conv: Option<string>)
    requires Inv(w)
    ensures GoodTickets(BeginIn(w, path, conv), View(w.gate))
  {
    var after, view, id := BeginIn(w, path, conv), View(w.gate), w.gate.nextId;
    forall k | k in after.inflight && k in after.seen ensures GoodTicket(after.inflight[k], after.seen[k], view) {
      if k == id {
        CandidatesFromView(w.gate, path);
        CandidatesMakeGoodTicket(view, path, conv, w.committed);
      } else {
        assert GoodTicket(w.inflight[k], w.seen[k], view);
      }
    }
  }

  lemma CandidatesMakeGoodTicket(view: map<nat, Proposal>, path: string, conv: Option<string>, committed: set<nat>)
    requires forall k :: k in view ==> k in committed
    ensures GoodTicket(Ticket(path, conv, Sorted(IdsAt(view, path))), committed, view)
  {
    var peers := Sorted(IdsAt(view, path));
    assert StrictlyIncreasing(peers);
  }

  lemma BeginKeepsIds(w: World, path: string, conv: Option<string>)
    requires GoodIds(w, View(w.gate))
    ensures GoodIds(BeginIn(w, path, conv), View(w.gate))
  {
    hide View, Candidates;
    var after := BeginIn(w, path, conv);
    forall k | k in after.inflight ensures k !in after.committed {
      assert k in w.inflight || k == w.gate.nextId;
    }
    forall k | k in after.committed || k in after.inflight ensures k < after.gate.nextId && k in after.seen {
      assert k in w.committed || k in w.inflight || k == w.gate.nextId;
    }
    forall k | k in after.seen ensures k < after.gate.nextId && AllBefore(after.seen[k], after.committed, k) {
      if k != w.gate.nextId { assert k in w.seen; }
    }
  }

  lemma BeginKeepsInv(w: World, path: string, conv: Option<string>)
    requires Inv(w)
    ensures Inv(BeginIn(w, path, conv))
  {
    var after := BeginIn(w, path, conv);
    assert View(after.gate) == View(w.gate) && Disjoint(after.gate);
    BeginKeepsIds(w, path, conv);
    BeginKeepsLinks(View(w.gate), w.seen, w.committed, w.gate.nextId);
    BeginKeepsTickets(w, path, conv);
  }

  /** The tracked proposals after `id` is committed with the given peers. */
  ghost predicate Committed(before: map<nat, Proposal>, after: map<nat, Proposal>, id: nat, peers: seq<nat>, path: string, tracked: bool) {
    && (forall k :: k in after <==> k in before || (tracked && k == id))
    && (forall k :: k in before ==> after[k].id == before[k].id && after[k].path == before[k].path)
    && (forall k :: k in before ==> after[k].conflicts ==
                                    before[k].conflicts + (if k in peers && id !in before[k].conflicts then [id] else []))
    && (tracked ==> id in after && after[id].id == id && after[id].path == path && after[id].conflicts == peers)
  }

  lemma CommittedFromParts(view: map<nat, Proposal>, inserted: map<nat, Proposal>, after: map<nat, Proposal>, p: Proposal, tracked: bool)
    requires p.id !in view && p.id !in p.conflicts
    requires inserted == if tracked then view[p.id := p] else view
    requires Edited(inserted, after, p.conflicts, Link(p.id))
    ensures Committed(view, after, p.id, p.conflicts, p.path, tracked)
  {
  }

  lemma CommitView(w: World, op: Op)
    requires Inv(w) && op.Commit? && op.id in w.inflight
    ensures Disjoint(CommitIn(w, op).gate) && CommitIn(w, op).gate.nextId == w.gate.nextId
    ensures Committed(View(w.gate), View(CommitIn(w, op).gate), op.id, w.inflight[op.id].peers, w.inflight[op.id].path,
                      Tracks(EffectiveMode(w.gate, w.inflight[op.id].conv)))
  {
    var t := w.inflight[op.id];
    var p := Built(op.id, t, op);
    TicketIsFresh(w, op.id);
    InsertView(w.gate, p);
    var inserted := Insert(w.gate, p).0;
    EditPeersEdits(inserted, t.peers, Link(op.id));
    EditPeersDisjoint(inserted, t.peers, Link(op.id));
    CommittedFromParts(View(w.gate), View(inserted), View(CommitIn(w, op).gate), p, Tracks(EffectiveMode(w.gate, t.conv)));
  }

  /** An id that was allocated and not committed: nobody knows it yet. */
  ghost predicate IsFresh(view: map<nat, Proposal>, seen: map<nat, set<nat>>, id: nat, t: Ticket) {
    && id in seen && GoodTicket(t, seen[id], view)
    && id !in view && id !in t.peers
    && forall k :: k in seen ==> id !in seen[k]
  }

  lemma TicketIsFresh(w: World, id: nat)
    requires Inv(w) && id in w.inflight
    ensures IsFresh(View(w.gate), w.seen, id, w.inflight[id]) && id !in w.committed
  {
    hide View, Disjoint, GoodLinks, NoDuplicates;
    assert GoodTicket(w.inflight[id], w.seen[id], View(w.gate));
    forall k | k in w.seen ensures id !in w.seen[k] { assert AllBefore(w.seen[k], w.committed, k); }
  }

  lemma CommitLinks(view: map<nat, Proposal>, seen: map<nat, set<nat>>, committed: set<nat>, after: map<nat, Proposal>,
                    id: nat, t: Ticket, tracked: bool, p: nat, q: nat)
    requires GoodLinks(view, seen, committed) && IsFresh(view, seen, id, t) && id !in committed
    requires Committed(view, after, id, t.peers, t.path, tracked)
    requires p in after && q in after
    ensures q in after[p].conflicts <==> Rivals(after, seen, p, q)
  {
    if p in view && q in view {
      assert q in view[p].conflicts <==> Rivals(view, seen, p, q);
    } else if p in view {
      assert q == id && id !in view[p].conflicts;
    }
  }

  lemma CommitListsAreGood(view: map<nat, Proposal>, seen: map<nat, set<nat>>, committed: set<nat>, after: map<nat, Proposal>,
                           id: nat, t: Ticket, tracked: bool, p: nat)
    requires GoodLinks(view, seen, committed) && IsFresh(view, seen, id, t) && seen[id] <= committed
    requires Committed(view, after, id, t.peers, t.path, tracked) && p in after
    ensures NoDuplicates(after[p].conflicts)
    ensures forall r :: r in after[p].conflicts ==> r in committed + {id}
  {
    hide Rivals;
    if p in view { assert NoDuplicates(view[p].conflicts); }
  }

  lemma CommitKeepsLinks(view: map<nat, Proposal>, seen: map<nat, set<nat>>, committed: set<nat>, after: map<nat, Proposal>,
                         id: nat, t: Ticket, tracked: bool)
    requires GoodLinks(view, seen, committed) && IsFresh(view, seen, id, t) && id !in committed && seen[id] <= committed
    requires Committed(view, after, id, t.peers, t.path, tracked)
    ensures GoodLinks(after, seen, committed + {id})
  {
    hide IsFresh, Committed, NoDuplicates, Rivals;
    forall p, q | p in after && q in after
      ensures q in after[p].conflicts <==> Rivals(after, seen, p, q)
    {
      CommitLinks(view, seen, committed, after, id, t, tracked, p, q);
    }
    forall p | p in after
      ensures NoDuplicates(after[p].conflicts)
      ensures forall r :: r in after[p].conflicts ==> r in committed + {id}
    {
      CommitListsAreGood(view, seen, committed, after, id, t, tracked, p);
    }
  }

  /** A ticket that did not see `id` stays good when `id` is committed. */
  lemma CommitKeepsTicket(view: map<nat, Proposal>, after: map<nat, Proposal>, id: nat, peers: seq<nat>, path: string,
                          tracked: bool, t: Ticket, seen: set<nat>)
    requires Committed(view, after, id, peers, path, tracked) && GoodTicket(t, seen, view) && id !in seen
    ensures GoodTicket(t, seen, after)
  {
  }

  lemma CommitKeepsTickets(w: World, op: Op, after: map<nat, Proposal>, tracked: bool)
    requires op.Commit? && op.id in w.inflight && IsFresh(View(w.gate), w.seen, op.id, w.inflight[op.id])
    requires GoodTickets(w, View(w.gate))
    requires Committed(View(w.gate), after, op.id, w.inflight[op.id].peers, w.inflight[op.id].path, tracked)
    ensures GoodTickets(CommitIn(w, op), after)
  {
    hide View, EditPeers, Insert, Committed, GoodTicket;
    var w', view, t := CommitIn(w, op), View(w.gate), w.inflight[op.id];
    forall k | k in w'.inflight && k in w'.seen ensures GoodTicket(w'.inflight[k], w'.seen[k], after) {
      assert GoodTicket(w.inflight[k], w.seen[k], view);
      CommitKeepsTicket(view, after, op.id, t.peers, t.path, tracked, w.inflight[k], w.seen[k]);
    }
  }

  lemma CommitKeepsIds(w: World, op: Op, after: map<nat, Proposal>, tracked: bool)
    requires GoodIds(w, View(w.gate)) && op.Commit? && op.id in w.inflight
    requires CommitIn(w, op).gate.nextId == w.gate.nextId
    requires Committed(View(w.gate), after, op.id, w.inflight[op.id].peers, w.inflight[op.id].path, tracked)
    ensures GoodIds(CommitIn(w, op), after) && op.id in w.seen && w.seen[op.id] <= w.committed
  {
    hide View, EditPeers, Insert;
    var w' := CommitIn(w, op);
    assert w'.seen == w.seen && w'.committed == w.committed + {op.id};
    assert AllBefore(w.seen[op.id], w.committed, op.id);
    forall k | k in w'.seen ensures AllBefore(w'.seen[k], w'.committed, k) {
      assert AllBefore(w.seen[k], w.committed, k);
    }
  }

  lemma CommitKeepsInv(w: World, op: Op)
    requires Inv(w) && op.Commit? && op.id in w.inflight
    ensures Inv(CommitIn(w, op))
  {
    hide GoodIds, GoodTickets, GoodLinks, Disjoint, View, EditPeers, Insert, Committed, IsFresh, Tracks, EffectiveMode;
    var t, view, after := w.inflight[op.id], View(w.gate), View(CommitIn(w, op).gate);
    var tracked := Tracks(EffectiveMode(w.gate, t.conv));
    CommitView(w, op);
    TicketIsFresh(w, op.id);
    CommitKeepsIds(w, op, after, tracked);
    CommitKeepsTickets(w, op, after, tracked);
    CommitKeepsLinks(view, w.seen, w.committed, after, op.id, t, tracked);
  }
}
