/** The write gate: proposals in three buckets, per-conversation drains and conflict links.
    Models `WriteGatePipeline` of crates/gaviero-core/src/write_gate.rs. `Gate` and the functions
    on it are the specification; the class is the code. */
module WriteGate {
  import opened Json
  import opened HunkAssembly

  datatype WriteMode = Interactive | AutoAccept | RejectAll | Deferred

  datatype Proposal = Proposal(id: nat, path: string, original: string, hunks: seq<Hunk>,
                               status: ProposalStatus, isDeletion: bool, conv: Option<string>, conflicts: seq<nat>)

  datatype Action = Write(path: string, content: string) | Delete(path: string)

  /** What the observer is told. */
  datatype Event = Created(id: nat) | Updated(id: nat) | Finalized(path: string)

  datatype Gate = Gate(active: map<nat, Proposal>, deferred: seq<Proposal>, hold: seq<Proposal>, nextId: nat,
                       defaultMode: WriteMode, convModes: map<string, WriteMode>, log: seq<Event>)

  // ---------------------------------------------------------------------------
  // Buckets

  /** The proposals of a bucket by id; the first of an id counts. */
  function ById(ps: seq<Proposal>): map<nat, Proposal> {
    if ps == [] then map[]
    else
      var init, last := ById(ps[..|ps| - 1]), ps[|ps| - 1];
      if last.id in init then init else init[last.id := last]
  }

  /** Lookup across the active, deferred and review-hold buckets, in this order. */
  function View(g: Gate): map<nat, Proposal> {
    ById(g.hold) + ById(g.deferred) + g.active
  }

  predicate Distinct(ps: seq<Proposal>) {
    ps == [] || (Distinct(ps[..|ps| - 1]) && ps[|ps| - 1].id !in ById(ps[..|ps| - 1]))
  }

  /** No id is tracked twice. */
  predicate Disjoint(g: Gate) {
    && (forall k :: k in g.active ==> g.active[k].id == k)
    && Distinct(g.deferred) && Distinct(g.hold)
    && ById(g.deferred).Keys !! g.active.Keys
    && ById(g.hold).Keys !! g.active.Keys
    && ById(g.deferred).Keys !! ById(g.hold).Keys
  }

  predicate SameConv(conv: Option<string>, p: Proposal) {
    conv == p.conv
  }

  function OfConv(ps: seq<Proposal>, conv: Option<string>, same: bool): seq<Proposal> {
    if ps == [] then []
    else if SameConv(conv, ps[|ps| - 1]) == same then OfConv(ps[..|ps| - 1], conv, same) + [ps[|ps| - 1]]
    else OfConv(ps[..|ps| - 1], conv, same)
  }

  predicate Holds(hold: seq<Proposal>, id: nat) {
    exists i :: 0 <= i < |hold| && hold[i].id == id
  }

  function Held(hold: seq<Proposal>, ps: seq<Proposal>): seq<Proposal> {
    if ps == [] then hold
    else
      var init, last := Held(hold, ps[..|ps| - 1]), ps[|ps| - 1];
      if Holds(init, last.id) then init else init + [last]
  }

  function Without(ps: seq<Proposal>, ids: seq<nat>): seq<Proposal> {
    if ps == [] then []
    else if ps[|ps| - 1].id in ids then Without(ps[..|ps| - 1], ids)
    else Without(ps[..|ps| - 1], ids) + [ps[|ps| - 1]]
  }

  // ---------------------------------------------------------------------------
  // Edits of conflicting peers

  datatype Edit = Link(newId: nat) | Supersede {
    /** Whether the edit changes `p`, in which case the observer hears of it. */
    predicate Touches(p: Proposal) { Link? ==> newId !in p.conflicts }

    function Apply(p: Proposal): Proposal {
      if !Touches(p) then p
      else if Link? then p.(conflicts := p.conflicts + [newId])
      else p.(status := ProposalStatus.Superseded)
    }
  }

  function EditFirst(ps: seq<Proposal>, id: nat, e: Edit): seq<Proposal> {
    if ps == [] then []
    else
      var init, last := ps[..|ps| - 1], ps[|ps| - 1];
      if id in ById(init) then EditFirst(init, id, e) + [last]
      else init + [if last.id == id then e.Apply(last) else last]
  }

  function EditPeer(g: Gate, id: nat, e: Edit): Gate {
    var touched := (id in g.active && e.Touches(g.active[id]))
                || (id in ById(g.deferred) && e.Touches(ById(g.deferred)[id]))
                || (id in ById(g.hold) && e.Touches(ById(g.hold)[id]));
    g.(active := if id in g.active then g.active[id := e.Apply(g.active[id])] else g.active,
       deferred := EditFirst(g.deferred, id, e),
       hold := EditFirst(g.hold, id, e),
       log := if touched then g.log + [Updated(id)] else g.log)
  }

  function EditPeers(g: Gate, ids: seq<nat>, e: Edit): Gate {
    if ids == [] then g else EditPeer(EditPeers(g, ids[..|ids| - 1], e), ids[|ids| - 1], e)
  }

  // ---------------------------------------------------------------------------
  // Operations

  function EffectiveMode(g: Gate, conv: Option<string>): WriteMode {
    if conv.Some? && conv.value in g.convModes then g.convModes[conv.value] else g.defaultMode
  }

  function ActionFor(p: Proposal): Action {
    if p.isDeletion then Delete(p.path) else Write(p.path, Assembled(p.original, p.hunks))
  }

  function AcceptHunks(hunks: seq<Hunk>, status: HunkStatus): seq<Hunk> {
    seq(|hunks|, i requires 0 <= i < |hunks| => hunks[i].(status := status))
  }

  function Insert(g: Gate, p: Proposal): (Gate, Option<Action>) {
    match EffectiveMode(g, p.conv)
    case Interactive => (g.(active := g.active[p.id := p], log := g.log + [Created(p.id)]), None)
    case AutoAccept =>
      (g.(log := g.log + [Finalized(p.path)]), Some(ActionFor(p.(hunks := AcceptHunks(p.hunks, Accepted)))))
    case RejectAll => (g, None)
    case Deferred => (g.(deferred := g.deferred + [p]), None)
  }

  function DrainConv(g: Gate, conv: Option<string>): (Gate, seq<Proposal>) {
    var drained := OfConv(g.deferred, conv, true);
    (g.(deferred := OfConv(g.deferred, conv, false), hold := Held(g.hold, drained)), drained)
  }

  function DrainAll(g: Gate): (Gate, seq<Proposal>) {
    (g.(deferred := [], hold := Held(g.hold, g.deferred)), g.deferred)
  }

  function Finalize(g: Gate, id: nat): (Gate, Option<Action>) {
    if id !in g.active then (g, None)
    else
      var p := g.active[id];
      var edited := EditPeers(g.(active := g.active - {id}), p.conflicts, Edit.Supersede);
      (edited.(log := edited.log + [Finalized(p.path)]), Some(ActionFor(p)))
  }

  function IdsOn(g: Gate, path: string): set<nat> {
    (set k | k in g.active && g.active[k].path == path :: g.active[k].id) +
    (set i | 0 <= i < |g.deferred| && g.deferred[i].path == path :: g.deferred[i].id) +
    (set i | 0 <= i < |g.hold| && g.hold[i].path == path :: g.hold[i].id)
  }

  lemma HasMaximum(s: set<nat>)
    requires s != {}
    ensures exists m :: m in s && forall x :: x in s ==> x <= m
  {
    var m :| m in s;
    if s != {m} {
      HasMaximum(s - {m});
      var n :| n in s - {m} && forall x :: x in s - {m} ==> x <= n;
      var top := if n < m then m else n;
      assert forall x :: x in s ==> x == m || x in s - {m};
      assert top in s && forall x :: x in s ==> x <= top;
    }
  }

  function Maximum(s: set<nat>): (m: nat)
    requires s != {}
    ensures m in s && forall x :: x in s ==> x <= m
  {
    HasMaximum(s);
    var m :| m in s && forall x :: x in s ==> x <= m;
    m
  }

  predicate StrictlyIncreasing(ids: seq<nat>) {
    forall i, j :: 0 <= i < j < |ids| ==> ids[i] < ids[j]
  }

  /** What `sort_unstable` and `dedup` make of a list with these elements. */
  function Sorted(s: set<nat>): (ids: seq<nat>)
    ensures StrictlyIncreasing(ids)
    ensures forall x :: x in ids <==> x in s
  {
    if s == {} then [] else Sorted(s - {Maximum(s)}) + [Maximum(s)]
  }

  function Candidates(g: Gate, path: string): seq<nat> {
    Sorted(IdsOn(g, path))
  }

  function SetHunks(g: Gate, id: nat, hunks: seq<Hunk>, status: ProposalStatus): Gate {
    if id !in g.active then g
    else g.(active := g.active[id := g.active[id].(hunks := hunks, status := status)], log := g.log + [Updated(id)])
  }

  class WriteGatePipeline {
    var active: map<nat, Proposal>
    var deferred: seq<Proposal>
    var hold: seq<Proposal>
    var nextId: nat
    var defaultMode: WriteMode
    var convModes: map<string, WriteMode>
    ghost var log: seq<Event>

    ghost function State(): Gate
      reads this
    {
      Gate(active, deferred, hold, nextId, defaultMode, convModes, log)
    }

    constructor (mode: WriteMode)
      ensures State() == Gate(map[], [], [], 1, mode, map[], [])
    {
      active, deferred, hold := map[], [], [];
      nextId, defaultMode, convModes, log := 1, mode, map[], [];
    }

    method NextId() returns (id: nat)
      modifies this
      ensures id == old(nextId)
      ensures State() == old(State()).(nextId := old(nextId) + 1)
    {
      id := nextId;
      nextId := nextId + 1;
    }

    method EffectiveModeFor(conv: Option<string>) returns (mode: WriteMode)
      ensures mode == EffectiveMode(State(), conv)
    {
      mode := defaultMode;
      if conv.Some? && conv.value in convModes {
        mode := convModes[conv.value];
      }
    }

    method InsertProposal(p: Proposal) returns (action: Option<Action>)
      modifies this
      ensures (State(), action) == Insert(old(State()), p)
    {
      var mode := EffectiveModeFor(p.conv);
      action := None;
      match mode {
        case Interactive =>
          log := log + [Created(p.id)];
          active := active[p.id := p];
        case AutoAccept =>
          var hunks := p.hunks;
          for i := 0 to |hunks|
            invariant |hunks| == |p.hunks|
            invariant forall k :: 0 <= k < |hunks| ==>
                        hunks[k] == if k < i then p.hunks[k].(status := Accepted) else p.hunks[k]
          {
            hunks := hunks[i := hunks[i].(status := Accepted)];
          }
          assert hunks == AcceptHunks(p.hunks, Accepted);
          log := log + [Finalized(p.path)];
          if p.isDeletion {
            action := Some(Delete(p.path));
          } else {
            var content := AssembleFinalContent(p.original, hunks);
            action := Some(Write(p.path, content));
          }
        case RejectAll =>
        case Deferred =>
          deferred := deferred + [p];
      }
    }

    method HoldForReview(ps: seq<Proposal>)
      modifies this`hold
      ensures hold == Held(old(hold), ps)
    {
      for i := 0 to |ps|
        invariant hold == Held(old(hold), ps[..i])
      {
        assert ps[..i + 1][..i] == ps[..i];
        if !Holds(hold, ps[i].id) {
          hold := hold + [ps[i]];
        }
      }
      assert ps[..|ps|] == ps;
    }

    method TakePendingProposals() returns (drained: seq<Proposal>)
      modifies this
      ensures (State(), drained) == DrainAll(old(State()))
    {
      drained := deferred;
      deferred := [];
      HoldForReview(drained);
    }

    method TakePendingProposalsForConv(conv: Option<string>) returns (drained: seq<Proposal>)
      modifies this
      ensures (State(), drained) == DrainConv(old(State()), conv)
    {
      var keep: seq<Proposal> := [];
      drained := [];
      var all := deferred;
      for i := 0 to |all|
        invariant keep == OfConv(all[..i], conv, false)
        invariant drained == OfConv(all[..i], conv, true)
        invariant State() == old(State())
      {
        assert all[..i + 1][..i] == all[..i];
        var matches := match (conv, all[i].conv)
          case (None, None) => true
          case (Some(a), Some(b)) => a == b
          case _ => false;
        if matches {
          drained := drained + [all[i]];
        } else {
          keep := keep + [all[i]];
        }
      }
      assert all[..|all|] == all;
      deferred := keep;
      HoldForReview(drained);
    }

    method ReleaseReviewHoldIds(ids: seq<nat>)
      modifies this
      ensures State() == old(State()).(hold := Without(old(hold), ids))
    {
      if ids == [] {
        WithoutNone(hold);
        return;
      }
      var kept: seq<Proposal> := [];
      for i := 0 to |hold|
        invariant kept == Without(hold[..i], ids)
        invariant State() == old(State())
      {
        assert hold[..i + 1][..i] == hold[..i];
        if hold[i].id !in ids {
          kept := kept + [hold[i]];
        }
      }
      assert hold[..|hold|] == hold;
      hold := kept;
    }

    method ReleaseReviewHoldAll()
      modifies this
      ensures State() == old(State()).(hold := [])
    {
      hold := [];
    }

    method FinalizeProposal(id: nat) returns (action: Option<Action>)
      modifies this
      ensures (State(), action) == Finalize(old(State()), id)
    {
      if id !in active {
        return None;
      }
      var p := active[id];
      active := active - {id};
      ghost var start := State();
      EditAll(p.conflicts, Edit.Supersede);
      log := log + [Finalized(p.path)];
      if p.isDeletion {
        action := Some(Delete(p.path));
      } else {
        var content := AssembleFinalContent(p.original, p.hunks);
        action := Some(Write(p.path, content));
      }
    }

    method MarkConflictPair(newId: nat, peers: seq<nat>)
      modifies this
      ensures State() == EditPeers(old(State()), peers, Link(newId))
    {
      EditAll(peers, Link(newId));
    }

    /** The loop over peers that `finalize` and `mark_conflict_pair` share. */
    method EditAll(ids: seq<nat>, e: Edit)
      modifies this
      ensures State() == EditPeers(old(State()), ids, e)
    {
      hide EditPeer;
      for i := 0 to |ids|
        invariant State() == EditPeers(old(State()), ids[..i], e)
      {
        assert ids[..i + 1][..i] == ids[..i];
        EditOne(ids[i], e);
      }
      assert ids[..|ids|] == ids;
    }

    method EditOne(id: nat, e: Edit)
      modifies this
      ensures State() == EditPeer(old(State()), id, e)
    {
      hide EditFirst, ById;
      var updated := false;
      if id in active && e.Touches(active[id]) {
        active := active[id := e.Apply(active[id])];
        updated := true;
      }
      var touched;
      deferred, touched := EditFound(deferred, id, e);
      updated := updated || touched;
      hold, touched := EditFound(hold, id, e);
      updated := updated || touched;
      if updated {
        log := log + [Updated(id)];
      }
    }

    /** The tracked ids on a path, sorted and without duplicates. */
    method ConflictCandidatesForPath(path: string) returns (ids: seq<nat>)
      ensures ids == Candidates(State(), path)
    {
      ids := [];
      var todo := active.Keys;
      while todo != {}
        invariant todo <= active.Keys
        invariant Elements(ids) == set k | k in active && k !in todo && active[k].path == path :: active[k].id
        decreases |todo|
      {
        var k :| k in todo;
        if active[k].path == path {
          ElementsSnoc(ids, active[k].id);
          ids := ids + [active[k].id];
        }
        todo := todo - {k};
      }
      ghost var fromActive := Elements(ids);
      assert fromActive == set k | k in active && active[k].path == path :: active[k].id;
      ids := PushIdsOn(ids, deferred, path);
      ids := PushIdsOn(ids, hold, path);
      assert Elements(ids) == IdsOn(State(), path);
      ids := SortIds(ids);
      ids := Dedup(ids);
    }

    method DecideHunk(id: nat, index: nat, status: HunkStatus)
      requires status != HunkStatus.Pending
      modifies this
      ensures id !in old(active) ==> State() == old(State())
      ensures id in old(active) ==>
                var p := old(active)[id];
                var hunks := if index < |p.hunks| then p.hunks[index := p.hunks[index].(status := status)] else p.hunks;
                State() == SetHunks(old(State()), id, hunks, StatusOf(hunks))
    {
      if id !in active {
        return;
      }
      var p := active[id];
      var hunks := p.hunks;
      if index < |hunks| {
        hunks := hunks[index := hunks[index].(status := status)];
      }
      var s := UpdateProposalStatus(hunks);
      active := active[id := p.(hunks := hunks, status := s)];
      log := log + [Updated(id)];
    }

    /** Accepts or rejects every hunk; the status is set outright. */
    method DecideAll(id: nat, accept: bool)
      modifies this
      ensures id !in old(active) ==> State() == old(State())
      ensures id in old(active) ==>
                State() == SetHunks(old(State()), id, AcceptHunks(old(active)[id].hunks, if accept then Accepted else Rejected),
                                    if accept then ProposalAccepted else ProposalRejected)
    {
      if id !in active {
        return;
      }
      var p := active[id];
      var hunks := p.hunks;
      for i := 0 to |hunks|
        invariant State() == old(State()) && |hunks| == |p.hunks|
        invariant forall k :: 0 <= k < |hunks| ==>
          hunks[k] == if k < i then p.hunks[k].(status := if accept then Accepted else Rejected) else p.hunks[k]
      {
        hunks := hunks[i := hunks[i].(status := if accept then Accepted else Rejected)];
      }
      assert hunks == AcceptHunks(p.hunks, if accept then Accepted else Rejected);
      active := active[id := p.(hunks := hunks, status := if accept then ProposalAccepted else ProposalRejected)];
      log := log + [Updated(id)];
    }

    method SetMode(mode: WriteMode)
      modifies this
      ensures State() == old(State()).(defaultMode := mode)
    {
      defaultMode := mode;
    }

    method SetConvMode(conv: string, mode: WriteMode)
      modifies this
      ensures State() == old(State()).(convModes := old(convModes)[conv := mode])
    {
      convModes := convModes[conv := mode];
    }

    method ClearConvMode(conv: string)
      modifies this
      ensures State() == old(State()).(convModes := old(convModes) - {conv})
    {
      convModes := convModes - {conv};
    }
  }

  function Elements(ids: seq<nat>): set<nat> {
    set x | x in ids
  }

  lemma ElementsSnoc(ids: seq<nat>, x: nat)
    ensures Elements(ids + [x]) == Elements(ids) + {x}
  {
  }

  method PushIdsOn(ids: seq<nat>, ps: seq<Proposal>, path: string) returns (r: seq<nat>)
    ensures Elements(r) == Elements(ids) + set i | 0 <= i < |ps| && ps[i].path == path :: ps[i].id
  {
    hide Elements;
    r := ids;
    for i := 0 to |ps|
      invariant Elements(r) == Elements(ids) + set k | 0 <= k < i && ps[k].path == path :: ps[k].id
    {
      if ps[i].path == path {
        ElementsSnoc(r, ps[i].id);
        r := r + [ps[i].id];
      }
    }
  }

  predicate NonDecreasing(ids: seq<nat>) {
    forall i, j :: 0 <= i < j < |ids| ==> ids[i] <= ids[j]
  }

  function InsertId(ids: seq<nat>, x: nat): (r: seq<nat>)
    ensures Elements(r) == Elements(ids) + {x}
    ensures NonDecreasing(ids) ==> NonDecreasing(r)
  {
    if ids == [] || ids[|ids| - 1] <= x then
      ElementsSnoc(ids, x);
      ids + [x]
    else
      var init, last := ids[..|ids| - 1], ids[|ids| - 1];
      var r := InsertId(init, x);
      InsertBelow(init, last, x, r);
      r + [last]
  }

  lemma InsertBelow(init: seq<nat>, last: nat, x: nat, r: seq<nat>)
    requires x < last && Elements(r) == Elements(init) + {x}
    ensures Elements(r + [last]) == Elements(init + [last]) + {x}
    ensures NonDecreasing(init + [last]) && NonDecreasing(r) ==> NonDecreasing(r + [last])
  {
    ElementsSnoc(init, last);
    ElementsSnoc(r, last);
    if NonDecreasing(init + [last]) {
      forall i | 0 <= i < |r| ensures r[i] <= last {
        assert r[i] in Elements(r);
        if r[i] != x {
          assert r[i] in Elements(init);
          var k :| 0 <= k < |init| && init[k] == r[i];
          assert (init + [last])[k] == init[k] && (init + [last])[|init|] == last;
        }
      }
    }
  }

  /** `sort_unstable`. */
  function SortIds(ids: seq<nat>): (r: seq<nat>)
    ensures Elements(r) == Elements(ids)
    ensures NonDecreasing(r)
  {
    if ids == [] then []
    else
      ElementsSnoc(ids[..|ids| - 1], ids[|ids| - 1]);
      assert ids == ids[..|ids| - 1] + [ids[|ids| - 1]];
      InsertId(SortIds(ids[..|ids| - 1]), ids[|ids| - 1])
  }

  /** `dedup`: of equal neighbours the first stays. */
  method Dedup(ids: seq<nat>) returns (r: seq<nat>)
    requires NonDecreasing(ids)
    ensures r == Sorted(Elements(ids))
  {
    r := [];
    for i := 0 to |ids|
      invariant StrictlyIncreasing(r) && Elements(r) == Elements(ids[..i])
      invariant r == [] <==> i == 0
      invariant i > 0 ==> r[|r| - 1] == ids[i - 1]
    {
      ElementsSnoc(r, ids[i]);
      ElementsSnoc(ids[..i], ids[i]);
      assert ids[..i + 1] == ids[..i] + [ids[i]];
      if r == [] || r[|r| - 1] != ids[i] {
        r := r + [ids[i]];
      } else {
        assert ids[i] in Elements(r);
      }
    }
    assert ids[..|ids|] == ids;
    SortedIsUnique(r);
  }

  /** A set has one strictly increasing listing. */
  lemma {:induction false} SortedIsUnique(ids: seq<nat>)
    requires StrictlyIncreasing(ids)
    ensures ids == Sorted(Elements(ids))
  {
    if ids != [] {
      var init, last := ids[..|ids| - 1], ids[|ids| - 1];
      assert ids == init + [last];
      ElementsSnoc(init, last);
      LastIsMaximum(ids);
      SortedIsUnique(init);
    } else {
      assert Elements(ids) == {};
    }
  }

  lemma LastIsMaximum(ids: seq<nat>)
    requires ids != [] && StrictlyIncreasing(ids)
    ensures ids[|ids| - 1] in Elements(ids) && Maximum(Elements(ids)) == ids[|ids| - 1]
    ensures Elements(ids) - {ids[|ids| - 1]} == Elements(ids[..|ids| - 1])
  {
    var init, last := ids[..|ids| - 1], ids[|ids| - 1];
    assert ids == init + [last];
    ElementsSnoc(init, last);
    forall x | x in Elements(init) ensures x < last {
      var k :| 0 <= k < |init| && init[k] == x;
      assert ids[k] < ids[|ids| - 1];
    }
  }

  /** `iter_mut().find(..)` and the edit of what it found. */
  method EditFound(ps: seq<Proposal>, id: nat, e: Edit) returns (r: seq<Proposal>, touched: bool)
    ensures r == EditFirst(ps, id, e)
    ensures touched <==> id in ById(ps) && e.Touches(ById(ps)[id])
  {
    r, touched := ps, false;
    for i := 0 to |ps|
      invariant id !in ById(ps[..i])
      invariant r == ps && !touched
    {
      ByIdOfNext(ps, i);
      if ps[i].id == id {
        ByIdOfPrefix(ps, i + 1, id);
        EditFirstAt(ps, i, id, e);
        if e.Touches(ps[i]) {
          r, touched := ps[i := e.Apply(ps[i])], true;
        } else {
          assert ps[i := ps[i]] == ps;
        }
        return;
      }
    }
    assert ps[..|ps|] == ps;
    EditFirstNone(ps, id, e);
  }

  lemma ByIdOfNext(ps: seq<Proposal>, i: nat)
    requires i < |ps|
    ensures ById(ps[..i + 1]) == if ps[i].id in ById(ps[..i]) then ById(ps[..i]) else ById(ps[..i])[ps[i].id := ps[i]]
  {
    assert ps[..i + 1][..i] == ps[..i];
  }

  lemma {:induction false} EditFirstNone(ps: seq<Proposal>, id: nat, e: Edit)
    requires id !in ById(ps)
    ensures EditFirst(ps, id, e) == ps
  {
    if ps != [] { assert ps == ps[..|ps| - 1] + [ps[|ps| - 1]]; }
  }

  lemma {:induction false} EditFirstAt(ps: seq<Proposal>, i: nat, id: nat, e: Edit)
    requires i < |ps| && ps[i].id == id && id !in ById(ps[..i])
    ensures EditFirst(ps, id, e) == ps[i := e.Apply(ps[i])]
    decreases |ps|
  {
    var init, last := ps[..|ps| - 1], ps[|ps| - 1];
    assert ps == init + [last];
    if i < |init| {
      assert init[..i] == ps[..i];
      EditFirstAt(init, i, id, e);
      ByIdOfNext(init, i);
      ByIdOfPrefix(init, i + 1, id);
    }
  }

  lemma {:induction false} ByIdOfPrefix(ps: seq<Proposal>, n: nat, id: nat)
    requires n <= |ps| && id in ById(ps[..n])
    ensures id in ById(ps) && ById(ps)[id] == ById(ps[..n])[id]
    decreases |ps| - n
  {
    if n == |ps| {
      assert ps[..n] == ps;
    } else {
      ByIdOfNext(ps, n);
      ByIdOfPrefix(ps, n + 1, id);
    }
  }

  lemma {:induction false} WithoutNone(ps: seq<Proposal>)
    ensures Without(ps, []) == ps
  {
    if ps != [] { WithoutNone(ps[..|ps| - 1]); }
  }
}
