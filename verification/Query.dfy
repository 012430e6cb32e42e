/** Bounded traversal over one snapshot generation (crates/code-analysis/src/query.rs). */
module Query {
  import opened Common
  import opened Snapshot
  import opened Paging
  import opened Reach
  import opened Discovery
  import opened Sorting

  const DEPTH_LIMIT: nat := 32
  const VISIT_LIMIT: nat := 10_000
  const ROOT_LIMIT: nat := 64

  datatype Direction = Callees | Callers | Both

  datatype TraversalRequest = TraversalRequest(
    roots: seq<SymbolId>,
    depth: nat,
    limit: nat,
    direction: Direction,
    resolutions: seq<Resolution>)

  datatype TraversalLimit = Depth | NodeLimit | EdgeLimit | VisitBudget

  predicate Allows(filter: seq<Resolution>, resolution: Resolution, defaultAll: bool) {
    if filter == [] then defaultAll || resolution != Unresolved else resolution in filter
  }

  // ----- what one step of a traversal means, read off the calls by a plain scan

  /** The request follows `call` from its caller `id`. */
  predicate FollowsDown(request: TraversalRequest, call: CallSite, id: SymbolId) {
    && request.direction in {Callees, Both}
    && call.caller == id
    && Allows(request.resolutions, call.resolution, true)
  }

  /** The request follows `call` back from a callable `id` that it may reach. */
  predicate FollowsUp(request: TraversalRequest, call: CallSite, id: SymbolId) {
    && request.direction in {Callers, Both}
    && id in Mentions(call)
    && Allows(request.resolutions, call.resolution, false)
  }

  /** The allowed edges at `id` in the requested direction. */
  ghost function IncidentEdges(s: GraphSnapshot, request: TraversalRequest, id: SymbolId): set<nat> {
    set p: nat | p < |s.calls| && (FollowsDown(request, s.calls[p], id) || FollowsUp(request, s.calls[p], id))
  }

  ghost function EdgesOf(s: GraphSnapshot, request: TraversalRequest, nodes: set<SymbolId>): set<nat> {
    set id, p | id in nodes && p in IncidentEdges(s, request, id) :: p
  }

  /** The known callables one allowed edge away from `id`. */
  ghost function StepDown(s: GraphSnapshot, request: TraversalRequest, id: SymbolId): set<SymbolId> {
    set p: nat, w | p < |s.calls| && FollowsDown(request, s.calls[p], id) && w in Mentions(s.calls[p]) && s.Known(w) :: w
  }

  ghost function StepUp(s: GraphSnapshot, request: TraversalRequest, id: SymbolId): set<SymbolId> {
    set p: nat | p < |s.calls| && FollowsUp(request, s.calls[p], id) && s.Known(s.calls[p].caller) :: s.calls[p].caller
  }

  ghost function Step(s: GraphSnapshot, request: TraversalRequest): SymbolId -> set<SymbolId> {
    id => StepDown(s, request, id) + StepUp(s, request, id)
  }

  ghost function Roots(request: TraversalRequest): set<SymbolId> {
    set root | root in request.roots
  }

  /** The callables within the requested depth of a root. */
  ghost function Within(s: GraphSnapshot, request: TraversalRequest): set<SymbolId> {
    Ball(Step(s, request), Roots(request), request.depth)
  }

  // ----- the order in which one step lists its neighbours

  function AllMentions(calls: seq<CallSite>): seq<SymbolId> {
    if calls == [] then [] else AllMentions(calls[..|calls| - 1]) + Mentions(calls[|calls| - 1])
  }

  function AllCallers(calls: seq<CallSite>): seq<SymbolId> {
    if calls == [] then [] else AllCallers(calls[..|calls| - 1]) + [calls[|calls| - 1].caller]
  }

  lemma NamesPush(calls: seq<CallSite>, call: CallSite)
    ensures AllMentions(calls + [call]) == AllMentions(calls) + Mentions(call)
    ensures AllCallers(calls + [call]) == AllCallers(calls) + [call.caller]
  {
    assert (calls + [call])[..|calls|] == calls;
  }

  lemma GatherNames(calls: seq<CallSite>, positions: seq<nat>, p: nat, filter: seq<Resolution>, defaultAll: bool)
    returns (after: seq<CallSite>)
    requires p < |calls|
    ensures after == Gather(calls, positions + [p], filter, defaultAll)
    ensures
      var before := Gather(calls, positions, filter, defaultAll);
      if Allows(filter, calls[p].resolution, defaultAll)
      then AllMentions(after) == AllMentions(before) + Mentions(calls[p]) && AllCallers(after) == AllCallers(before) + [calls[p].caller]
      else after == before
  {
    after := Gather(calls, positions + [p], filter, defaultAll);
    GatherPush(calls, positions, p, filter, defaultAll);
    NamesPush(Gather(calls, positions, filter, defaultAll), calls[p]);
  }

  ghost function KnownIn(s: GraphSnapshot): SymbolId -> bool {
    id => s.Known(id)
  }

  /** The known neighbours of `id`: those its own allowed calls mention, then the makers of the allowed
      calls that mention it, each as often and in the order as `CallsFrom` and `CallsTo` list them. */
  ghost function Neighbours(s: GraphSnapshot, request: TraversalRequest, id: SymbolId): seq<SymbolId> {
    var down := if request.direction in {Callees, Both} then AllMentions(CallsFrom(s, id, request.resolutions)) else [];
    var up := if request.direction in {Callers, Both} then AllCallers(CallsTo(s, id, request.resolutions)) else [];
    Filter(KnownIn(s), down + up)
  }

  ghost function NeighbourLists(s: GraphSnapshot, request: TraversalRequest): SymbolId -> seq<SymbolId> {
    id => Neighbours(s, request, id)
  }

  // ----- one step, by the tables

  /** The table lookups agree with `Step` and `IncidentEdges`. */
  method NeighboursOf(s: GraphSnapshot, request: TraversalRequest, id: SymbolId, edgePositions: set<nat>)
    returns (neighbours: seq<SymbolId>, edges: set<nat>)
    requires ListsSites(s)
    ensures neighbours == Neighbours(s, request, id)
    ensures forall w :: w in neighbours <==> w in Step(s, request)(id)
    ensures edges == edgePositions + IncidentEdges(s, request, id)
  {
    var down, downEdges := CalleesOf(s, request, id);
    var up, upEdges := CallersOf(s, request, id);
    neighbours := RetainKnown(s, down + up);
    edges := edgePositions + downEdges + upEdges;
  }

  method CalleesOf(s: GraphSnapshot, request: TraversalRequest, id: SymbolId) returns (names: seq<SymbolId>, edges: set<nat>)
    requires ListsSites(s)
    ensures forall p :: p in edges <==> 0 <= p < |s.calls| && FollowsDown(request, s.calls[p], id)
    ensures forall w :: w in names && s.Known(w) <==> w in StepDown(s, request, id)
    ensures names == if request.direction in {Callees, Both} then AllMentions(CallsFrom(s, id, request.resolutions)) else []
  {
    names, edges := [], {};
    if request.direction in {Callees, Both} {
      var positions := Listed(s.index.byCaller, id);
      CallerPositions(s, id);
      names, edges := FollowCallees(s, request, positions);
      forall w
        ensures w in names <==> exists p <- edges :: w in Mentions(s.calls[p])
      {
        GatheredNames(s, request, positions, true, w);
      }
    }
    DownMeans(s, request, id, names, edges);
  }

  lemma CallerPositions(s: GraphSnapshot, id: SymbolId)
    requires ListsSites(s)
    ensures var positions := Listed(s.index.byCaller, id);
            && (forall i :: 0 <= i < |positions| ==> positions[i] < |s.calls|)
            && forall p :: p in positions <==> 0 <= p < |s.calls| && s.calls[p].caller == id
  {
    SitesOf(s, id);
    var positions := Listed(s.index.byCaller, id);
    assert forall i :: 0 <= i < |positions| ==> positions[i] in positions;
  }

  method CallersOf(s: GraphSnapshot, request: TraversalRequest, id: SymbolId) returns (names: seq<SymbolId>, edges: set<nat>)
    requires ListsSites(s)
    ensures forall p :: p in edges <==> 0 <= p < |s.calls| && FollowsUp(request, s.calls[p], id)
    ensures forall w :: w in names && s.Known(w) <==> w in StepUp(s, request, id)
    ensures names == if request.direction in {Callers, Both} then AllCallers(CallsTo(s, id, request.resolutions)) else []
  {
    names, edges := [], {};
    if request.direction in {Callers, Both} {
      var positions := Listed(s.index.byTarget, id);
      TargetPositions(s, id);
      names, edges := FollowCallers(s, request, positions);
      forall w
        ensures w in names <==> exists p <- edges :: s.calls[p].caller == w
      {
        GatheredNames(s, request, positions, false, w);
      }
    }
    UpMeans(s, request, id, names, edges);
  }

  lemma TargetPositions(s: GraphSnapshot, id: SymbolId)
    requires ListsSites(s)
    ensures var positions := Listed(s.index.byTarget, id);
            && (forall i :: 0 <= i < |positions| ==> positions[i] < |s.calls|)
            && forall p :: p in positions <==> 0 <= p < |s.calls| && id in Mentions(s.calls[p])
  {
    SitesOf(s, id);
    var positions := Listed(s.index.byTarget, id);
    assert forall i :: 0 <= i < |positions| ==> positions[i] in positions;
  }

  lemma DownMeans(s: GraphSnapshot, request: TraversalRequest, id: SymbolId, names: seq<SymbolId>, edges: set<nat>)
    requires forall p :: p in edges <==> 0 <= p < |s.calls| && FollowsDown(request, s.calls[p], id)
    requires forall w :: w in names <==> exists p <- edges :: w in Mentions(s.calls[p])
    ensures forall w :: w in names && s.Known(w) <==> w in StepDown(s, request, id)
  {
    forall w
      ensures w in names && s.Known(w) <==> w in StepDown(s, request, id)
    {
      if w in names && s.Known(w) {
        var p: nat :| p in edges && w in Mentions(s.calls[p]);
      }
    }
  }

  lemma UpMeans(s: GraphSnapshot, request: TraversalRequest, id: SymbolId, names: seq<SymbolId>, edges: set<nat>)
    requires forall p :: p in edges <==> 0 <= p < |s.calls| && FollowsUp(request, s.calls[p], id)
    requires forall w :: w in names <==> exists p <- edges :: s.calls[p].caller == w
    ensures forall w :: w in names && s.Known(w) <==> w in StepUp(s, request, id)
  {
    forall w
      ensures w in names && s.Known(w) <==> w in StepUp(s, request, id)
    {
      if w in names && s.Known(w) {
        var p: nat :| p in edges && w == s.calls[p].caller;
      }
    }
  }

  /** The allowed ones of some positions. */
  ghost function AllowedOf(s: GraphSnapshot, request: TraversalRequest, positions: seq<nat>, defaultAll: bool): set<nat> {
    set p | p in positions && p < |s.calls| && Allows(request.resolutions, s.calls[p].resolution, defaultAll)
  }

  lemma AllowedPush(s: GraphSnapshot, request: TraversalRequest, positions: seq<nat>, p: nat, defaultAll: bool)
    requires p < |s.calls|
    ensures AllowedOf(s, request, positions + [p], defaultAll)
         == AllowedOf(s, request, positions, defaultAll)
            + if Allows(request.resolutions, s.calls[p].resolution, defaultAll) then {p} else {}
  {
  }

  /** The loops below have listed these edges, and gathered these calls, from some positions. */
  ghost predicate Following(
    s: GraphSnapshot, request: TraversalRequest, positions: seq<nat>, defaultAll: bool, edges: set<nat>, gathered: seq<CallSite>)
  {
    edges == AllowedOf(s, request, positions, defaultAll) && gathered == Gather(s.calls, positions, request.resolutions, defaultAll)
  }

  lemma FollowingPush(
    s: GraphSnapshot, request: TraversalRequest, positions: seq<nat>, i: nat, defaultAll: bool, edges: set<nat>,
    gathered: seq<CallSite>)
    returns (after: seq<CallSite>)
    requires i < |positions| && positions[i] < |s.calls|
    requires Following(s, request, positions[..i], defaultAll, edges, gathered)
    ensures
      var p := positions[i];
      if Allows(request.resolutions, s.calls[p].resolution, defaultAll) then
        && Following(s, request, positions[..i + 1], defaultAll, edges + {p}, after)
        && AllMentions(after) == AllMentions(gathered) + Mentions(s.calls[p])
        && AllCallers(after) == AllCallers(gathered) + [s.calls[p].caller]
      else
        Following(s, request, positions[..i + 1], defaultAll, edges, gathered) && after == gathered
  {
    var p := positions[i];
    assert positions[..i + 1] == positions[..i] + [p];
    AllowedPush(s, request, positions[..i], p, defaultAll);
    after := GatherNames(s.calls, positions[..i], p, request.resolutions, defaultAll);
  }

  method FollowCallees(s: GraphSnapshot, request: TraversalRequest, positions: seq<nat>)
    returns (names: seq<SymbolId>, edges: set<nat>)
    requires forall i :: 0 <= i < |positions| ==> positions[i] < |s.calls|
    ensures edges == AllowedOf(s, request, positions, true)
    ensures names == AllMentions(Gather(s.calls, positions, request.resolutions, true))
  {
    names, edges := [], {};
    ghost var gathered: seq<CallSite> := [];
    for i := 0 to |positions|
      invariant Following(s, request, positions[..i], true, edges, gathered) == true
      invariant names == AllMentions(gathered)
    {
      var position := positions[i];
      gathered := FollowingPush(s, request, positions, i, true, edges, gathered);
      if Allows(request.resolutions, s.calls[position].resolution, true) {
        edges := edges + {position};
        names := names + Mentions(s.calls[position]);
      }
    }
    assert positions[..|positions|] == positions;
  }

  method FollowCallers(s: GraphSnapshot, request: TraversalRequest, positions: seq<nat>)
    returns (names: seq<SymbolId>, edges: set<nat>)
    requires forall i :: 0 <= i < |positions| ==> positions[i] < |s.calls|
    ensures edges == AllowedOf(s, request, positions, false)
    ensures names == AllCallers(Gather(s.calls, positions, request.resolutions, false))
  {
    names, edges := [], {};
    ghost var gathered: seq<CallSite> := [];
    for i := 0 to |positions|
      invariant Following(s, request, positions[..i], false, edges, gathered) == true
      invariant names == AllCallers(gathered)
    {
      var position := positions[i];
      gathered := FollowingPush(s, request, positions, i, false, edges, gathered);
      if Allows(request.resolutions, s.calls[position].resolution, false) {
        edges := edges + {position};
        names := names + [s.calls[position].caller];
      }
    }
    assert positions[..|positions|] == positions;
  }

  /** What is named is what the allowed positions mention, or who makes the calls there. */
  lemma {:induction false} GatheredNames(s: GraphSnapshot, request: TraversalRequest, positions: seq<nat>, defaultAll: bool, w: SymbolId)
    requires forall i :: 0 <= i < |positions| ==> positions[i] < |s.calls|
    ensures
      var calls, edges := Gather(s.calls, positions, request.resolutions, defaultAll), AllowedOf(s, request, positions, defaultAll);
      && (w in AllMentions(calls) <==> exists p <- edges :: w in Mentions(s.calls[p]))
      && (w in AllCallers(calls) <==> exists p <- edges :: s.calls[p].caller == w)
  {
    if positions != [] {
      var init, p := positions[..|positions| - 1], positions[|positions| - 1];
      GatheredNames(s, request, init, defaultAll, w);
      assert positions == init + [p];
      var after := GatherNames(s.calls, init, p, request.resolutions, defaultAll);
      AllowedPush(s, request, init, p, defaultAll);
    }
  }

  method RetainKnown(s: GraphSnapshot, all: seq<SymbolId>) returns (neighbours: seq<SymbolId>)
    ensures neighbours == Filter(KnownIn(s), all)
    ensures forall w :: w in neighbours <==> w in all && s.Known(w)
  {
    neighbours := [];
    for i := 0 to |all|
      invariant neighbours == Filter(KnownIn(s), all[..i])
    {
      assert all[..i + 1] == all[..i] + [all[i]];
      FilterConcat(KnownIn(s), all[..i], [all[i]]);
      FilterOne(KnownIn(s), all[i]);
      if s.Known(all[i]) {
        neighbours := neighbours + [all[i]];
      }
    }
    assert all[..|all|] == all;
    FilterMembers(KnownIn(s), all);
  }

  // ----- the walk

  /** The outcome of a walk: callables, edge positions, and the two flags. */
  datatype Walk = Walk(seen: set<SymbolId>, edgePositions: set<nat>, depthCut: bool, visitCut: bool)

  /** What holds before each turn of the walk; `dist` records the depth at which each callable was
      expanded and `order` the order in which they were. */
  ghost predicate Walking(s: GraphSnapshot, request: TraversalRequest, dist: map<SymbolId, nat>, order: seq<SymbolId>,
                          queue: seq<(SymbolId, nat)>, level: nat, walk: Walk)
  {
    && PopMarking(Step(s, request), Roots(request), request.depth, dist, queue, level)
    && walk.seen == dist.Keys && !walk.visitCut
    && walk.edgePositions == EdgesOf(s, request, dist.Keys)
    && DepthFlag(Step(s, request), request.depth, dist, order, walk.depthCut)
  }

  function Ids(queue: seq<(SymbolId, nat)>): seq<SymbolId> {
    seq(|queue|, i requires 0 <= i < |queue| => queue[i].0)
  }

  /** The recorded depths are distances, and callables are expanded in order of discovery. */
  ghost predicate Ordered(s: GraphSnapshot, request: TraversalRequest, dist: map<SymbolId, nat>, order: seq<SymbolId>,
                          queue: seq<(SymbolId, nat)>)
  {
    && Exact(Step(s, request), Roots(request), dist)
    && Queueing(request.roots, NeighbourLists(s, request), Followed(s, request), order, Ids(queue))
  }

  /** The callables whose neighbours are queued. */
  ghost function Followed(s: GraphSnapshot, request: TraversalRequest): set<SymbolId> {
    Inner(Step(s, request), Roots(request), request.depth)
  }

  /** Each callable is the next one a queue yields after those before it; `DiscoveredUnique` says that
      this determines the list. */
  ghost predicate InQueueOrder(s: GraphSnapshot, request: TraversalRequest, order: seq<SymbolId>) {
    Discovered(request.roots, NeighbourLists(s, request), Followed(s, request), order)
  }

  /** The budget was used up after `order`, when one more callable had just been marked. */
  ghost predicate StoppedAfter(s: GraphSnapshot, request: TraversalRequest, order: seq<SymbolId>, seen: set<SymbolId>) {
    && |order| == VISIT_LIMIT
    && exists next :: next !in order && InQueueOrder(s, request, order + [next]) && seen == Members(order) + {next}
  }

  method WalkFrom(s: GraphSnapshot, request: TraversalRequest) returns (walk: Walk, ghost order: seq<SymbolId>)
    requires s.Valid()
    // callables are expanded in queue order; their allowed edges are collected, and the depth flag says
    // that one at the requested depth came before one of its neighbours
    ensures InQueueOrder(s, request, order)
    ensures walk.edgePositions == EdgesOf(s, request, Members(order))
    ensures walk.depthCut <==> Alarm(Step(s, request), Roots(request), request.depth, order)
    // the budget stops the walk exactly when more callables are in range than it allows
    ensures walk.visitCut <==> |Within(s, request)| > VISIT_LIMIT
    ensures walk.visitCut ==> StoppedAfter(s, request, order, walk.seen) && walk.seen <= Within(s, request)
    // otherwise exactly the callables in range are expanded, nearest first
    ensures !walk.visitCut ==> walk.seen == Members(order) == Within(s, request)
    ensures !walk.visitCut ==> ExpansionOrder(Step(s, request), Roots(request), request.depth, order)
  {
    walk := Walk({}, {}, false, false);
    var queue: seq<(SymbolId, nat)> := seq(|request.roots|, i requires 0 <= i < |request.roots| => (request.roots[i], 0));
    ghost var dist: map<SymbolId, nat>, level: nat := map[], 0;
    order := [];
    ValidListsSites(s);
    StartWalk(s, request, queue);
    var expanded := 0;
    while queue != []
      invariant Walking(s, request, dist, order, queue, level, walk) == true
      invariant Ordered(s, request, dist, order, queue) == true
      invariant expanded == |dist| <= VISIT_LIMIT
      decreases VISIT_LIMIT - expanded, |queue|
    {
      var (id, depth) := queue[0];
      if id in walk.seen {
        SkipSeen(s, request, dist, order, queue, level, walk);
        queue, level := queue[1..], depth;
        continue;
      }
      if expanded >= VISIT_LIMIT {
        StopWalk(s, request, dist, order, queue, level, walk);
        walk := walk.(seen := walk.seen + {id}, visitCut := true);
        return;
      }
      expanded := expanded + 1;
      walk, queue := Expand(s, request, walk, queue, dist, order, level);
      dist, order, level := dist[id := depth], order + [id], depth;
    }
    FinishWalk(s, request, dist, order, level, walk);
  }

  /** One turn of the walk: the callable at the front of the queue is seen, its edges are collected, and
      its unseen neighbours are queued or, at the requested depth, noticed. */
  method Expand(s: GraphSnapshot, request: TraversalRequest, walk: Walk, queue: seq<(SymbolId, nat)>,
                ghost dist: map<SymbolId, nat>, ghost order: seq<SymbolId>, ghost level: nat)
    returns (after: Walk, rest: seq<(SymbolId, nat)>)
    requires ListsSites(s) && Walking(s, request, dist, order, queue, level, walk) == true
    requires Ordered(s, request, dist, order, queue) == true
    requires queue != [] && queue[0].0 !in dist
    ensures Walking(s, request, dist[queue[0].0 := queue[0].1], order + [queue[0].0], rest, queue[0].1, after) == true
    ensures Ordered(s, request, dist[queue[0].0 := queue[0].1], order + [queue[0].0], rest) == true
  {
    var (id, depth) := queue[0];
    var seen := walk.seen + {id};
    var neighbours, edges := NeighboursOf(s, request, id, walk.edgePositions);
    if depth >= request.depth {
      var beyond := exists neighbour <- neighbours :: neighbour !in seen;
      RimTurn(s, request, dist, order, queue, level, walk);
      after, rest := Walk(seen, edges, walk.depthCut || beyond, false), queue[1..];
    } else {
      var pushed := PushNew(neighbours, seen, depth + 1);
      InnerTurn(s, request, dist, order, queue, level, walk, pushed);
      after, rest := Walk(seen, edges, walk.depthCut, false), queue[1..] + pushed;
    }
  }

  lemma RimTurn(s: GraphSnapshot, request: TraversalRequest, dist: map<SymbolId, nat>, order: seq<SymbolId>,
                queue: seq<(SymbolId, nat)>, level: nat, walk: Walk)
    requires Walking(s, request, dist, order, queue, level, walk) == true
    requires Ordered(s, request, dist, order, queue) == true
    requires queue != [] && queue[0].0 !in dist && queue[0].1 >= request.depth
    ensures Ordered(s, request, dist[queue[0].0 := queue[0].1], order + [queue[0].0], queue[1..]) == true
    ensures
      var (id, depth) := queue[0];
      var seen := walk.seen + {id};
      var beyond := exists w <- Step(s, request)(id) :: w !in seen;
      Walking(s, request, dist[id := depth], order + [id], queue[1..], depth,
              Walk(seen, walk.edgePositions + IncidentEdges(s, request, id), walk.depthCut || beyond, false)) == true
  {
    ExpandRim(s, request, dist, order, queue, level, walk);
    RimOrdered(s, request, dist, order, queue, level, walk);
  }

  lemma RimOrdered(s: GraphSnapshot, request: TraversalRequest, dist: map<SymbolId, nat>, order: seq<SymbolId>,
                   queue: seq<(SymbolId, nat)>, level: nat, walk: Walk)
    requires Walking(s, request, dist, order, queue, level, walk) == true
    requires Ordered(s, request, dist, order, queue) == true
    requires queue != [] && queue[0].0 !in dist && queue[0].1 >= request.depth
    ensures Ordered(s, request, dist[queue[0].0 := queue[0].1], order + [queue[0].0], queue[1..]) == true
  {
    OrderHoldsSeen(s, request, dist, order, queue, level, walk);
    OrderedNew(s, request, dist, order, queue, level, []);
    assert queue[1..] + [] == queue[1..];
  }

  lemma InnerTurn(s: GraphSnapshot, request: TraversalRequest, dist: map<SymbolId, nat>, order: seq<SymbolId>,
                  queue: seq<(SymbolId, nat)>, level: nat, walk: Walk, pushed: seq<(SymbolId, nat)>)
    requires Walking(s, request, dist, order, queue, level, walk) == true
    requires Ordered(s, request, dist, order, queue) == true
    requires queue != [] && queue[0].0 !in dist && queue[0].1 < request.depth
    requires Ids(pushed) == Filter(Unseen(walk.seen + {queue[0].0}), Neighbours(s, request, queue[0].0))
    requires forall e :: e in pushed <==> e.1 == queue[0].1 + 1 && e.0 in Step(s, request)(queue[0].0) && e.0 !in walk.seen + {queue[0].0}
    ensures Ordered(s, request, dist[queue[0].0 := queue[0].1], order + [queue[0].0], queue[1..] + pushed) == true
    ensures
      var (id, depth) := queue[0];
      Walking(s, request, dist[id := depth], order + [id], queue[1..] + pushed, depth,
              Walk(walk.seen + {id}, walk.edgePositions + IncidentEdges(s, request, id), walk.depthCut, false)) == true
  {
    ExpandInner(s, request, dist, order, queue, level, walk, pushed);
    OrderHoldsSeen(s, request, dist, order, queue, level, walk);
    OrderedNew(s, request, dist, order, queue, level, pushed);
  }

  lemma OrderedNew(s: GraphSnapshot, request: TraversalRequest, dist: map<SymbolId, nat>, order: seq<SymbolId>,
                   queue: seq<(SymbolId, nat)>, level: nat, pushed: seq<(SymbolId, nat)>)
    requires PopMarking(Step(s, request), Roots(request), request.depth, dist, queue, level) == true
    requires Ordered(s, request, dist, order, queue) == true && Members(order) == dist.Keys
    requires queue != [] && queue[0].0 !in dist
    requires Ids(pushed) == if queue[0].1 >= request.depth then []
                            else Filter(Unseen(dist.Keys + {queue[0].0}), Neighbours(s, request, queue[0].0))
    ensures Ordered(s, request, dist[queue[0].0 := queue[0].1], order + [queue[0].0], queue[1..] + pushed) == true
  {
    var (id, depth) := queue[0];
    HeadAtDistance(Step(s, request), Roots(request), request.depth, dist, queue, level);
    ExactWith(Step(s, request), Roots(request), dist, id, depth);
    InnerByDistance(Step(s, request), Roots(request), request.depth, id, depth);
    assert id !in Members(order);
    QueueingNew(request.roots, NeighbourLists(s, request), Followed(s, request), order, Ids(queue), Ids(pushed));
    IdsOfRest(queue, pushed);
  }

  lemma IdsOfRest(queue: seq<(SymbolId, nat)>, pushed: seq<(SymbolId, nat)>)
    requires queue != []
    ensures Ids(queue[1..] + pushed) == Ids(queue)[1..] + Ids(pushed)
  {
  }

  lemma OrderHoldsSeen(s: GraphSnapshot, request: TraversalRequest, dist: map<SymbolId, nat>, order: seq<SymbolId>,
                       queue: seq<(SymbolId, nat)>, level: nat, walk: Walk)
    requires Walking(s, request, dist, order, queue, level, walk) == true
    ensures Members(order) == dist.Keys == walk.seen && |order| == |dist|
  {
    assert RecordedOrder(dist, order);
    DistinctSize(order);
  }

  lemma {:induction false} DistinctSize(order: seq<SymbolId>)
    requires forall i, j :: 0 <= i < j < |order| ==> order[i] != order[j]
    ensures |Members(order)| == |order|
  {
    if order != [] {
      var init, last := order[..|order| - 1], order[|order| - 1];
      DistinctSize(init);
      assert order == init + [last];
      MembersConcat(init, [last]);
      assert Members([last]) == {last};
      assert last !in init;
    }
  }

  /** An entry for a callable seen before is dropped. */
  lemma SkipSeen(s: GraphSnapshot, request: TraversalRequest, dist: map<SymbolId, nat>, order: seq<SymbolId>,
                 queue: seq<(SymbolId, nat)>, level: nat, walk: Walk)
    requires Walking(s, request, dist, order, queue, level, walk) == true
    requires Ordered(s, request, dist, order, queue) == true
    requires queue != [] && queue[0].0 in walk.seen
    ensures Walking(s, request, dist, order, queue[1..], queue[0].1, walk) == true
    ensures Ordered(s, request, dist, order, queue[1..]) == true
  {
    PopRecorded(Step(s, request), Roots(request), request.depth, dist, queue, level);
    OrderHoldsSeen(s, request, dist, order, queue, level, walk);
    SkipQueued(s, request, dist, order, queue);
  }

  lemma SkipQueued(s: GraphSnapshot, request: TraversalRequest, dist: map<SymbolId, nat>, order: seq<SymbolId>,
                   queue: seq<(SymbolId, nat)>)
    requires Ordered(s, request, dist, order, queue) == true && queue != [] && queue[0].0 in Members(order)
    ensures Ordered(s, request, dist, order, queue[1..]) == true
  {
    QueueingSeen(request.roots, NeighbourLists(s, request), Followed(s, request), order, Ids(queue));
    IdsOfTail(queue);
  }

  lemma IdsOfTail(queue: seq<(SymbolId, nat)>)
    requires queue != []
    ensures Ids(queue[1..]) == Ids(queue)[1..]
  {
  }

  lemma FinishWalk(s: GraphSnapshot, request: TraversalRequest, dist: map<SymbolId, nat>, order: seq<SymbolId>,
                   level: nat, walk: Walk)
    requires Walking(s, request, dist, order, [], level, walk) == true
    requires Ordered(s, request, dist, order, []) == true
    ensures walk.seen == Members(order) == dist.Keys == Within(s, request) && InQueueOrder(s, request, order)
    ensures walk.edgePositions == EdgesOf(s, request, Members(order))
    ensures ExpansionOrder(Step(s, request), Roots(request), request.depth, order)
    ensures walk.depthCut <==> Alarm(Step(s, request), Roots(request), request.depth, order)
  {
    OrderHoldsSeen(s, request, dist, order, [], level, walk);
    SearchDone(Step(s, request), Roots(request), request.depth, dist, level, order, walk.depthCut);
  }

  lemma StartWalk(s: GraphSnapshot, request: TraversalRequest, queue: seq<(SymbolId, nat)>)
    requires |queue| == |request.roots| && forall i :: 0 <= i < |queue| ==> queue[i] == (request.roots[i], 0)
    ensures Walking(s, request, map[], [], queue, 0, Walk({}, {}, false, false)) == true
    ensures Ordered(s, request, map[], [], queue) == true
  {
    assert Ids(queue) == request.roots;
    QueueingStart(request.roots, NeighbourLists(s, request), Followed(s, request));
    forall r | r in Roots(request)
      ensures Settled(map[], queue, r, 0)
    {
      var i :| 0 <= i < |request.roots| && request.roots[i] == r;
      assert queue[i] in queue;
    }
  }

  /** The edges of one more callable are its incident edges. */
  lemma EdgesOfOneMore(s: GraphSnapshot, request: TraversalRequest, nodes: set<SymbolId>, id: SymbolId)
    ensures EdgesOf(s, request, nodes + {id}) == EdgesOf(s, request, nodes) + IncidentEdges(s, request, id)
  {
  }

  /** Expanding a callable at the requested depth: nothing is queued, and the depth flag is raised
      when a neighbour has not been seen yet. */
  lemma ExpandRim(s: GraphSnapshot, request: TraversalRequest, dist: map<SymbolId, nat>, order: seq<SymbolId>,
                  queue: seq<(SymbolId, nat)>, level: nat, walk: Walk)
    requires Walking(s, request, dist, order, queue, level, walk)
    requires queue != [] && queue[0].0 !in dist && queue[0].1 >= request.depth
    ensures
      var (id, depth) := queue[0];
      var seen := walk.seen + {id};
      var beyond := exists w <- Step(s, request)(id) :: w !in seen;
      Walking(s, request, dist[id := depth], order + [id], queue[1..], depth,
              Walk(seen, walk.edgePositions + IncidentEdges(s, request, id), walk.depthCut || beyond, false))
  {
    var (id, depth) := queue[0];
    assert queue[0] in queue;
    PopFresh(Step(s, request), Roots(request), request.depth, dist, queue, level, []);
    assert queue[1..] + [] == queue[1..];
    EdgesOfOneMore(s, request, dist.Keys, id);
    assert dist[id := depth].Keys == dist.Keys + {id};
    FlagAfter(Step(s, request), request.depth, dist, order, walk.depthCut, id, depth);
  }

  /** Expanding a callable above the requested depth: its unseen neighbours are queued. */
  lemma ExpandInner(s: GraphSnapshot, request: TraversalRequest, dist: map<SymbolId, nat>, order: seq<SymbolId>,
                    queue: seq<(SymbolId, nat)>, level: nat, walk: Walk, pushed: seq<(SymbolId, nat)>)
    requires Walking(s, request, dist, order, queue, level, walk)
    requires queue != [] && queue[0].0 !in dist && queue[0].1 < request.depth
    requires forall e :: e in pushed <==> e.1 == queue[0].1 + 1 && e.0 in Step(s, request)(queue[0].0) && e.0 !in walk.seen + {queue[0].0}
    ensures
      var (id, depth) := queue[0];
      Walking(s, request, dist[id := depth], order + [id], queue[1..] + pushed, depth,
              Walk(walk.seen + {id}, walk.edgePositions + IncidentEdges(s, request, id), walk.depthCut, false))
  {
    var (id, depth) := queue[0];
    PopFresh(Step(s, request), Roots(request), request.depth, dist, queue, level, pushed);
    EdgesOfOneMore(s, request, dist.Keys, id);
    assert dist[id := depth].Keys == dist.Keys + {id};
    assert level <= depth;
    FlagAfter(Step(s, request), request.depth, dist, order, walk.depthCut, id, depth);
  }

  /** The budget is used up and the front of the queue is new. */
  lemma StopWalk(s: GraphSnapshot, request: TraversalRequest, dist: map<SymbolId, nat>, order: seq<SymbolId>,
                 queue: seq<(SymbolId, nat)>, level: nat, walk: Walk)
    requires Walking(s, request, dist, order, queue, level, walk) == true
    requires Ordered(s, request, dist, order, queue) == true
    requires queue != [] && queue[0].0 !in dist && |dist| == VISIT_LIMIT
    ensures InQueueOrder(s, request, order) && StoppedAfter(s, request, order, walk.seen + {queue[0].0})
    ensures walk.seen + {queue[0].0} <= Within(s, request) && |Within(s, request)| > VISIT_LIMIT
    ensures walk.edgePositions == EdgesOf(s, request, Members(order))
    ensures walk.depthCut <==> Alarm(Step(s, request), Roots(request), request.depth, order)
  {
    var id := queue[0].0;
    assert queue[0] in queue;
    RecordedAreWithin(Step(s, request), Roots(request), request.depth, dist, queue[0]);
    OrderHoldsSeen(s, request, dist, order, queue, level, walk);
    assert id !in Members(order);
    QueueingHead(request.roots, NeighbourLists(s, request), Followed(s, request), order, Ids(queue));
    assert InQueueOrder(s, request, order + [id]);
    AlarmIsRecorded(Step(s, request), Roots(request), request.depth, dist, order);
  }

  /** The queue entries for the neighbours not yet seen. */
  method PushNew(neighbours: seq<SymbolId>, seen: set<SymbolId>, depth: nat) returns (pushed: seq<(SymbolId, nat)>)
    ensures Ids(pushed) == Filter(Unseen(seen), neighbours) && forall e <- pushed :: e.1 == depth
    ensures forall e :: e in pushed <==> e.1 == depth && e.0 in neighbours && e.0 !in seen
  {
    pushed := [];
    for i := 0 to |neighbours|
      invariant Ids(pushed) == Filter(Unseen(seen), neighbours[..i])
      invariant forall e <- pushed :: e.1 == depth
    {
      var neighbour := neighbours[i];
      assert neighbours[..i + 1] == neighbours[..i] + [neighbour];
      FilterConcat(Unseen(seen), neighbours[..i], [neighbour]);
      FilterOne(Unseen(seen), neighbour);
      if neighbour !in seen {
        assert Ids(pushed + [(neighbour, depth)]) == Ids(pushed) + [neighbour];
        pushed := pushed + [(neighbour, depth)];
      }
    }
    assert neighbours[..|neighbours|] == neighbours;
    FilterMembers(Unseen(seen), neighbours);
    EntriesByIds(pushed, depth);
  }

  lemma EntriesByIds(queue: seq<(SymbolId, nat)>, depth: nat)
    requires forall e <- queue :: e.1 == depth
    ensures forall e :: e in queue <==> e.1 == depth && e.0 in Ids(queue)
  {
    forall e: (SymbolId, nat)
      ensures e in queue <==> e.1 == depth && e.0 in Ids(queue)
    {
      if e in queue {
        var i :| 0 <= i < |queue| && queue[i] == e;
        assert Ids(queue)[i] == e.0;
      }
      if e.1 == depth && e.0 in Ids(queue) {
        var i :| 0 <= i < |queue| && Ids(queue)[i] == e.0;
        assert queue[i] in queue;
      }
    }
  }

  lemma RecordedAreWithin(succ: SymbolId -> set<SymbolId>, roots: set<SymbolId>, limit: nat, dist: map<SymbolId, nat>, next: (SymbolId, nat))
    requires Sound(succ, roots, limit, dist) && next.1 <= limit && next.0 in Ball(succ, roots, next.1) && next.0 !in dist
    ensures dist.Keys + {next.0} <= Ball(succ, roots, limit)
    ensures |dist| < |Ball(succ, roots, limit)|
  {
    forall v | v in dist.Keys
      ensures v in Ball(succ, roots, limit)
    {
      BallGrows(succ, roots, dist[v], limit);
    }
    BallGrows(succ, roots, next.1, limit);
    SubsetSize(dist.Keys + {next.0}, Ball(succ, roots, limit));
  }

  lemma {:induction false} SubsetSize<T>(a: set<T>, b: set<T>)
    requires a <= b
    ensures |a| <= |b|
  {
    if a != {} {
      var x :| x in a;
      SubsetSize(a - {x}, b - {x});
    }
  }

  // ----- traversal requests

  datatype TraversalResponse = TraversalResponse(
    nodes: Page<CallableSymbol>,
    edges: Page<CallSite>,
    truncatedBy: seq<TraversalLimit>)

  /** Why a traversal request is refused, if it is. */
  function Refusal(s: GraphSnapshot, request: TraversalRequest): Option<QueryError> {
    if request.limit == 0 then Some(LimitMissing)
    else if request.depth > DEPTH_LIMIT then Some(DepthExceeded(request.depth))
    else if request.roots == [] then Some(RootsMissing)
    else if |request.roots| > ROOT_LIMIT then Some(TooManyRoots)
    else FirstUnknown(s, request.roots)
  }

  function FirstUnknown(s: GraphSnapshot, roots: seq<SymbolId>): (r: Option<QueryError>)
    ensures r.None? <==> forall root <- roots :: s.Known(root)
  {
    if roots == [] then None
    else if !s.Known(roots[0]) then Some(UnknownCallable(roots[0].text))
    else FirstUnknown(s, roots[1..])
  }

  /** The members of a set of positions below `n`, in ascending order. */
  function Ascending(positions: set<nat>, n: nat): (r: seq<nat>)
    ensures forall p :: p in r <==> p in positions && p < n
  {
    if n == 0 then [] else Ascending(positions, n - 1) + if n - 1 in positions then [n - 1] else []
  }

  lemma {:induction false} AscendingIsSorted(positions: set<nat>, n: nat)
    ensures forall i, j :: 0 <= i < j < |Ascending(positions, n)| ==> Ascending(positions, n)[i] < Ascending(positions, n)[j]
  {
    if n > 0 {
      AscendingIsSorted(positions, n - 1);
      var earlier := Ascending(positions, n - 1);
      assert forall i :: 0 <= i < |earlier| ==> earlier[i] in earlier;
    }
  }

  function Select<T>(items: seq<T>, positions: seq<nat>): seq<T>
    requires forall p <- positions :: p < |items|
  {
    seq(|positions|, i requires 0 <= i < |positions| => assert positions[i] in positions; items[positions[i]])
  }

  /** The callables with these ids, in snapshot order. */
  function NodesOf(s: GraphSnapshot, ids: set<SymbolId>): seq<CallableSymbol> {
    Select(s.callables, Ascending(set id | id in ids && s.Known(id) :: s.index.callableById[id], |s.callables|))
  }

  /** The call sites at these positions, in snapshot order. */
  function SitesAt(s: GraphSnapshot, positions: set<nat>): seq<CallSite> {
    Select(s.calls, Ascending(positions, |s.calls|))
  }

  /** The answer lists all callables reachable from the roots at any depth, and all the allowed
      edges of those callables. */
  ghost predicate Complete(s: GraphSnapshot, request: TraversalRequest, nodes: seq<CallableSymbol>, edges: seq<CallSite>) {
    exists all: set<SymbolId> ::
      && (forall v :: v in all <==> Reachable(Step(s, request), Roots(request), v))
      && nodes == NodesOf(s, all)
      && edges == SitesAt(s, EdgesOf(s, request, all))
  }

  /** The whole range in the order in which the queue yields it. */
  ghost predicate WalkOrder(s: GraphSnapshot, request: TraversalRequest, order: seq<SymbolId>) {
    InQueueOrder(s, request, order) && ExpansionOrder(Step(s, request), Roots(request), request.depth, order)
  }

  /** There is only one such order. */
  lemma WalkOrderUnique(s: GraphSnapshot, request: TraversalRequest, a: seq<SymbolId>, b: seq<SymbolId>)
    requires WalkOrder(s, request, a) && WalkOrder(s, request, b)
    ensures a == b
  {
    DistinctSize(a);
    DistinctSize(b);
    assert Members(a) == Within(s, request) == Members(b);
    DiscoveredUnique(request.roots, NeighbourLists(s, request), Followed(s, request), a, b);
  }

  /** In queue order a callable at the requested depth comes before one of its neighbours. */
  ghost predicate DepthFlagged(s: GraphSnapshot, request: TraversalRequest, flag: bool) {
    && (exists order :: WalkOrder(s, request, order))
    && forall order | WalkOrder(s, request, order) ::
         flag <==> Alarm(Step(s, request), Roots(request), request.depth, order)
  }

  lemma FlagIsDetermined(s: GraphSnapshot, request: TraversalRequest, order: seq<SymbolId>)
    requires WalkOrder(s, request, order)
    ensures DepthFlagged(s, request, Alarm(Step(s, request), Roots(request), request.depth, order))
  {
    forall other | WalkOrder(s, request, other)
      ensures other == order
    {
      WalkOrderUnique(s, request, other, order);
    }
  }

  /** When the budget stopped the walk: the first callables in queue order are listed, one more than
      the budget, and the allowed edges of all but the last of them. The flags say which list was cut
      and whether an expanded callable at the requested depth came before one of its neighbours. */
  ghost predicate CutShort(s: GraphSnapshot, request: TraversalRequest, size: nat, response: TraversalResponse) {
    exists order, seen ::
      && StoppedAfter(s, request, order, seen) && seen <= Within(s, request)
      && Lists(NodesOf(s, seen), SitesAt(s, EdgesOf(s, request, Members(order))), size, response)
      && (Depth in response.truncatedBy <==> Alarm(Step(s, request), Roots(request), request.depth, order))
  }

  /** The walk can stop in one place only. */
  lemma StoppedUnique(
    s: GraphSnapshot, request: TraversalRequest, a: seq<SymbolId>, seenA: set<SymbolId>, b: seq<SymbolId>, seenB: set<SymbolId>)
    requires StoppedAfter(s, request, a, seenA) && StoppedAfter(s, request, b, seenB)
    ensures a == b && seenA == seenB
  {
    var v :| v !in a && InQueueOrder(s, request, a + [v]) && seenA == Members(a) + {v};
    var w :| w !in b && InQueueOrder(s, request, b + [w]) && seenB == Members(b) + {w};
    DiscoveredUnique(request.roots, NeighbourLists(s, request), Followed(s, request), a + [v], b + [w]);
    assert a == (a + [v])[..|a|] && b == (b + [w])[..|b|] && v == (a + [v])[|a|] && w == (b + [w])[|b|];
  }

  function FirstOf<T>(items: seq<T>, size: nat): seq<T> {
    items[..Min(size, |items|)]
  }

  /** Each list up to the page size, and a flag for each that was longer. */
  ghost predicate Lists(nodes: seq<CallableSymbol>, edges: seq<CallSite>, size: nat, response: TraversalResponse) {
    && response.nodes.items == FirstOf(nodes, size) && (NodeLimit in response.truncatedBy <==> size < |nodes|)
    && response.edges.items == FirstOf(edges, size) && (EdgeLimit in response.truncatedBy <==> size < |edges|)
  }

  /** When it did not: the callables in range and their allowed edges are listed, and the flags say
      which list was cut and what the depth limit did. */
  ghost predicate InFull(s: GraphSnapshot, request: TraversalRequest, size: nat, response: TraversalResponse) {
    && Lists(NodesOf(s, Within(s, request)), SitesAt(s, EdgesOf(s, request, Within(s, request))), size, response)
    && DepthFlagged(s, request, Depth in response.truncatedBy)
    && DepthTold(s, request, Depth in response.truncatedBy)
  }

  // ----- the answer in terms of the calls and callables themselves

  /** The call goes to `w`, for sure or possibly. */
  ghost predicate MayReach(call: CallSite, w: SymbolId) {
    call.target == Some(w) || w in call.candidates
  }

  /** The request follows the call from its caller; without a filter whatever its resolution is. */
  ghost predicate Forward(request: TraversalRequest, call: CallSite) {
    request.direction != Callers && (request.resolutions == [] || call.resolution in request.resolutions)
  }

  /** The request follows the call to its caller; without a filter unless it is unresolved. */
  ghost predicate Back(request: TraversalRequest, call: CallSite) {
    && request.direction != Callees
    && if request.resolutions == [] then call.resolution == Resolved || call.resolution == Possible
       else call.resolution in request.resolutions
  }

  /** Some call that the request follows leads from `v` to the callable `w`. */
  ghost predicate Joins(s: GraphSnapshot, request: TraversalRequest, v: SymbolId, w: SymbolId) {
    && (exists c <- s.callables :: c.id == w)
    && exists call <- s.calls ::
         || (Forward(request, call) && call.caller == v && MayReach(call, w))
         || (Back(request, call) && MayReach(call, v) && call.caller == w)
  }

  /** A chain of such calls from a root. */
  ghost predicate Chain(s: GraphSnapshot, request: TraversalRequest, path: seq<SymbolId>) {
    && path != [] && path[0] in request.roots
    && forall i :: 0 <= i < |path| - 1 ==> Joins(s, request, path[i], path[i + 1])
  }

  ghost predicate Linked(s: GraphSnapshot, request: TraversalRequest, id: SymbolId) {
    exists path :: Chain(s, request, path) && path[|path| - 1] == id
  }

  /** A chain no longer than the requested depth. */
  ghost predicate InRange(s: GraphSnapshot, request: TraversalRequest, id: SymbolId) {
    exists path :: Chain(s, request, path) && path[|path| - 1] == id && |path| <= request.depth + 1
  }

  /** The request follows the call at a callable in range. */
  ghost predicate Touches(s: GraphSnapshot, request: TraversalRequest, call: CallSite) {
    || (Forward(request, call) && InRange(s, request, call.caller))
    || (Back(request, call) && exists v :: InRange(s, request, v) && MayReach(call, v))
  }

  /** The last callable of the snapshot with its id. */
  ghost predicate Newest(s: GraphSnapshot, c: CallableSymbol) {
    exists p: nat :: p < |s.callables| && s.callables[p] == c && forall q :: p < q < |s.callables| ==> s.callables[q].id != c.id
  }

  /** Some of all the items, at strictly ascending positions. */
  ghost predicate InOrder<T>(items: seq<T>, all: seq<T>) {
    exists positions: seq<nat> ::
      && |positions| == |items|
      && (forall i :: 0 <= i < |items| ==> positions[i] < |all| && all[positions[i]] == items[i])
      && forall i, j :: 0 <= i < j < |items| ==> positions[i] < positions[j]
  }

  /** Callables in range and calls followed there are listed and nothing else, in the order of the
      snapshot; all of them, unless a limit on them is named. Without any limit named these are the
      callables that chains of any length lead to. */
  ghost predicate Tells(s: GraphSnapshot, request: TraversalRequest, response: TraversalResponse) {
    var nodes, edges := response.nodes.items, response.edges.items;
    && InOrder(nodes, s.callables) && InOrder(edges, s.calls)
    && (forall c <- nodes :: Newest(s, c) && InRange(s, request, c.id))
    && (forall call <- edges :: Touches(s, request, call))
    && (VisitBudget !in response.truncatedBy && NodeLimit !in response.truncatedBy ==>
          forall c :: Newest(s, c) && InRange(s, request, c.id) ==> c in nodes)
    && (VisitBudget !in response.truncatedBy && EdgeLimit !in response.truncatedBy ==>
          forall call <- s.calls :: Touches(s, request, call) ==> call in edges)
    && (response.truncatedBy == [] ==> forall id :: Linked(s, request, id) ==> InRange(s, request, id))
  }

  lemma MentionsMeans(call: CallSite, w: SymbolId)
    ensures w in Mentions(call) <==> MayReach(call, w)
  {
  }

  lemma FollowsMeans(request: TraversalRequest, call: CallSite, id: SymbolId)
    ensures FollowsDown(request, call, id) <==> Forward(request, call) && call.caller == id
    ensures FollowsUp(request, call, id) <==> Back(request, call) && MayReach(call, id)
  {
    MentionsMeans(call, id);
  }

  lemma KnownMeans(s: GraphSnapshot, id: SymbolId)
    requires s.Valid()
    ensures s.Known(id) <==> exists c <- s.callables :: c.id == id
  {
    if s.Known(id) {
      assert s.callables[s.index.callableById[id]] in s.callables;
    }
  }

  /** One step, read off the fields. */
  lemma StepMeans(s: GraphSnapshot, request: TraversalRequest, v: SymbolId, w: SymbolId)
    requires s.Valid()
    ensures w in Step(s, request)(v) <==> Joins(s, request, v, w)
  {
    KnownMeans(s, w);
    if w in StepDown(s, request, v) {
      var p: nat :| p < |s.calls| && FollowsDown(request, s.calls[p], v) && w in Mentions(s.calls[p]);
      FollowsMeans(request, s.calls[p], v);
      MentionsMeans(s.calls[p], w);
      assert s.calls[p] in s.calls;
    }
    if w in StepUp(s, request, v) {
      var p: nat :| p < |s.calls| && FollowsUp(request, s.calls[p], v) && s.calls[p].caller == w;
      FollowsMeans(request, s.calls[p], v);
      assert s.calls[p] in s.calls;
    }
    if Joins(s, request, v, w) {
      var call :| call in s.calls
                  && ((Forward(request, call) && call.caller == v && MayReach(call, w))
                      || (Back(request, call) && MayReach(call, v) && call.caller == w));
      var p: nat :| p < |s.calls| && s.calls[p] == call;
      FollowsMeans(request, call, v);
      MentionsMeans(call, w);
    }
  }

  lemma ChainMeans(s: GraphSnapshot, request: TraversalRequest, path: seq<SymbolId>)
    requires s.Valid()
    ensures Chain(s, request, path) <==> IsPath(Step(s, request), path) && path[0] in Roots(request)
  {
    forall i | 0 <= i < |path| - 1
      ensures path[i + 1] in Step(s, request)(path[i]) <==> Joins(s, request, path[i], path[i + 1])
    {
      StepMeans(s, request, path[i], path[i + 1]);
    }
  }

  lemma PathMeans(s: GraphSnapshot, request: TraversalRequest, id: SymbolId, n: nat)
    requires s.Valid()
    ensures id in Ball(Step(s, request), Roots(request), n)
            <==> exists path :: Chain(s, request, path) && path[|path| - 1] == id && |path| <= n + 1
  {
    BallIsShortPaths(Step(s, request), Roots(request), id, n);
    if HasPath(Step(s, request), Roots(request), id, n) {
      var path :| IsPath(Step(s, request), path) && path[0] in Roots(request) && path[|path| - 1] == id && |path| <= n + 1;
      ChainMeans(s, request, path);
    }
    if path :| Chain(s, request, path) && path[|path| - 1] == id && |path| <= n + 1 {
      ChainMeans(s, request, path);
    }
  }

  lemma RangeMeans(s: GraphSnapshot, request: TraversalRequest)
    requires s.Valid()
    ensures forall id :: id in Within(s, request) <==> InRange(s, request, id)
    ensures Closed(Step(s, request), Within(s, request)) ==> forall id :: Linked(s, request, id) ==> InRange(s, request, id)
  {
    forall id
      ensures id in Within(s, request) <==> InRange(s, request, id)
    {
      PathMeans(s, request, id, request.depth);
    }
    if Closed(Step(s, request), Within(s, request)) {
      ClosedBallIsReachable(Step(s, request), Roots(request), request.depth);
      forall id | Linked(s, request, id)
        ensures InRange(s, request, id)
      {
        var path :| Chain(s, request, path) && path[|path| - 1] == id;
        PathMeans(s, request, id, |path| - 1);
      }
    }
  }

  lemma NodesMean(s: GraphSnapshot, ids: set<SymbolId>)
    requires s.Valid()
    ensures forall c :: c in NodesOf(s, ids) <==> Newest(s, c) && c.id in ids
    ensures InOrder(NodesOf(s, ids), s.callables)
  {
    var chosen := set id | id in ids && s.Known(id) :: s.index.callableById[id];
    var positions := Ascending(chosen, |s.callables|);
    AscendingIsSorted(chosen, |s.callables|);
    SelectMeans(s.callables, positions);
    forall c
      ensures c in NodesOf(s, ids) <==> Newest(s, c) && c.id in ids
    {
      if Newest(s, c) {
        var p: nat :| p < |s.callables| && s.callables[p] == c && forall q :: p < q < |s.callables| ==> s.callables[q].id != c.id;
        assert s.Known(c.id) && s.index.callableById[c.id] == p;
      }
      if p: nat :| p in positions && s.callables[p] == c {
        NewestAt(s, p);
      }
    }
  }

  lemma NewestAt(s: GraphSnapshot, p: nat)
    requires s.Valid() && p < |s.callables| && exists id :: s.Known(id) && s.index.callableById[id] == p
    ensures Newest(s, s.callables[p]) && s.Known(s.callables[p].id) && s.index.callableById[s.callables[p].id] == p
  {
    var id :| s.Known(id) && s.index.callableById[id] == p;
    assert s.callables[p].id == id;
    forall q | p < q < |s.callables|
      ensures s.callables[q].id != id
    {
    }
  }

  lemma SelectMeans<T>(all: seq<T>, positions: seq<nat>)
    requires forall p <- positions :: p < |all|
    requires forall i, j :: 0 <= i < j < |positions| ==> positions[i] < positions[j]
    ensures InOrder(Select(all, positions), all)
    ensures forall x :: x in Select(all, positions) <==> exists p <- positions :: all[p] == x
  {
    var items := Select(all, positions);
    assert forall i :: 0 <= i < |positions| ==> positions[i] in positions;
    assert forall i :: 0 <= i < |items| ==> positions[i] < |all| && all[positions[i]] == items[i];
    forall x
      ensures x in items <==> exists p <- positions :: all[p] == x
    {
      if p :| p in positions && all[p] == x {
        var i :| 0 <= i < |positions| && positions[i] == p;
        assert items[i] == x;
      }
      if x in items {
        var i :| 0 <= i < |items| && items[i] == x;
        assert positions[i] in positions;
      }
    }
  }

  /** The allowed edges of some callables, read off the fields. */
  lemma EdgesMean(s: GraphSnapshot, request: TraversalRequest, nodes: set<SymbolId>)
    requires nodes <= Within(s, request) && s.Valid()
    ensures
      var edges := SitesAt(s, EdgesOf(s, request, nodes));
      && InOrder(edges, s.calls)
      && (forall call <- edges :: Touches(s, request, call))
      && (nodes == Within(s, request) ==> forall call <- s.calls :: Touches(s, request, call) ==> call in edges)
  {
    var chosen := EdgesOf(s, request, nodes);
    var positions := Ascending(chosen, |s.calls|);
    AscendingIsSorted(chosen, |s.calls|);
    SelectMeans(s.calls, positions);
    RangeMeans(s, request);
    forall call | call in SitesAt(s, chosen)
      ensures Touches(s, request, call)
    {
      var p: nat :| p in positions && s.calls[p] == call;
      EdgeTouches(s, request, nodes, p);
    }
    if nodes == Within(s, request) {
      forall call <- s.calls | Touches(s, request, call)
        ensures call in SitesAt(s, chosen)
      {
        var p: nat :| p < |s.calls| && s.calls[p] == call;
        TouchedIsEdge(s, request, p);
        assert p in positions;
      }
    }
  }

  lemma EdgeTouches(s: GraphSnapshot, request: TraversalRequest, nodes: set<SymbolId>, p: nat)
    requires nodes <= Within(s, request) && s.Valid() && p < |s.calls| && p in EdgesOf(s, request, nodes)
    ensures Touches(s, request, s.calls[p]) == true
  {
    RangeMeans(s, request);
    var id :| id in nodes && p in IncidentEdges(s, request, id);
    FollowsMeans(request, s.calls[p], id);
  }

  lemma TouchedIsEdge(s: GraphSnapshot, request: TraversalRequest, p: nat)
    requires s.Valid() && p < |s.calls| && Touches(s, request, s.calls[p])
    ensures p in EdgesOf(s, request, Within(s, request))
  {
    var call := s.calls[p];
    RangeMeans(s, request);
    if Forward(request, call) && InRange(s, request, call.caller) {
      FollowsMeans(request, call, call.caller);
      assert p in IncidentEdges(s, request, call.caller);
    } else {
      var v :| InRange(s, request, v) && MayReach(call, v);
      FollowsMeans(request, call, v);
      assert p in IncidentEdges(s, request, v);
    }
  }

  lemma FirstOfOrdered<T>(items: seq<T>, all: seq<T>, size: nat)
    requires InOrder(items, all)
    ensures InOrder(FirstOf(items, size), all)
    ensures forall x <- FirstOf(items, size) :: x in items
    ensures size >= |items| ==> FirstOf(items, size) == items
  {
    var positions: seq<nat> :|
      && |positions| == |items|
      && (forall i :: 0 <= i < |items| ==> positions[i] < |all| && all[positions[i]] == items[i])
      && forall i, j :: 0 <= i < j < |items| ==> positions[i] < positions[j];
    var first, places := FirstOf(items, size), positions[..Min(size, |items|)];
    OrderAt(first, all, places);
  }

  lemma OrderAt<T>(items: seq<T>, all: seq<T>, positions: seq<nat>)
    requires |positions| == |items|
    requires forall i :: 0 <= i < |items| ==> positions[i] < |all| && all[positions[i]] == items[i]
    requires forall i, j :: 0 <= i < j < |items| ==> positions[i] < positions[j]
    ensures InOrder(items, all)
  {
  }

  /** What was listed of some callables in range, told in terms of the fields. */
  lemma ListingTells(s: GraphSnapshot, request: TraversalRequest, size: nat, nodes: set<SymbolId>, expanded: set<SymbolId>,
                     response: TraversalResponse)
    requires s.Valid() && expanded <= nodes <= Within(s, request)
    requires Lists(NodesOf(s, nodes), SitesAt(s, EdgesOf(s, request, expanded)), size, response)
    requires VisitBudget !in response.truncatedBy ==> expanded == Within(s, request)
    requires response.truncatedBy == [] ==> Closed(Step(s, request), Within(s, request))
    ensures Tells(s, request, response)
  {
    NodesMean(s, nodes);
    EdgesMean(s, request, expanded);
    RangeMeans(s, request);
    FirstOfOrdered(NodesOf(s, nodes), s.callables, size);
    FirstOfOrdered(SitesAt(s, EdgesOf(s, request, expanded)), s.calls, size);
  }

  lemma FullTells(s: GraphSnapshot, request: TraversalRequest, size: nat, response: TraversalResponse)
    requires s.Valid() && InFull(s, request, size, response)
    ensures Tells(s, request, response) == true
  {
    ListingTells(s, request, size, Within(s, request), Within(s, request), response);
  }

  lemma CutTells(s: GraphSnapshot, request: TraversalRequest, size: nat, response: TraversalResponse)
    requires s.Valid() && CutShort(s, request, size, response) && VisitBudget in response.truncatedBy
    ensures Tells(s, request, response) == true
  {
    var order, seen :|
      && StoppedAfter(s, request, order, seen) && seen <= Within(s, request)
      && Lists(NodesOf(s, seen), SitesAt(s, EdgesOf(s, request, Members(order))), size, response);
    ListingTells(s, request, size, seen, Members(order), response);
  }

  /** An absent flag says that nothing lies out of range. A present one says that something does, unless
      two callables at the requested depth are joined by a step. */
  ghost predicate DepthTold(s: GraphSnapshot, request: TraversalRequest, flag: bool) {
    && (!flag ==> Closed(Step(s, request), Within(s, request)))
    && (flag && !EdgeInTheRim(Step(s, request), Roots(request), request.depth) ==> !Closed(Step(s, request), Within(s, request)))
  }

  method Traverse(s: GraphSnapshot, request: TraversalRequest) returns (r: Result<TraversalResponse, QueryError>)
    requires s.Valid()
    ensures if Refusal(s, request).Some? then r == Err(Refusal(s, request).value) else r.Ok?
    ensures r.Ok? ==> (VisitBudget in r.value.truncatedBy <==> |Within(s, request)| > 10_000)
    ensures r.Ok? && VisitBudget !in r.value.truncatedBy ==> InFull(s, request, ClampLimit(request.limit), r.value)
    ensures r.Ok? && VisitBudget in r.value.truncatedBy ==> CutShort(s, request, ClampLimit(request.limit), r.value)
    // the same read off the calls and callables
    ensures r.Ok? ==> Tells(s, request, r.value)
    // an answer without any limit named is the whole story, whatever the requested depth was
    ensures r.Ok? && r.value.truncatedBy == [] ==> Complete(s, request, r.value.nodes.items, r.value.edges.items)
  {
    var refusal := Refusal(s, request);
    if refusal.Some? {
      return Err(refusal.value);
    }
    var walk, order := WalkFrom(s, request);
    var nodes := FirstPage(NodesOf(s, walk.seen), request.limit, s.id);
    var edges := FirstPage(SitesAt(s, walk.edgePositions), request.limit, s.id);
    var truncatedBy := LimitsHit(walk.depthCut, nodes.truncated, edges.truncated, walk.visitCut);
    var response := TraversalResponse(nodes, edges, truncatedBy);
    r := Ok(response);
    if walk.visitCut {
      assert CutShort(s, request, ClampLimit(request.limit), response) == true;
      CutTells(s, request, ClampLimit(request.limit), response);
    } else {
      FlagsTell(s, request, order);
      assert InFull(s, request, ClampLimit(request.limit), response) == true;
      WholeAnswer(s, request, ClampLimit(request.limit), response);
      FullTells(s, request, ClampLimit(request.limit), response);
    }
  }

  lemma FlagsTell(s: GraphSnapshot, request: TraversalRequest, order: seq<SymbolId>)
    requires WalkOrder(s, request, order)
    ensures DepthFlagged(s, request, Alarm(Step(s, request), Roots(request), request.depth, order)) == true
    ensures DepthTold(s, request, Alarm(Step(s, request), Roots(request), request.depth, order)) == true
  {
    AlarmMeaning(Step(s, request), Roots(request), request.depth, order);
    FlagIsDetermined(s, request, order);
  }

  lemma WholeAnswer(s: GraphSnapshot, request: TraversalRequest, size: nat, response: TraversalResponse)
    requires InFull(s, request, size, response) == true && size > 0
    ensures response.truncatedBy == [] ==> Complete(s, request, response.nodes.items, response.edges.items)
  {
    if response.truncatedBy == [] {
      WholeStory(s, request);
      var all := NodesOf(s, Within(s, request));
      var sites := SitesAt(s, EdgesOf(s, request, Within(s, request)));
      assert all[..|all|] == all && sites[..|sites|] == sites;
    }
  }

  lemma WholeStory(s: GraphSnapshot, request: TraversalRequest)
    requires Closed(Step(s, request), Within(s, request))
    ensures Complete(s, request, NodesOf(s, Within(s, request)), SitesAt(s, EdgesOf(s, request, Within(s, request))))
  {
    ClosedBallIsReachable(Step(s, request), Roots(request), request.depth);
  }

  function LimitsHit(depth: bool, nodes: bool, edges: bool, visits: bool): (r: seq<TraversalLimit>)
    ensures (Depth in r <==> depth) && (NodeLimit in r <==> nodes) && (EdgeLimit in r <==> edges) && (VisitBudget in r <==> visits)
    ensures r == [] <==> !depth && !nodes && !edges && !visits
  {
    (if depth then [Depth] else [])
    + (if nodes then [NodeLimit] else [])
    + (if edges then [EdgeLimit] else [])
    + (if visits then [VisitBudget] else [])
  }

  /** A page without a cursor always exists and starts at the first item. */
  function FirstPage<T>(items: seq<T>, limit: nat, snapshot: SnapshotId): (page: Page<T>)
    ensures PageOf(items, None, limit, snapshot) == Ok(page)
    ensures page.items == items[..Min(ClampLimit(limit), |items|)]
    ensures page.truncated <==> ClampLimit(limit) < |items|
  {
    PageOf(items, None, limit, snapshot).value
  }

  // ----- the calls of one callable

  /** The sites at these positions that the filter allows. */
  function Gather(calls: seq<CallSite>, positions: seq<nat>, filter: seq<Resolution>, defaultAll: bool): seq<CallSite> {
    if positions == [] then []
    else
      var p := positions[|positions| - 1];
      Gather(calls, positions[..|positions| - 1], filter, defaultAll)
      + if p < |calls| && Allows(filter, calls[p].resolution, defaultAll) then [calls[p]] else []
  }

  /** The sites `calls_from` pages through. */
  function CallsFrom(s: GraphSnapshot, caller: SymbolId, filter: seq<Resolution>): seq<CallSite> {
    Gather(s.calls, Listed(s.index.byCaller, caller), filter, true)
  }

  /** The sites `calls_to` pages through. */
  function CallsTo(s: GraphSnapshot, target: SymbolId, filter: seq<Resolution>): seq<CallSite> {
    Gather(s.calls, Listed(s.index.byTarget, target), filter, false)
  }

  /** A plain scan of the first `n` sites: each allowed site as often as its row contains `id`. */
  function Scan(calls: seq<CallSite>, rows: seq<seq<SymbolId>>, id: SymbolId, filter: seq<Resolution>, defaultAll: bool, n: nat): seq<CallSite>
    requires n <= |calls| == |rows|
  {
    if n == 0 then []
    else
      Scan(calls, rows, id, filter, defaultAll, n - 1)
      + if Allows(filter, calls[n - 1].resolution, defaultAll) then Copies(calls[n - 1], Times(rows[n - 1], id)) else []
  }

  function Times(row: seq<SymbolId>, id: SymbolId): nat {
    if row == [] then 0 else Times(row[..|row| - 1], id) + if row[|row| - 1] == id then 1 else 0
  }

  function Copies(call: CallSite, times: nat): seq<CallSite> {
    if times == 0 then [] else Copies(call, times - 1) + [call]
  }

  lemma {:induction false} GatherConcat(calls: seq<CallSite>, left: seq<nat>, right: seq<nat>, filter: seq<Resolution>, defaultAll: bool)
    ensures Gather(calls, left + right, filter, defaultAll) == Gather(calls, left, filter, defaultAll) + Gather(calls, right, filter, defaultAll)
  {
    if right == [] {
      assert left + right == left;
    } else {
      GatherConcat(calls, left, right[..|right| - 1], filter, defaultAll);
      assert (left + right)[..|left + right| - 1] == left + right[..|right| - 1];
    }
  }

  function Repeated(p: nat, times: nat): seq<nat> {
    if times == 0 then [] else Repeated(p, times - 1) + [p]
  }

  lemma {:induction false} OccurrencesRepeat(row: seq<SymbolId>, id: SymbolId, p: nat)
    ensures Occurrences(row, id, p) == Repeated(p, Times(row, id))
  {
    if row != [] {
      OccurrencesRepeat(row[..|row| - 1], id, p);
    }
  }

  lemma {:induction false} GatherRepeated(calls: seq<CallSite>, p: nat, times: nat, filter: seq<Resolution>, defaultAll: bool)
    requires p < |calls|
    ensures Gather(calls, Repeated(p, times), filter, defaultAll)
         == if Allows(filter, calls[p].resolution, defaultAll) then Copies(calls[p], times) else []
  {
    if times > 0 {
      GatherRepeated(calls, p, times - 1, filter, defaultAll);
      GatherPush(calls, Repeated(p, times - 1), p, filter, defaultAll);
    }
  }

  lemma GatherOccurrences(calls: seq<CallSite>, row: seq<SymbolId>, id: SymbolId, p: nat, filter: seq<Resolution>, defaultAll: bool)
    requires p < |calls|
    ensures Gather(calls, Occurrences(row, id, p), filter, defaultAll)
         == if Allows(filter, calls[p].resolution, defaultAll) then Copies(calls[p], Times(row, id)) else []
  {
    OccurrencesRepeat(row, id, p);
    GatherRepeated(calls, p, Times(row, id), filter, defaultAll);
  }

  lemma GatherPush(calls: seq<CallSite>, positions: seq<nat>, p: nat, filter: seq<Resolution>, defaultAll: bool)
    requires p < |calls|
    ensures Gather(calls, positions + [p], filter, defaultAll)
         == Gather(calls, positions, filter, defaultAll) + if Allows(filter, calls[p].resolution, defaultAll) then [calls[p]] else []
  {
    assert (positions + [p])[..|positions|] == positions;
  }

  lemma {:induction false} GatherIsScan(calls: seq<CallSite>, rows: seq<seq<SymbolId>>, id: SymbolId, filter: seq<Resolution>, defaultAll: bool, n: nat)
    requires n <= |calls| == |rows|
    ensures Gather(calls, Positions(rows, id, n), filter, defaultAll) == Scan(calls, rows, id, filter, defaultAll, n)
  {
    if n > 0 {
      var before, here := Positions(rows, id, n - 1), Occurrences(rows[n - 1], id, n - 1);
      assert Gather(calls, before, filter, defaultAll) == Scan(calls, rows, id, filter, defaultAll, n - 1) by {
        GatherIsScan(calls, rows, id, filter, defaultAll, n - 1);
      }
      assert Positions(rows, id, n) == before + here;
      GatherConcat(calls, before, here, filter, defaultAll);
      GatherOccurrences(calls, rows[n - 1], id, n - 1, filter, defaultAll);
    }
  }

  /** Both listings are what a plain scan of the calls finds: `calls_from` every allowed site of the
      caller, `calls_to` every allowed site that mentions the target, once for each mention. */
  lemma ListingsAreScans(s: GraphSnapshot, id: SymbolId, filter: seq<Resolution>)
    requires TableOf(CallerRows(s.calls), s.index.byCaller) && TableOf(MentionRows(s.calls), s.index.byTarget)
    ensures CallsFrom(s, id, filter) == Scan(s.calls, CallerRows(s.calls), id, filter, true, |s.calls|)
    ensures CallsTo(s, id, filter) == Scan(s.calls, MentionRows(s.calls), id, filter, false, |s.calls|)
  {
    GatherIsScan(s.calls, CallerRows(s.calls), id, filter, true, |s.calls|);
    GatherIsScan(s.calls, MentionRows(s.calls), id, filter, false, |s.calls|);
  }

  // ----- callers and callees are converse

  /** Turning the direction of a request around turns every distance around: `y` is within `n`
      steps of `x` by callees exactly when `x` is within `n` steps of `y` by callers, under any
      resolution filter. */
  lemma CallersConverseOfCallees(s: GraphSnapshot, down: TraversalRequest, up: TraversalRequest, x: SymbolId, y: SymbolId, n: nat)
    requires forall call <- s.calls :: WellResolved(call)
    requires down.direction == Callees && up == down.(direction := Callers)
    requires s.Known(x) && s.Known(y)
    ensures y in Ball(Step(s, down), {x}, n) <==> x in Ball(Step(s, up), {y}, n)
  {
    StepsMirror(s, down, up);
    ReversedDistance(Step(s, down), Step(s, up), s.index.callableById.Keys, x, y, n);
  }

  lemma ReachesIffReachedBy(s: GraphSnapshot, down: TraversalRequest, up: TraversalRequest, x: SymbolId, y: SymbolId)
    requires forall call <- s.calls :: WellResolved(call)
    requires down.direction == Callees && up == down.(direction := Callers)
    requires s.Known(x) && s.Known(y)
    ensures Reachable(Step(s, down), {x}, y) <==> Reachable(Step(s, up), {y}, x)
  {
    if Reachable(Step(s, down), {x}, y) {
      var n: nat :| y in Ball(Step(s, down), {x}, n);
      CallersConverseOfCallees(s, down, up, x, y, n);
    }
    if Reachable(Step(s, up), {y}, x) {
      var n: nat :| x in Ball(Step(s, up), {y}, n);
      CallersConverseOfCallees(s, down, up, x, y, n);
    }
  }

  lemma StepsMirror(s: GraphSnapshot, down: TraversalRequest, up: TraversalRequest)
    requires forall call <- s.calls :: WellResolved(call)
    requires down.direction == Callees && up == down.(direction := Callers)
    ensures Mirrored(Step(s, down), Step(s, up), s.index.callableById.Keys)
  {
    forall v, w | s.Known(v) && s.Known(w)
      ensures w in Step(s, down)(v) <==> v in Step(s, up)(w)
    {
      StepMirrors(s, down, up, v, w);
    }
  }

  lemma StepMirrors(s: GraphSnapshot, down: TraversalRequest, up: TraversalRequest, v: SymbolId, w: SymbolId)
    requires forall call <- s.calls :: WellResolved(call)
    requires down.direction == Callees && up == down.(direction := Callers)
    requires s.Known(v) && s.Known(w)
    ensures w in StepDown(s, down, v) <==> v in StepUp(s, up, w)
    ensures StepUp(s, down, v) == StepDown(s, up, v) == {}
  {
    forall p: nat | p < |s.calls|
      ensures FollowsDown(down, s.calls[p], v) && w in Mentions(s.calls[p]) <==> FollowsUp(up, s.calls[p], w) && s.calls[p].caller == v
    {
      assert WellResolved(s.calls[p]);
    }
  }

  // ----- what an empty filter follows

  /** The filter that an empty one is documented to stand for. */
  function Documented(request: TraversalRequest): TraversalRequest {
    request.(resolutions := [Resolved, Possible])
  }

  /** Without a filter, unresolved calls are followed from their callers and from nowhere else. */
  lemma UnresolvedIncidentIff(s: GraphSnapshot, request: TraversalRequest, id: SymbolId, p: nat)
    requires request.resolutions == []
    requires p < |s.calls| && WellResolved(s.calls[p]) && s.calls[p].resolution == Unresolved
    ensures p in IncidentEdges(s, request, id) <==> request.direction != Callers && s.calls[p].caller == id
    ensures p !in IncidentEdges(s, Documented(request), id)
  {
    assert Mentions(s.calls[p]) == [];
  }

  lemma ResolvedIncidentSame(s: GraphSnapshot, request: TraversalRequest, id: SymbolId, p: nat)
    requires request.resolutions == [] && p < |s.calls| && s.calls[p].resolution != Unresolved
    ensures p in IncidentEdges(s, request, id) <==> p in IncidentEdges(s, Documented(request), id)
  {
    assert s.calls[p].resolution in [Resolved, Possible];
  }

  /** They lead nowhere, so the steps are those of the documented filter. */
  lemma DefaultSteps(s: GraphSnapshot, request: TraversalRequest)
    requires request.resolutions == [] && forall call <- s.calls :: WellResolved(call)
    ensures forall id :: Step(s, request)(id) == Step(s, Documented(request))(id)
  {
    forall id
      ensures Step(s, request)(id) == Step(s, Documented(request))(id)
    {
      DefaultStep(s, request, id);
    }
  }

  lemma DefaultStep(s: GraphSnapshot, request: TraversalRequest, id: SymbolId)
    requires request.resolutions == [] && forall call <- s.calls :: WellResolved(call)
    ensures StepDown(s, request, id) == StepDown(s, Documented(request), id)
    ensures StepUp(s, request, id) == StepUp(s, Documented(request), id)
  {
    forall p: nat | p < |s.calls|
      ensures Mentions(s.calls[p]) != [] ==>
                && (FollowsDown(request, s.calls[p], id) <==> FollowsDown(Documented(request), s.calls[p], id))
                && (FollowsUp(request, s.calls[p], id) <==> FollowsUp(Documented(request), s.calls[p], id))
    {
      assert WellResolved(s.calls[p]);
      assert s.calls[p].resolution != Unresolved ==> s.calls[p].resolution in [Resolved, Possible];
    }
  }

  lemma {:induction false} MoreStepsReach(
    f: SymbolId -> set<SymbolId>, g: SymbolId -> set<SymbolId>, roots: set<SymbolId>, v: SymbolId, n: nat)
    requires (forall id :: f(id) <= g(id)) && v in Ball(f, roots, n)
    ensures v in Ball(g, roots, n)
    decreases n
  {
    if n > 0 && v in Ball(f, roots, n - 1) {
      MoreStepsReach(f, g, roots, v, n - 1);
      BallGrows(g, roots, n - 1, n);
    } else if n > 0 {
      var u :| u in Ball(f, roots, n - 1) && v in f(u);
      MoreStepsReach(f, g, roots, u, n - 1);
      StepFrom(g, roots, u, v, n - 1);
    }
  }

  lemma SameStepsSameRange(s: GraphSnapshot, request: TraversalRequest, other: TraversalRequest)
    requires other.roots == request.roots && other.depth == request.depth
    requires forall id :: Step(s, request)(id) == Step(s, other)(id)
    ensures Within(s, request) == Within(s, other)
  {
    forall v
      ensures v in Within(s, request) <==> v in Within(s, other)
    {
      if v in Within(s, request) {
        MoreStepsReach(Step(s, request), Step(s, other), Roots(request), v, request.depth);
      }
      if v in Within(s, other) {
        MoreStepsReach(Step(s, other), Step(s, request), Roots(request), v, request.depth);
      }
    }
  }

  /** Some callable in range makes an unresolved call that is followed. */
  ghost predicate ReachesUnresolved(s: GraphSnapshot, request: TraversalRequest) {
    && request.direction != Callers
    && exists p: nat :: p < |s.calls| && s.calls[p].resolution == Unresolved && s.calls[p].caller in Within(s, request)
  }

  /** An empty filter lists the callables of the documented one; it lists the same edges exactly when
      no callable in range makes an unresolved call, or the direction is that of callers. */
  lemma DefaultFilter(s: GraphSnapshot, request: TraversalRequest)
    requires request.resolutions == [] && forall call <- s.calls :: WellResolved(call)
    ensures Within(s, request) == Within(s, Documented(request))
    ensures EdgesOf(s, request, Within(s, request)) == EdgesOf(s, Documented(request), Within(s, Documented(request)))
            <==> !ReachesUnresolved(s, request)
    ensures (exists p <- EdgesOf(s, request, Within(s, request)) :: s.calls[p].resolution == Unresolved)
            <==> ReachesUnresolved(s, request)
  {
    DefaultSteps(s, request);
    SameStepsSameRange(s, request, Documented(request));
    forall id, p: nat | p < |s.calls|
      ensures SameButUnresolved(s, request, id, p)
    {
      assert WellResolved(s.calls[p]);
      if s.calls[p].resolution == Unresolved {
        UnresolvedIncidentIff(s, request, id, p);
      } else {
        ResolvedIncidentSame(s, request, id, p);
      }
    }
    DefaultEdges(s, request, Within(s, request));
  }

  /** An empty filter adds an unresolved call to the edges at its caller, and nothing else. */
  ghost predicate SameButUnresolved(s: GraphSnapshot, request: TraversalRequest, id: SymbolId, p: nat)
    requires p < |s.calls|
  {
    if s.calls[p].resolution == Unresolved
    then
      && p !in IncidentEdges(s, Documented(request), id)
      && (p in IncidentEdges(s, request, id) <==> request.direction != Callers && s.calls[p].caller == id)
    else
      p in IncidentEdges(s, request, id) <==> p in IncidentEdges(s, Documented(request), id)
  }

  lemma DefaultEdges(s: GraphSnapshot, request: TraversalRequest, nodes: set<SymbolId>)
    requires nodes == Within(s, request)
    requires forall id, p: nat | p < |s.calls| :: SameButUnresolved(s, request, id, p)
    ensures EdgesOf(s, request, nodes) == EdgesOf(s, Documented(request), nodes) <==> !ReachesUnresolved(s, request)
    ensures (exists p <- EdgesOf(s, request, nodes) :: s.calls[p].resolution == Unresolved) <==> ReachesUnresolved(s, request)
  {
    if ReachesUnresolved(s, request) {
      var p: nat :| p < |s.calls| && s.calls[p].resolution == Unresolved && s.calls[p].caller in nodes;
      assert SameButUnresolved(s, request, s.calls[p].caller, p);
      assert p in EdgesOf(s, request, nodes);
      assert forall id :: id in nodes ==> SameButUnresolved(s, request, id, p);
      assert p !in EdgesOf(s, Documented(request), nodes);
    } else {
      forall id, p: nat | id in nodes && p < |s.calls|
        ensures p in IncidentEdges(s, request, id) <==> p in IncidentEdges(s, Documented(request), id)
        ensures p in IncidentEdges(s, request, id) ==> s.calls[p].resolution != Unresolved
      {
        assert SameButUnresolved(s, request, id, p);
      }
    }
  }

  // ----- the depth flag may be a false alarm

  function PlainCall(caller: SymbolId, target: SymbolId): CallSite {
    CallSite(caller, SourceSpan("", 0, 0), Some(target), Resolved, [], false, None)
  }

  /** `a` calls `b` and `c`, which call each other. */
  ghost predicate Ring(s: GraphSnapshot, a: SymbolId, b: SymbolId, c: SymbolId) {
    && a != b && b != c && a != c
    && s.Known(a) && s.Known(b) && s.Known(c)
    && s.calls == [PlainCall(a, b), PlainCall(a, c), PlainCall(b, c), PlainCall(c, b)]
  }

  /** In a ring, everything reachable from `a` is within one step, and yet every order of expansion
      raises the depth flag of a walk of depth one: a raised flag does not mean that anything is
      missing. `AlarmMeaning` says what it does mean. */
  lemma DepthFlagFalseAlarm(
    s: GraphSnapshot, a: SymbolId, b: SymbolId, c: SymbolId, request: TraversalRequest, order: seq<SymbolId>)
    requires Ring(s, a, b, c)
    requires request.direction == Callees && request.resolutions == [] && request.roots == [a] && request.depth == 1
    requires ExpansionOrder(Step(s, request), Roots(request), 1, order)
    ensures Closed(Step(s, request), Within(s, request))
    ensures Alarm(Step(s, request), Roots(request), 1, order)
  {
    RingSteps(s, a, b, c, request);
    assert Roots(request) == {a};
    RingAlarm(Step(s, request), a, b, c, order);
  }

  lemma RingSteps(s: GraphSnapshot, a: SymbolId, b: SymbolId, c: SymbolId, request: TraversalRequest)
    requires Ring(s, a, b, c) && request.direction == Callees && request.resolutions == []
    ensures Step(s, request)(a) == {b, c} && Step(s, request)(b) == {c} && Step(s, request)(c) == {b}
  {
    forall id
      ensures Step(s, request)(id) == if id == a then {b, c} else if id == b then {c} else if id == c then {b} else {}
    {
      forall w
        ensures w in StepDown(s, request, id)
                <==> (id == a && w == b) || (id == a && w == c) || (id == b && w == c) || (id == c && w == b)
      {
        RingStep(s, a, b, c, request, id, w);
      }
      assert StepUp(s, request, id) == {};
    }
  }

  lemma RingStep(s: GraphSnapshot, a: SymbolId, b: SymbolId, c: SymbolId, request: TraversalRequest, id: SymbolId, w: SymbolId)
    requires Ring(s, a, b, c) && request.direction == Callees && request.resolutions == []
    ensures w in StepDown(s, request, id)
            <==> (id == a && w == b) || (id == a && w == c) || (id == b && w == c) || (id == c && w == b)
  {
    assert forall p: nat :: p < |s.calls| ==> FollowsDown(request, s.calls[p], id) == (s.calls[p].caller == id);
    assert s.calls[0].caller == a && s.calls[1].caller == a && s.calls[2].caller == b && s.calls[3].caller == c;
    assert Mentions(s.calls[0]) == [b] && Mentions(s.calls[1]) == [c];
    assert Mentions(s.calls[2]) == [c] && Mentions(s.calls[3]) == [b];
  }

  lemma RingAlarm(succ: SymbolId -> set<SymbolId>, a: SymbolId, b: SymbolId, c: SymbolId, order: seq<SymbolId>)
    requires a != b && b != c && a != c
    requires succ(a) == {b, c} && succ(b) == {c} && succ(c) == {b}
    requires ExpansionOrder(succ, {a}, 1, order)
    ensures Closed(succ, Ball(succ, {a}, 1))
    ensures Alarm(succ, {a}, 1, order)
  {
    assert Ball(succ, {a}, 0) == {a};
    assert Ball(succ, {a}, 1) == {a, b, c};
    assert AtDistance(succ, {a}, b, 1) && AtDistance(succ, {a}, c, 1);
    var i :| 0 <= i < |order| && order[i] == b;
    var j :| 0 <= j < |order| && order[j] == c;
    if i < j {
      assert c !in order[..i + 1];
      assert AlarmAt(succ, {a}, 1, order, i);
    } else {
      assert b !in order[..j + 1];
      assert AlarmAt(succ, {a}, 1, order, j);
    }
  }
}
