/** One immutable call-graph generation and its three lookup tables
    (crates/code-analysis/src/snapshot_repository.rs). */
module Snapshot {
  import opened Common

  datatype SymbolId = SymbolId(text: string)

  datatype SourceSpan = SourceSpan(path: string, startByte: nat, endByte: nat)

  datatype CallableSymbol = CallableSymbol(id: SymbolId, name: string, qualifiedName: string, span: SourceSpan)

  datatype Resolution = Resolved | Possible | Unresolved

  datatype CallSite = CallSite(
    caller: SymbolId,
    span: SourceSpan,
    target: Option<SymbolId>,
    resolution: Resolution,
    candidates: seq<SymbolId>,
    candidatesTruncated: bool,
    external: Option<string>)

  /** The callables a site may reach: its target, then its candidates. */
  function Mentions(call: CallSite): seq<SymbolId> {
    (if call.target.Some? then [call.target.value] else []) + call.candidates
  }

  datatype GraphIndex = GraphIndex(
    callableById: map<SymbolId, nat>,
    byCaller: map<SymbolId, seq<nat>>,
    byTarget: map<SymbolId, seq<nat>>)

  datatype GraphSnapshot = GraphSnapshot(
    id: string,
    callables: seq<CallableSymbol>,
    calls: seq<CallSite>,
    index: GraphIndex)
  {
    /** The tables describe exactly the callables and calls of this generation. */
    ghost predicate Valid() {
      && CallableTable(callables, index.callableById)
      && TableOf(CallerRows(calls), index.byCaller)
      && TableOf(MentionRows(calls), index.byTarget)
    }

    predicate Known(id: SymbolId) {
      id in index.callableById
    }
  }

  /** What a table lists under a key; nothing when the key is absent. */
  function Listed(table: map<SymbolId, seq<nat>>, id: SymbolId): seq<nat> {
    if id in table then table[id] else []
  }

  /** Appends a position under a key, which is created when absent. */
  function Push(table: map<SymbolId, seq<nat>>, id: SymbolId, position: nat): map<SymbolId, seq<nat>> {
    table[id := Listed(table, id) + [position]]
  }

  // ----- the plain scans the tables stand for

  /** The keys each site is listed under in the by-caller table. */
  function CallerRows(calls: seq<CallSite>): seq<seq<SymbolId>> {
    seq(|calls|, i requires 0 <= i < |calls| => [calls[i].caller])
  }

  /** The keys each site is listed under in the by-target table. */
  function MentionRows(calls: seq<CallSite>): seq<seq<SymbolId>> {
    seq(|calls|, i requires 0 <= i < |calls| => Mentions(calls[i]))
  }

  /** The rows below `n` that contain `id`, in order; a row appears once for each occurrence. */
  function Positions(rows: seq<seq<SymbolId>>, id: SymbolId, n: nat): seq<nat>
    requires n <= |rows|
  {
    if n == 0 then [] else Positions(rows, id, n - 1) + Occurrences(rows[n - 1], id, n - 1)
  }

  /** `position`, once for each `id` in the row. */
  function Occurrences(row: seq<SymbolId>, id: SymbolId, position: nat): seq<nat> {
    if row == [] then []
    else Occurrences(row[..|row| - 1], id, position) + if row[|row| - 1] == id then [position] else []
  }

  /** Every callable id maps to the last position that has it, and no other key is present. */
  ghost predicate CallableTable(callables: seq<CallableSymbol>, table: map<SymbolId, nat>) {
    && (forall id <- table :: table[id] < |callables| && callables[table[id]].id == id)
    && (forall p :: 0 <= p < |callables| ==> callables[p].id in table && p <= table[callables[p].id])
  }

  /** Looking a key up gives what scanning the rows for it gives. */
  ghost predicate TableOf(rows: seq<seq<SymbolId>>, table: map<SymbolId, seq<nat>>) {
    forall id :: Listed(table, id) == Positions(rows, id, |rows|)
  }

  /** Builds a generation with tables that agree with a plain scan of its contents. */
  method NewSnapshot(id: string, callables: seq<CallableSymbol>, calls: seq<CallSite>) returns (snapshot: GraphSnapshot)
    ensures snapshot.id == id && snapshot.callables == callables && snapshot.calls == calls
    ensures snapshot.Valid()
  {
    var callableById: map<SymbolId, nat> := map[];
    for position := 0 to |callables|
      invariant CallableTable(callables[..position], callableById)
    {
      callableById := callableById[callables[position].id := position];
    }
    assert callables[..|callables|] == callables;
    var byCaller, byTarget := CallTables(calls);
    snapshot := GraphSnapshot(id, callables, calls, GraphIndex(callableById, byCaller, byTarget));
  }

  method CallTables(calls: seq<CallSite>) returns (byCaller: map<SymbolId, seq<nat>>, byTarget: map<SymbolId, seq<nat>>)
    ensures TableOf(CallerRows(calls), byCaller) == true
    ensures TableOf(MentionRows(calls), byTarget) == true
  {
    ghost var callers, mentioned := CallerRows(calls), MentionRows(calls);
    byCaller, byTarget := map[], map[];
    for position := 0 to |calls|
      invariant byCaller == PushRows(callers, position)
      invariant byTarget == PushRows(mentioned, position)
    {
      byCaller := PushUnder(byCaller, [calls[position].caller], position, callers);
      byTarget := PushUnder(byTarget, Mentions(calls[position]), position, mentioned);
    }
    PushRowsIsTable(callers);
    PushRowsIsTable(mentioned);
  }

  /** Appends a position under every key of its row. */
  method PushUnder(table: map<SymbolId, seq<nat>>, row: seq<SymbolId>, position: nat, ghost rows: seq<seq<SymbolId>>)
    returns (pushed: map<SymbolId, seq<nat>>)
    requires position < |rows| && rows[position] == row && table == PushRows(rows, position)
    ensures pushed == PushRows(rows, position + 1)
  {
    pushed := table;
    for i := 0 to |row|
      invariant pushed == PushRow(table, row[..i], position)
    {
      pushed := Push(pushed, row[i], position);
      assert row[..i + 1][..i] == row[..i];
    }
    assert row[..|row|] == row;
  }

  function PushRow(table: map<SymbolId, seq<nat>>, row: seq<SymbolId>, position: nat): map<SymbolId, seq<nat>> {
    if row == [] then table else Push(PushRow(table, row[..|row| - 1], position), row[|row| - 1], position)
  }

  function PushRows(rows: seq<seq<SymbolId>>, n: nat): map<SymbolId, seq<nat>>
    requires n <= |rows|
  {
    if n == 0 then map[] else PushRow(PushRows(rows, n - 1), rows[n - 1], n - 1)
  }

  lemma {:induction false} PushRowAdds(table: map<SymbolId, seq<nat>>, row: seq<SymbolId>, position: nat, id: SymbolId)
    ensures Listed(PushRow(table, row, position), id) == Listed(table, id) + Occurrences(row, id, position)
  {
    if row != [] {
      PushRowAdds(table, row[..|row| - 1], position, id);
    }
  }

  lemma {:induction false} PushRowsScan(rows: seq<seq<SymbolId>>, id: SymbolId, n: nat)
    requires n <= |rows|
    ensures Listed(PushRows(rows, n), id) == Positions(rows, id, n)
  {
    if n > 0 {
      PushRowsScan(rows, id, n - 1);
      PushRowAdds(PushRows(rows, n - 1), rows[n - 1], n - 1, id);
    }
  }

  /** Pushing the rows one by one builds the table of a scan. */
  lemma PushRowsIsTable(rows: seq<seq<SymbolId>>)
    ensures TableOf(rows, PushRows(rows, |rows|))
  {
    forall id
      ensures Listed(PushRows(rows, |rows|), id) == Positions(rows, id, |rows|)
    {
      PushRowsScan(rows, id, |rows|);
    }
  }

  lemma {:induction false} OccurrencesMembers(row: seq<SymbolId>, id: SymbolId, position: nat)
    ensures forall p :: p in Occurrences(row, id, position) <==> p == position && id in row
  {
    if row != [] {
      OccurrencesMembers(row[..|row| - 1], id, position);
      assert row == row[..|row| - 1] + [row[|row| - 1]];
    }
  }

  lemma {:induction false} PositionsMembers(rows: seq<seq<SymbolId>>, id: SymbolId, n: nat)
    requires n <= |rows|
    ensures forall p :: p in Positions(rows, id, n) <==> 0 <= p < n && id in rows[p]
  {
    if n > 0 {
      PositionsMembers(rows, id, n - 1);
      OccurrencesMembers(rows[n - 1], id, n - 1);
    }
  }

  /** A row is listed exactly under the keys it contains. */
  ghost predicate ListsRows(rows: seq<seq<SymbolId>>, table: map<SymbolId, seq<nat>>) {
    forall id, p: nat :: p in Listed(table, id) <==> p < |rows| && id in rows[p]
  }

  lemma TableListsRows(rows: seq<seq<SymbolId>>, table: map<SymbolId, seq<nat>>)
    requires TableOf(rows, table)
    ensures ListsRows(rows, table)
  {
    forall id
      ensures forall p: nat :: p in Listed(table, id) <==> p < |rows| && id in rows[p]
    {
      PositionsMembers(rows, id, |rows|);
    }
  }

  /** A site is listed exactly under its caller, and exactly under what it mentions. */
  ghost predicate ListsSites(s: GraphSnapshot) {
    && ListsRows(CallerRows(s.calls), s.index.byCaller)
    && ListsRows(MentionRows(s.calls), s.index.byTarget)
  }

  lemma SitesOf(s: GraphSnapshot, id: SymbolId)
    requires ListsSites(s)
    ensures forall p: nat :: p in Listed(s.index.byCaller, id) <==> p < |s.calls| && s.calls[p].caller == id
    ensures forall p: nat :: p in Listed(s.index.byTarget, id) <==> p < |s.calls| && id in Mentions(s.calls[p])
  {
    RowListed(CallerRows(s.calls), s.index.byCaller, id);
    RowListed(MentionRows(s.calls), s.index.byTarget, id);
    assert forall p: nat | p < |s.calls| :: CallerRows(s.calls)[p] == [s.calls[p].caller];
    assert forall p: nat | p < |s.calls| :: MentionRows(s.calls)[p] == Mentions(s.calls[p]);
  }

  lemma RowListed(rows: seq<seq<SymbolId>>, table: map<SymbolId, seq<nat>>, id: SymbolId)
    requires ListsRows(rows, table)
    ensures forall p: nat :: p in Listed(table, id) <==> p < |rows| && id in rows[p]
  {
  }

  lemma ValidListsSites(s: GraphSnapshot)
    requires s.Valid()
    ensures ListsSites(s)
  {
    TableListsRows(CallerRows(s.calls), s.index.byCaller);
    TableListsRows(MentionRows(s.calls), s.index.byTarget);
  }

  // ----- how a resolver's outcome becomes a site (crates/code-analysis/src/service.rs)

  const CANDIDATE_LIMIT: nat := 8

  datatype TargetRef = TargetRef(path: string, key: nat)

  datatype Outcome =
    | ToTarget(target: TargetRef)
    | ToAny(targets: seq<TargetRef>)
    | ToNothing
    | ToExternal(name: string)

  function KnownIds(targets: seq<TargetRef>, ids: map<TargetRef, SymbolId>): seq<SymbolId> {
    if targets == [] then []
    else
      (if targets[0] in ids then [ids[targets[0]]] else []) + KnownIds(targets[1..], ids)
  }

  function SiteOf(caller: SymbolId, span: SourceSpan, outcome: Outcome, ids: map<TargetRef, SymbolId>): CallSite {
    match outcome
    case ToTarget(target) =>
      if target in ids then CallSite(caller, span, Some(ids[target]), Resolved, [], false, None)
      else CallSite(caller, span, None, Unresolved, [], false, None)
    case ToAny(targets) =>
      var all := KnownIds(targets, ids);
      var truncated := |all| > CANDIDATE_LIMIT;
      CallSite(caller, span, None, Possible, if truncated then all[..CANDIDATE_LIMIT] else all, truncated, None)
    case ToNothing => CallSite(caller, span, None, Unresolved, [], false, None)
    case ToExternal(name) => CallSite(caller, span, None, Unresolved, [], false, Some(name))
  }

  /** A site may reach something only when it is resolved or possible. */
  predicate WellResolved(call: CallSite) {
    call.resolution == Unresolved ==> Mentions(call) == []
  }

  lemma {:induction false} KnownIdsAreIds(targets: seq<TargetRef>, ids: map<TargetRef, SymbolId>)
    ensures forall id <- KnownIds(targets, ids) :: id in ids.Values
  {
    if targets != [] {
      KnownIdsAreIds(targets[1..], ids);
    }
  }

  /** Every site the builder makes is well resolved, mentions only callables of the snapshot and
      keeps at most the candidate limit; an external name never comes with a workspace target. */
  lemma SitesAreWellResolved(caller: SymbolId, span: SourceSpan, outcome: Outcome, ids: map<TargetRef, SymbolId>)
    ensures
      var site := SiteOf(caller, span, outcome, ids);
      && site.caller == caller
      && WellResolved(site)
      && |Mentions(site)| <= CANDIDATE_LIMIT
      && (forall id <- Mentions(site) :: id in ids.Values)
      && (site.external.Some? ==> Mentions(site) == [])
      && (site.resolution == Resolved ==> |Mentions(site)| == 1)
  {
    match outcome
    case ToTarget(target) =>
      if target in ids {
        assert ids[target] in ids.Values;
      }
    case ToAny(targets) =>
      KnownIdsAreIds(targets, ids);
    case ToNothing =>
    case ToExternal(name) =>
  }

  /** `known` are the ids of the targets at these places, in order, and `places` are those of all that have one. */
  ghost predicate KnownAt(targets: seq<TargetRef>, ids: map<TargetRef, SymbolId>, places: seq<nat>, known: seq<SymbolId>) {
    && |places| == |known|
    && (forall j, k :: 0 <= j < k < |places| ==> places[j] < places[k])
    && (forall k :: 0 <= k < |places| ==>
          places[k] < |targets| && targets[places[k]] in ids && known[k] == ids[targets[places[k]]])
    && forall i: nat | i < |targets| && targets[i] in ids :: i in places
  }

  lemma {:induction false} KnownIdsPush(targets: seq<TargetRef>, target: TargetRef, ids: map<TargetRef, SymbolId>)
    ensures KnownIds(targets + [target], ids) == KnownIds(targets, ids) + if target in ids then [ids[target]] else []
  {
    if targets == [] {
      assert [target][1..] == [];
    } else {
      KnownIdsPush(targets[1..], target, ids);
      assert (targets + [target])[1..] == targets[1..] + [target];
    }
  }

  lemma KnownAtPush(targets: seq<TargetRef>, ids: map<TargetRef, SymbolId>, places: seq<nat>, known: seq<SymbolId>, target: TargetRef)
    requires KnownAt(targets, ids, places, known)
    ensures target in ids ==> KnownAt(targets + [target], ids, places + [|targets|], known + [ids[target]])
    ensures target !in ids ==> KnownAt(targets + [target], ids, places, known)
  {
  }

  lemma {:induction false} KnownIdsMean(targets: seq<TargetRef>, ids: map<TargetRef, SymbolId>) returns (places: seq<nat>)
    ensures KnownAt(targets, ids, places, KnownIds(targets, ids))
  {
    if targets == [] {
      places := [];
    } else {
      var init, last := targets[..|targets| - 1], targets[|targets| - 1];
      places := KnownIdsMean(init, ids);
      KnownIdsPush(init, last, ids);
      KnownAtPush(init, ids, places, KnownIds(init, ids), last);
      assert targets == init + [last];
      if last in ids {
        places := places + [|init|];
      }
    }
  }

  /** The site of each outcome: a known target resolves it, several make it possible with the first eight
      known ones as candidates and a note when there were more, and all else leaves it unresolved. */
  lemma SiteMeans(caller: SymbolId, span: SourceSpan, outcome: Outcome, ids: map<TargetRef, SymbolId>) returns (known: seq<SymbolId>)
    ensures
      var site := SiteOf(caller, span, outcome, ids);
      && site.caller == caller && site.span == span
      && (site.resolution == Resolved <==> outcome.ToTarget? && outcome.target in ids)
      && (site.resolution == Possible <==> outcome.ToAny?)
      && site.target == (if outcome.ToTarget? && outcome.target in ids then Some(ids[outcome.target]) else None)
      && site.external == (if outcome.ToExternal? then Some(outcome.name) else None)
      && site.candidates == (if |known| > 8 then known[..8] else known)
      && (site.candidatesTruncated <==> |known| > 8)
    ensures if outcome.ToAny? then exists places :: KnownAt(outcome.targets, ids, places, known) else known == []
  {
    known := [];
    if outcome.ToAny? {
      known := KnownIds(outcome.targets, ids);
      var places := KnownIdsMean(outcome.targets, ids);
    }
  }
}
