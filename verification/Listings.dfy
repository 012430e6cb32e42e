/** Tables, listings and refusals in terms of the fields of the calls (crates/code-analysis/src/query.rs,
    crates/code-analysis/src/snapshot_repository.rs). */
module Listings {
  import opened Common
  import opened Snapshot
  import opened Paging
  import opened Query

  function Often<T(==)>(s: seq<T>, x: T): nat {
    if s == [] then 0 else Often(s[..|s| - 1], x) + if s[|s| - 1] == x then 1 else 0
  }

  lemma {:induction false} OftenIsMultiplicity<T>(s: seq<T>, x: T)
    ensures Often(s, x) == multiset(s)[x]
  {
    if s != [] {
      OftenIsMultiplicity(s[..|s| - 1], x);
      assert s == s[..|s| - 1] + [s[|s| - 1]];
    }
  }

  lemma {:induction false} OftenConcat<T>(a: seq<T>, b: seq<T>, x: T)
    ensures Often(a + b, x) == Often(a, x) + Often(b, x)
  {
    if b == [] {
      assert a + b == a;
    } else {
      OftenConcat(a, b[..|b| - 1], x);
      assert (a + b)[..|a + b| - 1] == a + b[..|b| - 1];
    }
  }

  lemma {:induction false} OccurrencesCount(row: seq<SymbolId>, id: SymbolId, p: nat, q: nat)
    ensures Often(Occurrences(row, id, p), q) == if q == p then Often(row, id) else 0
  {
    if row != [] {
      OccurrencesCount(row[..|row| - 1], id, p, q);
      OftenConcat(Occurrences(row[..|row| - 1], id, p), if row[|row| - 1] == id then [p] else [], q);
      assert Often([p], q) == if p == q then 1 else 0 by {
        assert [p][..0] == [];
      }
    }
  }

  lemma {:induction false} PositionsCount(rows: seq<seq<SymbolId>>, id: SymbolId, n: nat, p: nat)
    requires n <= |rows|
    ensures Often(Positions(rows, id, n), p) == if p < n then Often(rows[p], id) else 0
  {
    if n > 0 {
      PositionsCount(rows, id, n - 1, p);
      OccurrencesCount(rows[n - 1], id, n - 1, p);
      OftenConcat(Positions(rows, id, n - 1), Occurrences(rows[n - 1], id, n - 1), p);
    }
  }

  lemma {:induction false} PositionsAscend(rows: seq<seq<SymbolId>>, id: SymbolId, n: nat)
    requires n <= |rows|
    ensures forall i, j :: 0 <= i < j < |Positions(rows, id, n)| ==> Positions(rows, id, n)[i] <= Positions(rows, id, n)[j]
    ensures forall i :: 0 <= i < |Positions(rows, id, n)| ==> Positions(rows, id, n)[i] < n
  {
    if n > 0 {
      PositionsAscend(rows, id, n - 1);
      OccurrencesMembers(rows[n - 1], id, n - 1);
      var last := Occurrences(rows[n - 1], id, n - 1);
      assert forall i :: 0 <= i < |last| ==> last[i] in last;
    }
  }

  ghost predicate InPositionOrder(positions: seq<nat>, n: nat) {
    && (forall i :: 0 <= i < |positions| ==> positions[i] < n)
    && forall i, j :: 0 <= i < j < |positions| ==> positions[i] <= positions[j]
  }

  /** The by-caller table lists a call once, under its caller; the by-target table lists it once under
      its target and once for each time a candidate occurs; both in the order of the calls. */
  lemma TablesList(s: GraphSnapshot, id: SymbolId)
    requires s.Valid()
    ensures InPositionOrder(Listed(s.index.byCaller, id), |s.calls|)
    ensures InPositionOrder(Listed(s.index.byTarget, id), |s.calls|)
    ensures forall p: nat | p < |s.calls| ::
              && multiset(Listed(s.index.byCaller, id))[p] == (if s.calls[p].caller == id then 1 else 0)
              && multiset(Listed(s.index.byTarget, id))[p]
                 == (if s.calls[p].target == Some(id) then 1 else 0) + multiset(s.calls[p].candidates)[id]
  {
    PositionsAscend(CallerRows(s.calls), id, |s.calls|);
    PositionsAscend(MentionRows(s.calls), id, |s.calls|);
    forall p: nat | p < |s.calls|
      ensures multiset(Listed(s.index.byCaller, id))[p] == (if s.calls[p].caller == id then 1 else 0)
      ensures multiset(Listed(s.index.byTarget, id))[p]
           == (if s.calls[p].target == Some(id) then 1 else 0) + multiset(s.calls[p].candidates)[id]
    {
      TimesListed(s, id, p);
    }
  }

  lemma TimesListed(s: GraphSnapshot, id: SymbolId, p: nat)
    requires s.Valid() && p < |s.calls|
    ensures multiset(Listed(s.index.byCaller, id))[p] == (if s.calls[p].caller == id then 1 else 0)
    ensures multiset(Listed(s.index.byTarget, id))[p]
         == (if s.calls[p].target == Some(id) then 1 else 0) + multiset(s.calls[p].candidates)[id]
  {
    PositionsCount(CallerRows(s.calls), id, |s.calls|, p);
    PositionsCount(MentionRows(s.calls), id, |s.calls|, p);
    OftenIsMultiplicity(Listed(s.index.byCaller, id), p);
    OftenIsMultiplicity(Listed(s.index.byTarget, id), p);
    OftenIsMultiplicity([s.calls[p].caller], id);
    OftenIsMultiplicity(Mentions(s.calls[p]), id);
    TimesMentioned(s.calls[p], id);
    assert CallerRows(s.calls)[p] == [s.calls[p].caller];
  }

  lemma TimesMentioned(call: CallSite, id: SymbolId)
    ensures multiset(Mentions(call))[id] == (if call.target == Some(id) then 1 else 0) + multiset(call.candidates)[id]
  {
  }

  lemma {:induction false} GatherMembers(calls: seq<CallSite>, positions: seq<nat>, filter: seq<Resolution>, defaultAll: bool)
    ensures forall call :: call in Gather(calls, positions, filter, defaultAll)
                           <==> exists p <- positions :: p < |calls| && calls[p] == call && Allows(filter, call.resolution, defaultAll)
  {
    if positions != [] {
      GatherMembers(calls, positions[..|positions| - 1], filter, defaultAll);
      assert positions == positions[..|positions| - 1] + [positions[|positions| - 1]];
    }
  }

  /** The calls listed from a caller are those it makes, and the calls listed to a target those that may
      reach it. Without a filter, unresolved ones are listed from a caller and not to a target. */
  lemma ListingsMean(s: GraphSnapshot, id: SymbolId, filter: seq<Resolution>, call: CallSite)
    requires s.Valid()
    ensures call in CallsFrom(s, id, filter)
            <==> call in s.calls && call.caller == id && (filter == [] || call.resolution in filter)
    ensures call in CallsTo(s, id, filter)
            <==> call in s.calls && MayReach(call, id)
                 && if filter == [] then call.resolution == Resolved || call.resolution == Possible
                    else call.resolution in filter
  {
    ValidListsSites(s);
    SitesOf(s, id);
    GatherMembers(s.calls, Listed(s.index.byCaller, id), filter, true);
    GatherMembers(s.calls, Listed(s.index.byTarget, id), filter, false);
    MentionsMeans(call, id);
    if call in s.calls {
      var p: nat :| p < |s.calls| && s.calls[p] == call;
      assert call.caller == id ==> p in Listed(s.index.byCaller, id);
      assert MayReach(call, id) ==> p in Listed(s.index.byTarget, id);
    }
  }

  /** Root `i` is the first that is no callable. */
  ghost predicate FirstUnknownAt(s: GraphSnapshot, roots: seq<SymbolId>, i: nat) {
    i < |roots| && !s.Known(roots[i]) && forall j :: 0 <= j < i ==> s.Known(roots[j])
  }

  lemma {:induction false} FirstUnknownMeans(s: GraphSnapshot, roots: seq<SymbolId>) returns (i: nat)
    ensures if i < |roots| then FirstUnknownAt(s, roots, i) && FirstUnknown(s, roots) == Some(UnknownCallable(roots[i].text))
            else FirstUnknown(s, roots).None?
  {
    i := 0;
    if roots != [] && s.Known(roots[0]) {
      var later := FirstUnknownMeans(s, roots[1..]);
      i := later + 1;
      if later < |roots[1..]| {
        LaterUnknown(s, roots, later);
      }
    }
  }

  lemma LaterUnknown(s: GraphSnapshot, roots: seq<SymbolId>, i: nat)
    requires roots != [] && s.Known(roots[0]) && FirstUnknownAt(s, roots[1..], i)
    ensures FirstUnknownAt(s, roots, i + 1) && roots[i + 1] == roots[1..][i]
  {
    forall j | 0 <= j < i + 1
      ensures s.Known(roots[j])
    {
      assert j == 0 || roots[j] == roots[1..][j - 1];
    }
  }

  /** A request is accepted exactly when it asks for something, goes no deeper than 32, and names from 1
      to 64 roots that are all callables; of several faults the first in this order is reported. */
  lemma RefusalMeans(s: GraphSnapshot, request: TraversalRequest)
    requires s.Valid()
    ensures Refusal(s, request).None?
            <==> && request.limit >= 1 && request.depth <= 32 && 1 <= |request.roots| <= 64
                 && forall root <- request.roots :: exists c <- s.callables :: c.id == root
    ensures Refusal(s, request) == Some(LimitMissing) <==> request.limit == 0
    ensures Refusal(s, request) == Some(DepthExceeded(request.depth)) <==> request.limit > 0 && request.depth > 32
    ensures Refusal(s, request) == Some(RootsMissing)
            <==> request.limit > 0 && request.depth <= 32 && request.roots == []
    ensures Refusal(s, request) == Some(TooManyRoots)
            <==> request.limit > 0 && request.depth <= 32 && |request.roots| > 64
    ensures Refusal(s, request).Some? && Refusal(s, request).value.UnknownCallable?
            <==> && request.limit > 0 && request.depth <= 32 && 1 <= |request.roots| <= 64
                 && exists root <- request.roots :: forall c <- s.callables :: c.id != root
  {
    var first := FirstUnknownMeans(s, request.roots);
    forall root <- request.roots
      ensures s.Known(root) <==> exists c <- s.callables :: c.id == root
    {
      KnownMeans(s, root);
    }
  }
}
