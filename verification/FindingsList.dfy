/** Queries over a finding set, a page at a time (crates/findings/src/set.rs:99-217). */
module FindingsList {
  import opened Common
  import opened Findings
  import opened Paging
  import opened Priority
  import opened Sorting

  /** A query without its cursor and limit. */
  datatype Shape = Shape(
    set_: string,
    rules: seq<RuleId>,
    kind: Option<Kind>,
    minSeverity: Option<Severity>,
    minConfidence: Option<Confidence>,
    package: Option<string>,
    file: Option<string>,
    includeSuppressed: bool)

  /** The fingerprint is the shape itself: a digest that never collides. */
  datatype Cursor = Cursor(set_: string, fingerprint: Shape, offset: nat)

  datatype Entry = Entry(finding: Finding, suppressedReason: Option<string>)

  datatype FindingsPage = FindingsPage(set_: string, entries: seq<Entry>, nextCursor: Option<Cursor>)

  datatype ListError = InvalidLimit(max: nat) | ForeignCursor | InvalidCursor

  predicate Accepts(q: Shape, f: Finding) {
    && (q.rules == [] || f.rule in q.rules)
    && (q.kind.None? || f.kind == q.kind.value)
    && (q.minSeverity.None? || SeverityRank(f.severity) <= SeverityRank(q.minSeverity.value))
    && (q.minConfidence.None? || ConfidenceRank(f.confidence) <= ConfidenceRank(q.minConfidence.value))
    && (q.package.None? || q.package.value in f.packages)
    && (q.file.None? || q.file.value in f.subjects)
  }

  function RankedEntries(findings: seq<Finding>): seq<Entry> {
    if findings == [] then [] else [Entry(findings[0], None)] + RankedEntries(findings[1..])
  }

  function SuppressedEntries(suppressed: seq<Suppressed>): seq<Entry> {
    if suppressed == [] then []
    else [Entry(suppressed[0].finding, Some(suppressed[0].reason))] + SuppressedEntries(suppressed[1..])
  }

  function Accepted(q: Shape): Entry -> bool {
    (e: Entry) => Accepts(q, e.finding)
  }

  /** Everything a query matches, in order: the ranked findings, then the suppressed ones if asked for. */
  function Matching(s: FindingSet, q: Shape): seq<Entry> {
    Filter(Accepted(q), RankedEntries(s.findings) + if q.includeSuppressed then SuppressedEntries(s.suppressed) else [])
  }

  function Skip<T>(n: nat, s: seq<T>): seq<T> {
    if n <= |s| then s[n..] else []
  }

  /** One page: it looks one entry beyond the limit to know whether to hand out a cursor. */
  function List(s: FindingSet, q: Shape, cursor: Option<Cursor>, limit: nat): Result<FindingsPage, ListError> {
    if limit == 0 || limit > s.maxPageLimit then Err(InvalidLimit(s.maxPageLimit))
    else if cursor.Some? && cursor.value.set_ != s.id then Err(ForeignCursor)
    else if cursor.Some? && cursor.value.fingerprint != q then Err(InvalidCursor)
    else
      var offset := if cursor.Some? then cursor.value.offset else 0;
      var ahead := Take(limit + 1, Skip(offset, Matching(s, q)));
      var more := |ahead| > limit;
      Ok(FindingsPage(s.id, Take(limit, ahead), if more then Some(Cursor(s.id, q, offset + limit)) else None))
  }

  // ----- following cursors

  function ListFetch(s: FindingSet, q: Shape): Fetch<Entry, Cursor> {
    (cursor: Option<Cursor>, limit: nat) =>
      var page := List(s, q, cursor, limit);
      if page.Ok? then Some(Answer(page.value.entries, page.value.nextCursor)) else None
  }

  function CursorAt(s: FindingSet, q: Shape): nat -> Cursor {
    (offset: nat) => Cursor(s.id, q, offset)
  }

  function LimitAllowed(s: FindingSet): nat -> bool {
    (limit: nat) => 1 <= limit <= s.maxPageLimit
  }

  function WholeLimit(): nat -> nat {
    (limit: nat) => limit
  }

  lemma ListAtCursor(s: FindingSet, q: Shape, start: nat, limit: nat)
    requires start <= |Matching(s, q)| && 1 <= limit <= s.maxPageLimit
    ensures ServesAt(ListFetch(s, q), Matching(s, q), CursorAt(s, q), limit, start, limit)
  {
    ListedPage(s, q, start, limit, Some(Cursor(s.id, q, start)));
    ListedPage(s, q, 0, limit, None);
  }

  lemma ListedPage(s: FindingSet, q: Shape, start: nat, limit: nat, cursor: Option<Cursor>)
    requires start <= |Matching(s, q)| && 1 <= limit <= s.maxPageLimit
    requires cursor == Some(Cursor(s.id, q, start)) || (cursor.None? && start == 0)
    ensures List(s, q, cursor, limit).Ok?
    ensures
      var page := List(s, q, cursor, limit).value;
      Answer(page.entries, page.nextCursor) == AnswerAt(Matching(s, q), CursorAt(s, q), start, limit)
  {
    var items := Matching(s, q);
    var ahead := Take(limit + 1, Skip(start, items));
    if start + limit < |items| {
      assert Take(limit, ahead) == items[start..start + limit];
    } else {
      assert NextStart(items, start, limit) == |items|;
      assert Take(limit, ahead) == items[start..|items|];
    }
  }

  /** Following the cursors of one query delivers every matching entry once and in order, with any
      allowed limits, and stops. */
  lemma ListDelivers(s: FindingSet, q: Shape, limits: seq<nat>, answers: seq<Answer<Entry, Cursor>>, limit: nat)
    requires IsRun(ListFetch(s, q), limits, answers)
    requires (forall l <- limits :: 1 <= l <= s.maxPageLimit) && 1 <= limit <= s.maxPageLimit
    ensures answers[|answers| - 1].next.None? ==> Delivered(answers) == Matching(s, q)
    ensures answers[|answers| - 1].next.Some? ==>
              && |answers| < |Matching(s, q)|
              && Delivered(answers) < Matching(s, q)
              && ListFetch(s, q)(answers[|answers| - 1].next, limit).Some?
  {
    forall start: nat, l: nat | start <= |Matching(s, q)| && LimitAllowed(s)(l)
      ensures ServesAt(ListFetch(s, q), Matching(s, q), CursorAt(s, q), WholeLimit()(l), start, l)
    {
      ListAtCursor(s, q, start, l);
    }
    assert Serves(ListFetch(s, q), Matching(s, q), CursorAt(s, q), WholeLimit(), LimitAllowed(s));
    FollowingCursors(
      ListFetch(s, q), Matching(s, q), CursorAt(s, q), WholeLimit(), LimitAllowed(s), limits, answers, limit);
  }

  /** A cursor continues only the query it was handed out for, on the set it was handed out by. */
  lemma CursorsAreBound(s: FindingSet, q: Shape, t: FindingSet, r: Shape, offset: nat, limit: nat)
    requires 1 <= limit <= t.maxPageLimit
    ensures List(t, r, Some(Cursor(s.id, q, offset)), limit).Ok? <==> t.id == s.id && r == q
  {
  }

  // ----- what a query matches, in terms of the fields

  /** What each part of a query admits; the serious severities and sure confidences are the high ones. */
  ghost predicate Admits(q: Shape, f: Finding) {
    && (q.rules != [] ==> f.rule in q.rules)
    && (q.kind.Some? ==> f.kind == q.kind.value)
    && (q.minSeverity.Some? ==> NoMilder(f.severity, q.minSeverity.value))
    && (q.minConfidence.Some? ==> NoLessSure(f.confidence, q.minConfidence.value))
    && (q.package.Some? ==> q.package.value in f.packages)
    && (q.file.Some? ==> q.file.value in f.subjects)
  }

  lemma AcceptsMeans(q: Shape, f: Finding)
    ensures Accepts(q, f) <==> Admits(q, f)
  {
  }

  lemma {:induction false} EntriesMean(findings: seq<Finding>, suppressed: seq<Suppressed>)
    ensures |RankedEntries(findings)| == |findings|
    ensures forall i :: 0 <= i < |findings| ==> RankedEntries(findings)[i] == Entry(findings[i], None)
    ensures |SuppressedEntries(suppressed)| == |suppressed|
    ensures forall i :: 0 <= i < |suppressed| ==>
              SuppressedEntries(suppressed)[i] == Entry(suppressed[i].finding, Some(suppressed[i].reason))
    decreases |findings| + |suppressed|
  {
    if findings != [] {
      EntriesMean(findings[1..], suppressed);
    } else if suppressed != [] {
      EntriesMean(findings, suppressed[1..]);
    }
  }

  /** The entry at place `i` of a set: its findings, then what it suppressed, with the reasons. */
  ghost function EntryOf(s: FindingSet, i: nat): Entry
    requires i < |s.findings| + |s.suppressed|
  {
    if i < |s.findings| then Entry(s.findings[i], None)
    else
      var hidden := s.suppressed[i - |s.findings|];
      Entry(hidden.finding, Some(hidden.reason))
  }

  /** `items` are the entries at some places of the set, in order: exactly those the query admits, and
      suppressed ones only where the query includes them. */
  ghost predicate MatchesAt(s: FindingSet, q: Shape, places: seq<nat>, items: seq<Entry>) {
    && |places| == |items|
    && (forall j, k :: 0 <= j < k < |places| ==> places[j] < places[k])
    && (forall j :: 0 <= j < |places| ==> places[j] < |s.findings| + |s.suppressed| && items[j] == EntryOf(s, places[j]))
    && forall i: nat | i < |s.findings| + |s.suppressed| ::
         i in places <==> Admits(q, EntryOf(s, i).finding) && (i < |s.findings| || q.includeSuppressed)
  }

  /** `items` are the elements at these places, exactly those that pass. */
  ghost predicate PlacedBy<T>(p: T -> bool, all: seq<T>, places: seq<nat>, items: seq<T>) {
    && |places| == |items|
    && (forall j, k :: 0 <= j < k < |places| ==> places[j] < places[k])
    && (forall j :: 0 <= j < |places| ==> places[j] < |all| && items[j] == all[places[j]])
    && forall i: nat | i < |all| :: i in places <==> p(all[i])
  }

  lemma PlacedPush<T>(p: T -> bool, all: seq<T>, places: seq<nat>, items: seq<T>, x: T)
    requires PlacedBy(p, all, places, items)
    ensures p(x) ==> PlacedBy(p, all + [x], places + [|all|], items + [x])
    ensures !p(x) ==> PlacedBy(p, all + [x], places, items)
  {
  }

  lemma {:induction false} FilterPlaces<T>(p: T -> bool, all: seq<T>) returns (places: seq<nat>)
    ensures PlacedBy(p, all, places, Filter(p, all))
  {
    if all == [] {
      places := [];
    } else {
      var init, last := all[..|all| - 1], all[|all| - 1];
      places := FilterPlaces(p, init);
      PlacedPush(p, init, places, Filter(p, init), last);
      assert all == init + [last];
      FilterConcat(p, init, [last]);
      FilterOne(p, last);
      if p(last) {
        places := places + [|init|];
      }
    }
  }

  /** What a query matches, one after the other. */
  lemma MatchingMeans(s: FindingSet, q: Shape) returns (places: seq<nat>)
    ensures MatchesAt(s, q, places, Matching(s, q))
  {
    var shown := RankedEntries(s.findings);
    var all := shown + if q.includeSuppressed then SuppressedEntries(s.suppressed) else [];
    EntriesMean(s.findings, s.suppressed);
    assert forall i: nat | i < |all| :: all[i] == EntryOf(s, i);
    places := FilterPlaces(Accepted(q), all);
    forall i: nat | i < |s.findings| + |s.suppressed|
      ensures i in places <==> Admits(q, EntryOf(s, i).finding) && (i < |s.findings| || q.includeSuppressed)
    {
      AcceptsMeans(q, EntryOf(s, i).finding);
      if i in places {
        var j :| 0 <= j < |places| && places[j] == i;
      }
    }
  }

  /** Why a page is refused: the limit is checked first, then the set, then the query. */
  lemma RefusedFor(s: FindingSet, q: Shape, cursor: Option<Cursor>, limit: nat)
    ensures List(s, q, cursor, limit).Err? && List(s, q, cursor, limit).error.InvalidLimit?
            <==> !(1 <= limit <= s.maxPageLimit)
    ensures List(s, q, cursor, limit) == Err(ForeignCursor)
            <==> 1 <= limit <= s.maxPageLimit && cursor.Some? && cursor.value.set_ != s.id
    ensures List(s, q, cursor, limit) == Err(InvalidCursor)
            <==> 1 <= limit <= s.maxPageLimit && cursor.Some? && cursor.value.set_ == s.id && cursor.value.fingerprint != q
  {
  }
}
