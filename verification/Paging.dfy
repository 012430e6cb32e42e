/** Bounded pages over a list and the printable cursors that continue them
    (crates/code-analysis/src/query.rs, crates/findings/src/set.rs). */
module Paging {
  import opened Common
  import opened Text

  const PAGE_LIMIT: nat := 500

  type SnapshotId = string

  /** The refusals of a query, one constructor for each message. */
  datatype QueryError =
    | LimitMissing
    | CursorInvalid
    | CursorForeign
    | CursorOutOfRange
    | UnknownCallable(id: string)
    | DepthExceeded(depth: nat)
    | RootsMissing
    | TooManyRoots

  datatype Page<+T> = Page(items: seq<T>, nextCursor: Option<string>, truncated: bool)

  function EncodeCursor(snapshot: SnapshotId, offset: nat): string {
    snapshot + ":" + Decimal(offset)
  }

  function DecodeCursor(cursor: string, snapshot: SnapshotId): Result<nat, QueryError> {
    match SplitLast(cursor, ':')
    case None => Err(CursorInvalid)
    case Some((owner, offset)) =>
      if owner != snapshot then Err(CursorForeign)
      else
        match ParseUsize(offset)
        case None => Err(CursorInvalid)
        case Some(n) => Ok(n)
  }

  /** A printed cursor decodes to its offset for the snapshot it was made for, and is refused by
      every other snapshot; snapshot ids may themselves contain colons. */
  lemma CursorRoundTrip(owner: SnapshotId, reader: SnapshotId, offset: nat)
    requires offset <= USIZE_MAX
    ensures DecodeCursor(EncodeCursor(owner, offset), reader)
         == if owner == reader then Ok(offset)
            else Err(CursorForeign)
  {
    SplitLastUnique(owner, ':', Decimal(offset));
    assert owner + ":" + Decimal(offset) == owner + [':'] + Decimal(offset);
    ParseDecimal(offset);
  }

  function Min(a: nat, b: nat): nat {
    if a <= b then a else b
  }

  /** `limit.clamp(1, PAGE_LIMIT)`. */
  function ClampLimit(limit: nat): nat {
    if limit < 1 then 1 else Min(limit, PAGE_LIMIT)
  }

  function PageOf<T>(items: seq<T>, cursor: Option<string>, limit: nat, snapshot: SnapshotId): Result<Page<T>, QueryError> {
    var start := if cursor.Some? then DecodeCursor(cursor.value, snapshot) else Ok(0);
    if start.Err? then Err(start.error)
    else if start.value > |items| then Err(CursorOutOfRange)
    else
      var take := ClampLimit(limit);
      var truncated := start.value + take < |items|;
      Ok(Page(
        items[start.value..Min(start.value + take, |items|)],
        if truncated then Some(EncodeCursor(snapshot, start.value + take)) else None,
        truncated))
  }

  // ----- following cursors, for any service that answers with a page and a cursor

  datatype Answer<+T, +C> = Answer(items: seq<T>, next: Option<C>)

  type Fetch<!T, !C> = (Option<C>, nat) -> Option<Answer<T, C>>

  function NextStart<T>(items: seq<T>, start: nat, size: nat): (next: nat)
    requires start <= |items|
    ensures start <= next <= |items|
    ensures start < |items| && size > 0 ==> start < next
  {
    Min(start + size, |items|)
  }

  function CursorTo<T, C>(items: seq<T>, cursorAt: nat -> C, start: nat): Option<C> {
    if start < |items| then Some(cursorAt(start)) else None
  }

  function AnswerAt<T, C>(items: seq<T>, cursorAt: nat -> C, start: nat, size: nat): Answer<T, C>
    requires start <= |items|
  {
    var next := NextStart(items, start, size);
    Answer(items[start..next], CursorTo(items, cursorAt, next))
  }

  /** `fetch` serves `items`: no cursor means the start, the cursor of an offset means that offset,
      and every allowed limit yields a nonempty page size. */
  ghost predicate Serves<T, C>(fetch: Fetch<T, C>, items: seq<T>, cursorAt: nat -> C, size: nat -> nat, allowed: nat -> bool) {
    forall start: nat, limit: nat | start <= |items| && allowed(limit) :: ServesAt(fetch, items, cursorAt, size(limit), start, limit)
  }

  ghost predicate ServesAt<T, C>(fetch: Fetch<T, C>, items: seq<T>, cursorAt: nat -> C, size: nat, start: nat, limit: nat)
    requires start <= |items|
  {
    && size >= 1
    && fetch(Some(cursorAt(start)), limit) == Some(AnswerAt(items, cursorAt, start, size))
    && fetch(None, limit) == Some(AnswerAt(items, cursorAt, 0, size))
  }

  /** Answers fetched one after the other, each with the cursor the previous one handed out; the
      limit may change from call to call. */
  ghost predicate IsRun<T, C>(fetch: Fetch<T, C>, limits: seq<nat>, answers: seq<Answer<T, C>>) {
    && |limits| == |answers| > 0
    && var n := |answers| - 1;
       if n == 0 then fetch(None, limits[0]) == Some(answers[0])
       else
         && IsRun(fetch, limits[..n], answers[..n])
         && answers[n - 1].next.Some?
         && fetch(answers[n - 1].next, limits[n]) == Some(answers[n])
  }

  /** All items of a run, in the order they were delivered. */
  function Delivered<T, C>(answers: seq<Answer<T, C>>): seq<T> {
    if answers == [] then [] else Delivered(answers[..|answers| - 1]) + answers[|answers| - 1].items
  }

  /** However far a run has gone, it has delivered exactly the items before `next`, and its last
      page says to continue there. */
  lemma {:induction false} RunDelivers<T, C>(fetch: Fetch<T, C>, items: seq<T>, cursorAt: nat -> C, size: nat -> nat,
                                             allowed: nat -> bool, limits: seq<nat>, answers: seq<Answer<T, C>>)
    returns (next: nat)
    requires Serves(fetch, items, cursorAt, size, allowed)
    requires IsRun(fetch, limits, answers) && forall limit <- limits :: allowed(limit)
    ensures next <= |items| && Delivered(answers) == items[..next]
    ensures answers[|answers| - 1].next == CursorTo(items, cursorAt, next)
    ensures next < |items| ==> |answers| <= next
  {
    var n := |answers| - 1;
    var start := 0;
    if n > 0 {
      start := RunDelivers(fetch, items, cursorAt, size, allowed, limits[..n], answers[..n]);
      assert answers[..n][n - 1] == answers[n - 1];
    }
    assert allowed(limits[n]) && ServesAt(fetch, items, cursorAt, size(limits[n]), start, limits[n]);
    assert answers[n] == AnswerAt(items, cursorAt, start, size(limits[n]));
    next := NextStart(items, start, size(limits[n]));
  }

  /** Following cursors from the first page: a run that has ended delivered every item exactly
      once and in order; one that has not can be continued with any allowed limit, and must end
      within as many pages as there are items. */
  lemma FollowingCursors<T, C>(fetch: Fetch<T, C>, items: seq<T>, cursorAt: nat -> C, size: nat -> nat,
                               allowed: nat -> bool, limits: seq<nat>, answers: seq<Answer<T, C>>, limit: nat)
    requires Serves(fetch, items, cursorAt, size, allowed)
    requires IsRun(fetch, limits, answers) && (forall l <- limits :: allowed(l)) && allowed(limit)
    ensures answers[|answers| - 1].next.None? ==> Delivered(answers) == items
    ensures answers[|answers| - 1].next.Some? ==>
              && |answers| < |items|
              && Delivered(answers) < items
              && fetch(answers[|answers| - 1].next, limit).Some?
  {
    var next := RunDelivers(fetch, items, cursorAt, size, allowed, limits, answers);
    assert ServesAt(fetch, items, cursorAt, size(limit), next, limit);
  }

  // ----- the call-graph queries

  /** What a client of `PageOf` sees. */
  function PageFetch<T>(items: seq<T>, snapshot: SnapshotId): Fetch<T, string> {
    (cursor: Option<string>, limit: nat) =>
      var page: Result<Page<T>, QueryError> := PageOf(items, cursor, limit, snapshot);
      if page.Ok? then Some(Answer(page.value.items, page.value.nextCursor)) else None
  }

  function CursorPrinter(snapshot: SnapshotId): nat -> string {
    (offset: nat) => EncodeCursor(snapshot, offset)
  }

  predicate AnyLimit(limit: nat) {
    true
  }

  lemma PageAtCursor<T>(items: seq<T>, snapshot: SnapshotId, start: nat, limit: nat)
    requires start <= |items| <= USIZE_MAX
    ensures ServesAt(PageFetch(items, snapshot), items, CursorPrinter(snapshot), ClampLimit(limit), start, limit)
  {
    CursorRoundTrip(snapshot, snapshot, start);
  }

  /** The call-graph pages serve their items under every limit, so `FollowingCursors` applies. */
  lemma PagesServe<T>(items: seq<T>, snapshot: SnapshotId)
    requires |items| <= USIZE_MAX
    ensures Serves(PageFetch(items, snapshot), items, CursorPrinter(snapshot), ClampLimit, AnyLimit)
    ensures forall limit :: AnyLimit(limit)
  {
    forall start: nat, limit: nat | start <= |items|
      ensures ServesAt(PageFetch(items, snapshot), items, CursorPrinter(snapshot), ClampLimit(limit), start, limit)
    {
      PageAtCursor(items, snapshot, start, limit);
    }
  }

  // ----- cursors and pages spelled out

  /** A cursor is the id of its snapshot, a colon, and a number. */
  lemma DecodeMeans(cursor: string, snapshot: SnapshotId, n: nat)
    ensures DecodeCursor(cursor, snapshot) == Ok(n)
            <==> exists digits :: cursor == snapshot + ":" + digits && ':' !in digits && ParseUsize(digits) == Some(n)
    ensures DecodeCursor(cursor, snapshot) == Err(CursorForeign)
            <==> exists owner, digits :: cursor == owner + ":" + digits && ':' !in digits && owner != snapshot
    ensures ':' !in cursor ==> DecodeCursor(cursor, snapshot) == Err(CursorInvalid)
  {
    forall owner: string, digits: string | cursor == owner + ":" + digits && ':' !in digits
      ensures SplitLast(cursor, ':') == Some((owner, digits))
    {
      SplitLastUnique(owner, ':', digits);
      assert owner + ":" + digits == owner + [':'] + digits;
    }
    if SplitLast(cursor, ':').Some? {
      var (owner, digits) := SplitLast(cursor, ':').value;
      assert cursor == owner + ":" + digits && ':' !in digits;
    }
  }

  /** Where a page starts: at the first item, or where its cursor points, which may be the very end. */
  ghost predicate StartsAt<T>(items: seq<T>, cursor: Option<string>, snapshot: SnapshotId, start: nat) {
    start <= |items| && if cursor.None? then start == 0 else DecodeCursor(cursor.value, snapshot) == Ok(start)
  }

  /** A page is given exactly when it starts within the items. It has as many as the limit asks for, but
      at least one if there is one and at most 500; and it has a cursor exactly when more follow. */
  lemma PageMeans<T>(items: seq<T>, cursor: Option<string>, limit: nat, snapshot: SnapshotId)
    ensures PageOf(items, cursor, limit, snapshot).Ok? <==> exists start: nat :: StartsAt(items, cursor, snapshot, start)
    ensures forall start: nat :: StartsAt(items, cursor, snapshot, start) ==>
              var size := if limit == 0 then 1 else if limit > 500 then 500 else limit;
              var page := PageOf(items, cursor, limit, snapshot);
              if start + size < |items| then
                page == Ok(Page(items[start..start + size], Some(snapshot + ":" + Decimal(start + size)), true))
              else page == Ok(Page(items[start..], None, false))
  {
    forall start: nat | StartsAt(items, cursor, snapshot, start)
      ensures
        var size := if limit == 0 then 1 else if limit > 500 then 500 else limit;
        var page := PageOf(items, cursor, limit, snapshot);
        if start + size < |items| then
          page == Ok(Page(items[start..start + size], Some(snapshot + ":" + Decimal(start + size)), true))
        else page == Ok(Page(items[start..], None, false))
    {
      assert items[start..|items|] == items[start..];
    }
    if PageOf(items, cursor, limit, snapshot).Ok? {
      assert StartsAt(items, cursor, snapshot, if cursor.None? then 0 else DecodeCursor(cursor.value, snapshot).value);
    }
  }
}
