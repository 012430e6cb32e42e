/** Admission of mutations: duplicate detection over a bounded window and session revisions
    (apps/harnessd/src/handler.rs). One mutation is one step. */
module Admission {
  import opened Common

  const DEDUPLICATION_WINDOW: nat := 1024
  const U64_MAX: nat := 0xFFFF_FFFF_FFFF_FFFF

  datatype SessionId = SessionId(value: nat)
  datatype CommandId = CommandId(value: nat)

  datatype Key = Key(session: SessionId, command: CommandId)

  datatype AdmissionResult =
    | Accepted
    | AcceptedStarted(run: nat)
    | AcceptedQueued(run: nat, position: nat)
    | AcceptedApplied
    | Duplicate(original: AdmissionResult)
    | RejectedConflict(current: nat)
    | RejectedClosed
    | RejectedInvalidState
    | RejectedCapacity

  /** The outcome of a command and the session revision reported with it. */
  datatype Answer = Answer(result: AdmissionResult, revision: nat)

  datatype Response = SessionMismatch | NotOpen | Admitted(answer: Answer)

  datatype Mutation = Mutation(
    outer: Option<SessionId>,
    session: SessionId,
    command: CommandId,
    expected: Option<nat>,
    isClose: bool,
    /** what the session answers when the command reaches it */
    outcome: AdmissionResult)

  datatype State = State(
    sessions: set<SessionId>,
    revisions: map<SessionId, nat>,
    entries: map<Key, Answer>,
    order: seq<Key>)

  // ----- one step

  function CurrentRevision(s: State, session: SessionId): nat {
    if session in s.revisions then s.revisions[session] else 0
  }

  /** The revision a mutation may run at, or the answer to send instead. */
  function Admit(s: State, m: Mutation): Result<nat, Response> {
    if m.outer != Some(m.session) then Err(SessionMismatch)
    else if Key(m.session, m.command) in s.entries then
      var original := s.entries[Key(m.session, m.command)];
      Err(Admitted(Answer(Duplicate(original.result), original.revision)))
    else
      var current := CurrentRevision(s, m.session);
      if m.expected.Some? && m.expected.value != current then Err(Admitted(Answer(RejectedConflict(current), current)))
      else if m.session !in s.sessions then Err(NotOpen)
      else Ok(current)
  }

  predicate IsAccepted(result: AdmissionResult) {
    result == Accepted || result == AcceptedApplied
  }

  function SaturatingNext(revision: nat): nat {
    if revision >= U64_MAX then U64_MAX else revision + 1
  }

  function Settled(m: Mutation, current: nat): Answer {
    Answer(m.outcome, if IsAccepted(m.outcome) then SaturatingNext(current) else current)
  }

  /** Remembers an answer, forgetting the oldest ones beyond the window. */
  function Remember(entries: map<Key, Answer>, order: seq<Key>, key: Key, answer: Answer): (map<Key, Answer>, seq<Key>) {
    if key in entries then (entries, order) else Expire(entries[key := answer], order + [key])
  }

  function Expire(entries: map<Key, Answer>, order: seq<Key>): (map<Key, Answer>, seq<Key>)
    decreases |order|
  {
    if |order| <= DEDUPLICATION_WINDOW then (entries, order) else Expire(entries - {order[0]}, order[1..])
  }

  function Settle(s: State, m: Mutation, current: nat): State {
    var answer := Settled(m, current);
    var (entries, order) := Remember(s.entries, s.order, Key(m.session, m.command), answer);
    var accepted := IsAccepted(m.outcome);
    State(
      if accepted && m.isClose then s.sessions - {m.session} else s.sessions,
      if accepted then s.revisions[m.session := answer.revision] else s.revisions,
      entries,
      order)
  }

  function Mutate(s: State, m: Mutation): (State, Response) {
    match Admit(s, m)
    case Err(response) => (s, response)
    case Ok(current) => (Settle(s, m, current), Admitted(Settled(m, current)))
  }

  function Create(s: State, session: SessionId): State {
    s.(sessions := s.sessions + {session}, revisions := s.revisions[session := 0])
  }

  /** Restoring a session that is open changes nothing; otherwise its revision is the stored one. */
  function Restore(s: State, session: SessionId, stored: nat): State {
    if session in s.sessions then s
    else s.(sessions := s.sessions + {session}, revisions := s.revisions[session := stored])
  }

  // ----- the handler

  class Handler {
    var sessions: set<SessionId>
    var revisions: map<SessionId, nat>
    var entries: map<Key, Answer>
    var order: seq<Key>

    function Now(): State
      reads this
    {
      State(sessions, revisions, entries, order)
    }

    constructor ()
      ensures Now() == State({}, map[], map[], [])
    {
      sessions, revisions, entries, order := {}, map[], map[], [];
    }

    method CreateSession(session: SessionId)
      modifies this
      ensures Now() == Create(old(Now()), session)
    {
      sessions := sessions + {session};
      revisions := revisions[session := 0];
    }

    method RestoreSession(session: SessionId, stored: nat) returns (revision: nat)
      modifies this
      ensures Now() == Restore(old(Now()), session, stored)
      ensures revision == CurrentRevision(Now(), session)
    {
      if session in sessions {
        revision := if session in revisions then revisions[session] else 0;
      } else {
        sessions := sessions + {session};
        revisions := revisions[session := stored];
        revision := stored;
      }
    }

    method Insert(key: Key, answer: Answer)
      modifies this`entries, this`order
      ensures (entries, order) == Remember(old(entries), old(order), key, answer)
    {
      if key in entries {
        return;
      }
      entries := entries[key := answer];
      order := order + [key];
      while |order| > DEDUPLICATION_WINDOW
        invariant Expire(entries, order) == Remember(old(entries), old(order), key, answer)
        decreases |order|
      {
        entries, order := entries - {order[0]}, order[1..];
      }
    }

    method MutateSession(m: Mutation) returns (response: Response)
      modifies this
      ensures (Now(), response) == Mutate(old(Now()), m)
    {
      var admitted := Admit(Now(), m);
      if admitted.Err? {
        return admitted.error;
      }
      var current := admitted.value;
      var revision := if IsAccepted(m.outcome) then SaturatingNext(current) else current;
      if IsAccepted(m.outcome) {
        revisions := revisions[m.session := revision];
        if m.isClose {
          sessions := sessions - {m.session};
        }
      }
      Insert(Key(m.session, m.command), Answer(m.outcome, revision));
      response := Admitted(Answer(m.outcome, revision));
    }
  }

  // ----- whole runs

  datatype Event = Created(session: SessionId) | Restored(session: SessionId, stored: nat) | Mutated(m: Mutation)

  function Apply(s: State, e: Event): State {
    match e
    case Created(session) => Create(s, session)
    case Restored(session, stored) => Restore(s, session, stored)
    case Mutated(m) => Mutate(s, m).0
  }

  function After(events: seq<Event>): State {
    if events == [] then State({}, map[], map[], [])
    else Apply(After(events[..|events| - 1]), events[|events| - 1])
  }

  /** The commands that reached their session, with their answers, in order. */
  function Log(events: seq<Event>): seq<(Key, Answer)> {
    if events == [] then []
    else Log(events[..|events| - 1]) + Logged(After(events[..|events| - 1]), events[|events| - 1])
  }

  function Logged(s: State, e: Event): seq<(Key, Answer)> {
    if e.Mutated? && Admit(s, e.m).Ok? then [(Key(e.m.session, e.m.command), Settled(e.m, Admit(s, e.m).value))] else []
  }

  /** The last answers within the window. */
  function Window(log: seq<(Key, Answer)>): seq<(Key, Answer)> {
    if |log| <= DEDUPLICATION_WINDOW then log else log[|log| - DEDUPLICATION_WINDOW..]
  }

  /** The same agreement with no bound on the size. */
  ghost predicate Holds(entries: map<Key, Answer>, order: seq<Key>, window: seq<(Key, Answer)>) {
    && |order| == |window|
    && (forall i :: 0 <= i < |window| ==> order[i] == window[i].0)
    && (forall i, j :: 0 <= i < j < |window| ==> order[i] != order[j])
    && (forall key :: key in entries <==> key in order)
    && (forall i :: 0 <= i < |window| ==> order[i] in entries && entries[order[i]] == window[i].1)
  }

  /** The cache holds the window: same commands in the same order, none twice, each with its answer. */
  ghost predicate HoldsWindow(s: State, window: seq<(Key, Answer)>) {
    |window| <= DEDUPLICATION_WINDOW && Holds(s.entries, s.order, window)
  }

  lemma PushHolds(entries: map<Key, Answer>, order: seq<Key>, window: seq<(Key, Answer)>, key: Key, answer: Answer)
    requires Holds(entries, order, window) && key !in entries
    ensures Holds(entries[key := answer], order + [key], window + [(key, answer)])
  {
    assert key !in order;
  }

  lemma PopHolds(entries: map<Key, Answer>, order: seq<Key>, window: seq<(Key, Answer)>)
    requires Holds(entries, order, window) && order != []
    ensures Holds(entries - {order[0]}, order[1..], window[1..])
  {
    var rest := order[1..];
    assert order == [order[0]] + rest;
    assert order[0] !in rest;
    forall key
      ensures key in entries - {order[0]} <==> key in rest
    {
      assert key in order <==> key == order[0] || key in rest;
    }
  }

  lemma RememberKeepsWindow(s: State, window: seq<(Key, Answer)>, key: Key, answer: Answer)
    requires HoldsWindow(s, window) && key !in s.entries
    ensures
      var (entries, order) := Remember(s.entries, s.order, key, answer);
      HoldsWindow(s.(entries := entries, order := order), Window(window + [(key, answer)]))
  {
    var entries, order, longer := s.entries[key := answer], s.order + [key], window + [(key, answer)];
    PushHolds(s.entries, s.order, window, key, answer);
    if |order| > DEDUPLICATION_WINDOW {
      PopHolds(entries, order, longer);
      assert Expire(entries, order) == (entries - {order[0]}, order[1..]);
      assert Window(longer) == longer[1..];
    }
  }

  lemma WindowOfWindow(log: seq<(Key, Answer)>, next: (Key, Answer))
    ensures Window(Window(log) + [next]) == Window(log + [next])
  {
  }

  /** Over any run of one-at-a-time mutations the cache holds exactly the last answers of the window. */
  lemma {:induction false} CacheHoldsWindow(events: seq<Event>)
    ensures HoldsWindow(After(events), Window(Log(events)))
    ensures |After(events).order| == if |Log(events)| < 1024 then |Log(events)| else 1024
  {
    if events != [] {
      var init, e := events[..|events| - 1], events[|events| - 1];
      var s := After(init);
      CacheHoldsWindow(init);
      if e.Mutated? && Admit(s, e.m).Ok? {
        var key, answer := Key(e.m.session, e.m.command), Settled(e.m, Admit(s, e.m).value);
        RememberKeepsWindow(s, Window(Log(init)), key, answer);
        WindowOfWindow(Log(init), (key, answer));
      } else {
        assert Log(events) == Log(init);
      }
    }
  }

  /** A repeat of a command within the window is answered as a duplicate with the original result and
      revision, and changes nothing. */
  lemma RepeatIsHarmless(events: seq<Event>, i: nat, m: Mutation)
    requires i < |Window(Log(events))| && Window(Log(events))[i].0 == Key(m.session, m.command)
    requires m.outer == Some(m.session)
    ensures
      var original := Window(Log(events))[i].1;
      Mutate(After(events), m) == (After(events), Admitted(Answer(Duplicate(original.result), original.revision)))
  {
    CacheHoldsWindow(events);
    assert After(events).order[i] == Key(m.session, m.command);
  }

  /** A command outside the window is not taken for a repeat. */
  lemma OnlyTheWindowRepeats(events: seq<Event>, m: Mutation)
    requires forall i :: 0 <= i < |Window(Log(events))| ==> Window(Log(events))[i].0 != Key(m.session, m.command)
    ensures Key(m.session, m.command) !in After(events).entries
  {
    CacheHoldsWindow(events);
  }

  // ----- revisions

  /** The revision a session was last created or restored with. */
  function Start(events: seq<Event>, session: SessionId): nat {
    if events == [] then 0
    else
      var init, e := events[..|events| - 1], events[|events| - 1];
      if !Starts(After(init), e, session) then Start(init, session)
      else if e.Created? then 0
      else e.stored
  }

  /** How many of its commands were accepted since. */
  function AcceptedSince(events: seq<Event>, session: SessionId): nat {
    if events == [] then 0
    else
      var init, e := events[..|events| - 1], events[|events| - 1];
      if Starts(After(init), e, session) then 0
      else AcceptedSince(init, session) + if AcceptedFor(After(init), e, session) then 1 else 0
  }

  function Capped(n: nat): nat {
    if n > U64_MAX then U64_MAX else n
  }

  predicate AcceptedFor(s: State, e: Event, session: SessionId) {
    e.Mutated? && e.m.session == session && Admit(s, e.m).Ok? && IsAccepted(e.m.outcome)
  }

  predicate Starts(s: State, e: Event, session: SessionId) {
    e == Created(session) || (e.Restored? && e.session == session && session !in s.sessions)
  }

  lemma RevisionStep(s: State, e: Event, session: SessionId)
    ensures
      CurrentRevision(Apply(s, e), session)
      == if Starts(s, e, session) then (if e.Created? then 0 else e.stored)
         else if AcceptedFor(s, e, session) then SaturatingNext(CurrentRevision(s, session))
         else CurrentRevision(s, session)
  {
  }

  /** Between a create or restore and the next, a session's revision is its start value plus the
      number of accepted commands, up to saturation. */
  lemma {:induction false} RevisionCountsAccepted(events: seq<Event>, session: SessionId)
    requires forall e <- events :: e.Restored? ==> e.stored <= U64_MAX
    ensures CurrentRevision(After(events), session) == Capped(Start(events, session) + AcceptedSince(events, session))
  {
    if events != [] {
      var init := events[..|events| - 1];
      assert forall e <- init :: e in events;
      assert events[|events| - 1] in events;
      RevisionCountsAccepted(init, session);
      RevisionStep(After(init), events[|events| - 1], session);
    }
  }

  /** Every open session has a revision of its own. */
  lemma {:induction false} OpenSessionsHaveRevisions(events: seq<Event>)
    ensures After(events).sessions <= After(events).revisions.Keys
  {
    if events != [] {
      OpenSessionsHaveRevisions(events[..|events| - 1]);
    }
  }

  // ----- one mutation, read off the state

  /** The session took the command: at once, or as a change already in effect. */
  ghost predicate Took(result: AdmissionResult) {
    result == Accepted || result == AcceptedApplied
  }

  ghost function RevisionOf(s: State, session: SessionId): nat {
    if session in s.revisions then s.revisions[session] else 0
  }

  /** The command is its session's own, not a repeat, expects the revision there is or none in particular,
      and its session is open. */
  ghost predicate Reaches(s: State, m: Mutation) {
    && m.outer == Some(m.session) && Key(m.session, m.command) !in s.entries
    && (m.expected.None? || m.expected == Some(RevisionOf(s, m.session)))
    && m.session in s.sessions
  }

  /** A command that does not reach its session changes nothing, and is told why: it names another session
      than the request, repeats a command, expects another revision, or its session is not open. */
  lemma UnreachedIsTold(s: State, m: Mutation)
    requires !Reaches(s, m)
    ensures Mutate(s, m).0 == s
    ensures
      var key, now, response := Key(m.session, m.command), RevisionOf(s, m.session), Mutate(s, m).1;
      if m.outer != Some(m.session) then response == SessionMismatch
      else if key in s.entries then
        response == Admitted(Answer(Duplicate(s.entries[key].result), s.entries[key].revision))
      else if m.expected.Some? && m.expected.value != now then response == Admitted(Answer(RejectedConflict(now), now))
      else m.session !in s.sessions && response == NotOpen
  {
  }

  /** One that does is answered by it, and remembered. If the session took it the revision is the next
      one, and closing forgets the session; otherwise neither changes. */
  lemma ReachedIsAnswered(s: State, m: Mutation)
    requires Reaches(s, m)
    ensures
      var (after, response) := Mutate(s, m);
      var now := RevisionOf(s, m.session);
      var next := if now >= 0xFFFF_FFFF_FFFF_FFFF then 0xFFFF_FFFF_FFFF_FFFF else now + 1;
      && response == Admitted(Answer(m.outcome, if Took(m.outcome) then next else now))
      && (Took(m.outcome) ==>
            && after.revisions == s.revisions[m.session := next]
            && after.sessions == if m.isClose then s.sessions - {m.session} else s.sessions)
      && (!Took(m.outcome) ==> after.revisions == s.revisions && after.sessions == s.sessions)
      && (|s.order| < 1024 ==>
            && after.order == s.order + [Key(m.session, m.command)]
            && after.entries == s.entries[Key(m.session, m.command) := response.answer])
  {
  }

  /** Nothing starts the session anew after the first `from` events. */
  ghost predicate Uninterrupted(events: seq<Event>, from: nat, session: SessionId) {
    forall k :: from <= k < |events| ==> !Starts(After(events[..k]), events[k], session)
  }

  lemma {:induction false} RevisionOnlyGrows(events: seq<Event>, from: nat, session: SessionId)
    requires from <= |events| && Uninterrupted(events, from, session)
    requires forall e <- events :: e.Restored? ==> e.stored <= U64_MAX
    ensures RevisionOf(After(events[..from]), session) <= RevisionOf(After(events), session)
    decreases |events|
  {
    if from < |events| {
      var init, e := events[..|events| - 1], events[|events| - 1];
      forall k | from <= k < |init|
        ensures !Starts(After(init[..k]), init[k], session)
      {
        assert init[..k] == events[..k];
      }
      assert init[..from] == events[..from] && events[..|init|] == init;
      RevisionOnlyGrows(init, from, session);
      RevisionStep(After(init), e, session);
      RevisionCountsAccepted(init, session);
    } else {
      assert events[..from] == events;
    }
  }

  /** No update is lost: of two commands that expect the same revision of a session, the second is not
      taken once the first was, until the session starts anew or its revision saturates. */
  lemma NoLostUpdate(events: seq<Event>, first: nat, later: Mutation)
    requires first < |events| && events[first].Mutated?
    requires forall e <- events :: e.Restored? ==> e.stored <= U64_MAX
    requires
      var m, before := events[first].m, After(events[..first]);
      && Reaches(before, m) && Took(m.outcome) && m.session == later.session
      && m.expected.Some? && m.expected == later.expected && m.expected.value < U64_MAX
    requires Uninterrupted(events, first + 1, later.session)
    ensures !Reaches(After(events), later)
  {
    var m, before := events[first].m, After(events[..first]);
    assert events[..first + 1] == events[..first] + [events[first]];
    assert events[..first + 1][..first] == events[..first];
    ReachedIsAnswered(before, m);
    RevisionOnlyGrows(events, first + 1, later.session);
  }
}
