/** For which transcripts dropping a prefix is safe whatever is kept (crates/context/src/compaction.rs). */
module Rounds {
  import opened Common
  import opened Messages
  import opened Transcript
  import opened Compaction
  import opened CompactionValidity
  import opened TranscriptMeaning
  import opened Reach

  /** Calls are made in assistant messages and answered in tool messages only. */
  ghost predicate RolesFit(ms: seq<Message>) {
    forall m <- ms :: (UseIds(m) != [] ==> m.role == Assistant) && (ResultIds(m) != [] ==> m.role == Tool)
  }

  ghost predicate WellFormed(ms: seq<Message>) {
    Accepts(ms) && OneBlockEach(ms) && RolesFit(ms)
  }

  /** Message `a` makes call `id` and message `b` answers it. */
  ghost predicate Call(ms: seq<Message>, a: nat, b: nat, id: CallId) {
    a < b < |ms| && Makes(ms[a], id) && Answers(ms[b], id)
  }

  /** The messages that share a call with a message. */
  ghost function Partners(ms: seq<Message>): nat -> set<nat> {
    (i: nat) => if i < |ms| then set j | j in PartnersOf(ms, i) else {}
  }

  /** Compaction keeps message `j` whenever it keeps message `i`: a chain of shared calls leads there. */
  ghost predicate Tied(ms: seq<Message>, i: nat, j: nat) {
    Reachable(Partners(ms), {i}, j)
  }

  /** Every message between a call and its answer is tied to the call. */
  ghost predicate RoundsTied(ms: seq<Message>) {
    forall a: nat, b: nat, c: nat, id | Call(ms, a, b, id) && a < c < b :: Tied(ms, c, a)
  }

  // ----- partners share calls

  lemma PartnersShareCall(ms: seq<Message>, i: nat, j: nat) returns (id: CallId)
    requires WellFormed(ms) && i < |ms| && j in PartnersOf(ms, i)
    ensures Call(ms, i, j, id) || Call(ms, j, i, id)
  {
    OwnersOfMembers(ResultIds(ms[i]), LastOwner(UseRows(ms)));
    OwnersOfMembers(UseIds(ms[i]), LastOwner(ResultRows(ms)));
    LastOwnerMeaning(UseRows(ms));
    LastOwnerMeaning(ResultRows(ms));
    if j in OwnersOf(ResultIds(ms[i]), LastOwner(UseRows(ms))) {
      id :| id in ResultIds(ms[i]) && id in LastOwner(UseRows(ms)) && LastOwner(UseRows(ms))[id] == j;
      assert id in UseRows(ms)[j];
      MadeBeforeAnswered(ms, j, i, id);
    } else {
      id :| id in UseIds(ms[i]) && id in LastOwner(ResultRows(ms)) && LastOwner(ResultRows(ms))[id] == j;
      assert id in ResultRows(ms)[j];
      MadeBeforeAnswered(ms, i, j, id);
    }
  }

  lemma MadeBeforeAnswered(ms: seq<Message>, a: nat, b: nat, id: CallId)
    requires WellFormed(ms) && a < |ms| && b < |ms| && id in UseIds(ms[a]) && id in ResultIds(ms[b])
    ensures Call(ms, a, b, id)
  {
    assert ms[a] in ms && ms[b] in ms;
    AcceptsIffWellPaired(ms);
    assert WasMade(ms, b, id);
    var maker :| 0 <= maker < b && Makes(ms[maker], id);
    assert maker == a;
  }

  lemma CallsPartner(ms: seq<Message>, a: nat, b: nat, id: CallId)
    requires UniqueIds(ms) && Call(ms, a, b, id)
    ensures a in Partners(ms)(b) && b in Partners(ms)(a)
  {
    HalvesArePartners(ms, a, b, id);
  }

  lemma PartnersAreMutual(ms: seq<Message>, i: nat, j: nat)
    requires WellFormed(ms) && i < |ms| && j in Partners(ms)(i)
    ensures j < |ms| && i in Partners(ms)(j)
  {
    var id := PartnersShareCall(ms, i, j);
    if Call(ms, i, j, id) {
      CallsPartner(ms, i, j, id);
    } else {
      CallsPartner(ms, j, i, id);
    }
  }

  // ----- closed sets of messages

  ghost function Positions(kept: seq<bool>, mark: bool): set<nat> {
    set i: nat | i < |kept| && kept[i] == mark
  }

  /** What is kept and what is dropped are both closed under partners. */
  lemma BothSidesClosed(ms: seq<Message>, kept: seq<bool>, mark: bool)
    requires WellFormed(ms) && PairClosed(ms, kept) == true
    ensures Closed(Partners(ms), Positions(kept, mark))
  {
    forall i, j | i in Positions(kept, mark) && j in Partners(ms)(i)
      ensures j in Positions(kept, mark)
    {
      PartnersAreMutual(ms, i, j);
      assert kept[i] ==> KeepsPartners(ms, kept, i);
      assert kept[j] ==> KeepsPartners(ms, kept, j);
    }
  }

  lemma TiedStaysInside(ms: seq<Message>, s: set<nat>, i: nat, j: nat)
    requires Closed(Partners(ms), s) && i in s && Tied(ms, i, j)
    ensures j in s
  {
    var n: nat :| j in Ball(Partners(ms), {i}, n);
    NeverLeavesClosed(Partners(ms), {i}, s, j, n);
  }

  /** Everything but the messages tied to `c`. */
  ghost function Without(ms: seq<Message>, c: nat): seq<bool> {
    seq(|ms|, i requires 0 <= i < |ms| => !Tied(ms, c, i))
  }

  lemma TiedStep(ms: seq<Message>, c: nat, i: nat, j: nat)
    requires Tied(ms, c, i) && j in Partners(ms)(i)
    ensures Tied(ms, c, j)
  {
    var n: nat :| i in Ball(Partners(ms), {c}, n);
    StepFrom(Partners(ms), {c}, i, j, n);
  }

  lemma TiedToItself(ms: seq<Message>, c: nat)
    ensures Tied(ms, c, c)
  {
    assert c in Ball(Partners(ms), {c}, 0);
  }

  lemma WithoutIsClosed(ms: seq<Message>, c: nat)
    requires WellFormed(ms)
    ensures PairClosed(ms, Without(ms, c)) == true
  {
    var kept := Without(ms, c);
    forall i | 0 <= i < |ms| && kept[i]
      ensures KeepsPartners(ms, kept, i) == true
    {
      forall j | j in PartnersOf(ms, i)
        ensures j < |kept| && kept[j]
      {
        PartnersAreMutual(ms, i, j);
        if Tied(ms, c, j) {
          TiedStep(ms, c, j, i);
        }
      }
    }
  }

  // ----- calls that are open

  /** A call is open between the message that makes it and the one that answers it, and only there. */
  lemma OpenInside(ms: seq<Message>, a: nat, g: nat, b: nat, id: CallId)
    requires WellFormed(ms) && Call(ms, a, b, id) && a < g <= b
    ensures OpenAt(ms, g, id)
  {
    RunPrefix(ms, g);
    UnansweredBetween(ms, a, g, b, id);
    UnansweredIsOpen(ms, g, id);
  }

  lemma CallAround(ms: seq<Message>, g: nat, id: CallId) returns (a: nat, b: nat)
    requires WellFormed(ms) && g <= |ms| && OpenAt(ms, g, id)
    ensures a < g <= b && Call(ms, a, b, id)
  {
    OpenMeaning(ms, g);
    AcceptsIffWellPaired(ms);
    assert Unanswered(ms, g, id);
    a :| 0 <= a < g && Makes(ms[a], id);
    assert IsAnswered(ms, a, id);
    b :| AnsweredBy(ms, a, b, id);
  }

  /** With tied rounds, no closed set leaves a kept call open at the end of its first gap. */
  lemma TiedRoundsAreSafe(ms: seq<Message>, kept: seq<bool>)
    requires WellFormed(ms) && RoundsTied(ms) && PairClosed(ms, kept) == true
    ensures !KeptCallOpen(ms, kept, GapEnd(kept))
  {
    forall id | OpenAt(ms, GapEnd(kept), id)
      ensures id !in LiveIds(ms, kept)
    {
      var a, b := CallAround(ms, GapEnd(kept), id);
      CallGoesWithGap(ms, kept, a, b, id);
      if id in LiveIds(ms, kept) {
        CallIsKept(ms, kept, a, b, id);
      }
    }
  }

  lemma CallIsKept(ms: seq<Message>, kept: seq<bool>, a: nat, b: nat, id: CallId)
    requires UniqueIds(ms) && PairClosed(ms, kept) == true && Call(ms, a, b, id) && id in LiveIds(ms, kept)
    ensures kept[a] && kept[b]
  {
    ClosedRespectsCalls(ms, kept);
    assert id in Carries(ms[a]) && id in Carries(ms[b]);
  }

  /** A call around the end of the gap has one of its messages in the gap, or around a message of it
      that takes the call along. */
  lemma CallGoesWithGap(ms: seq<Message>, kept: seq<bool>, a: nat, b: nat, id: CallId)
    requires WellFormed(ms) && RoundsTied(ms) && PairClosed(ms, kept) == true
    requires Call(ms, a, b, id) && a < GapEnd(kept) <= b
    ensures !kept[a] || !kept[b]
  {
    var d := GapStart(kept);
    if kept[a] && kept[b] {
      assert Tied(ms, d, a);
      BothSidesClosed(ms, kept, false);
      TiedStaysInside(ms, Positions(kept, false), d, a);
    }
  }

  // ----- a message that is not tied to a call around it

  lemma {:induction false} CrossingStep(p: seq<nat>, a: nat) returns (k: nat)
    requires |p| > 0 && p[0] > a > p[|p| - 1] && a !in p
    ensures k + 1 < |p| && p[k] > a > p[k + 1]
  {
    var last := |p| - 1;
    if p[last - 1] > a {
      k := last - 1;
    } else {
      assert p[last - 1] in p;
      k := CrossingStep(p[..last], a);
    }
  }

  lemma PathIsTied(ms: seq<Message>, c: nat, path: seq<nat>, k: nat)
    requires IsPath(Partners(ms), path) && path[0] == c && k < |path|
    ensures Tied(ms, c, path[k])
  {
    PathStaysInBall(Partners(ms), {c}, path[..k + 1]);
  }

  /** Two messages on either side of `a` that are tied while `a` is not are tied across a call around `a`. */
  lemma CallAcross(ms: seq<Message>, c: nat, d: nat, a: nat) returns (p: nat, q: nat, id: CallId)
    requires WellFormed(ms) && d < a < c < |ms| && Tied(ms, c, d) && !Tied(ms, c, a)
    ensures p < a < q && Call(ms, p, q, id) && Tied(ms, c, p)
  {
    var n: nat :| d in Ball(Partners(ms), {c}, n);
    PathTo(Partners(ms), {c}, d, n);
    var path: seq<nat> :| IsPath(Partners(ms), path) && path[0] in {c} && path[|path| - 1] == d && |path| <= n + 1;
    forall k | 0 <= k < |path|
      ensures Tied(ms, c, path[k])
    {
      PathIsTied(ms, c, path, k);
    }
    var k := CrossingStep(path, a);
    assert path[k + 1] in Partners(ms)(path[k]);
    q, p := path[k], path[k + 1];
    id := PartnersShareCall(ms, q, p);
  }

  /** Leaving out what an untied message is tied to lets the note land inside a call. */
  lemma UntiedIsUnsafe(ms: seq<Message>, a: nat, b: nat, c: nat, id: CallId) returns (hole: nat)
    requires WellFormed(ms) && Call(ms, a, b, id) && a < c < b && !Tied(ms, c, a)
    ensures InsideCall(ms, hole)
    ensures PairClosed(ms, Without(ms, hole)) == true
    ensures KeptCallOpen(ms, Without(ms, hole), GapEnd(Without(ms, hole)))
    decreases a
  {
    if TiedBefore(ms, c, a) {
      var p, q, other := CallAcrossTied(ms, c, a);
      hole := UntiedIsUnsafe(ms, p, q, a, other);
    } else {
      hole := c;
      WithoutIsClosed(ms, c);
      WithoutIsUnsafe(ms, a, b, c, id);
    }
  }

  /** Message `c` is between a call and its answer. */
  ghost predicate InsideCall(ms: seq<Message>, c: nat) {
    exists a: nat, b: nat, id :: Call(ms, a, b, id) && a < c < b
  }

  ghost predicate TiedBefore(ms: seq<Message>, c: nat, a: nat) {
    exists d: nat :: d < a && Tied(ms, c, d)
  }

  lemma CallAcrossTied(ms: seq<Message>, c: nat, a: nat) returns (p: nat, q: nat, id: CallId)
    requires WellFormed(ms) && a < c < |ms| && TiedBefore(ms, c, a) && !Tied(ms, c, a)
    ensures p < a < q && Call(ms, p, q, id) && !Tied(ms, a, p)
  {
    var d: nat :| d < a && Tied(ms, c, d);
    p, q, id := CallAcross(ms, c, d, a);
    UntiedToo(ms, c, p, a);
  }

  lemma WithoutIsUnsafe(ms: seq<Message>, a: nat, b: nat, c: nat, id: CallId)
    requires WellFormed(ms) && Call(ms, a, b, id) && a < c < b && !Tied(ms, c, a) && !TiedBefore(ms, c, a)
    ensures KeptCallOpen(ms, Without(ms, c), GapEnd(Without(ms, c)))
  {
    var kept := Without(ms, c);
    TiedToItself(ms, c);
    AnswerUntied(ms, a, b, c, id);
    assert forall i: nat :: i < a ==> !Tied(ms, c, i);
    NoteInside(ms, kept, a, b, c, id);
  }

  lemma UntiedToo(ms: seq<Message>, c: nat, p: nat, a: nat)
    requires WellFormed(ms) && a < |ms| && p < |ms| && Tied(ms, c, p) && !Tied(ms, c, a)
    ensures !Tied(ms, a, p)
  {
    WithoutIsClosed(ms, c);
    BothSidesClosed(ms, Without(ms, c), true);
    if Tied(ms, a, p) {
      TiedStaysInside(ms, Positions(Without(ms, c), true), a, p);
    }
  }

  lemma AnswerUntied(ms: seq<Message>, a: nat, b: nat, c: nat, id: CallId)
    requires WellFormed(ms) && Call(ms, a, b, id) && !Tied(ms, c, a)
    ensures !Tied(ms, c, b)
  {
    CallsPartner(ms, a, b, id);
    if Tied(ms, c, b) {
      TiedStep(ms, c, b, a);
    }
  }

  lemma NoteInside(ms: seq<Message>, kept: seq<bool>, a: nat, b: nat, c: nat, id: CallId)
    requires WellFormed(ms) && Call(ms, a, b, id) && a < c < b && |kept| == |ms|
    requires (forall i :: 0 <= i <= a ==> kept[i]) && !kept[c] && kept[b]
    ensures KeptCallOpen(ms, kept, GapEnd(kept))
  {
    var g := GapEnd(kept);
    assert a < GapStart(kept) <= c && GapStart(kept) <= g <= b;
    OpenInside(ms, a, g, b, id);
    assert id in Carries(ms[a]);
    assert OpenAt(ms, g, id) && id in LiveIds(ms, kept);
  }

  /** Compaction gives a valid transcript for every closed kept set exactly when every message between a
      call and its answer is tied to the call. */
  lemma AlwaysValidIff(ms: seq<Message>, note: Message)
    requires WellFormed(ms) && note.role in {System, User}
    ensures (forall kept :: PairClosed(ms, kept) ==> Accepts(WithNote(ms, kept, note))) <==> RoundsTied(ms)
  {
    if RoundsTied(ms) {
      forall kept | PairClosed(ms, kept)
        ensures Accepts(WithNote(ms, kept, note))
      {
        TiedRoundsAreSafe(ms, kept);
        NoteIsValidIff(ms, kept, note);
      }
    } else {
      var a: nat, b: nat, c: nat, id :| Call(ms, a, b, id) && a < c < b && !Tied(ms, c, a);
      var hole := UntiedIsUnsafe(ms, a, b, c, id);
      NoteIsValidIff(ms, Without(ms, hole), note);
    }
  }

  // ----- what a caller can ask for

  ghost predicate DistinctMessages(ms: seq<Message>) {
    forall i, j :: 0 <= i < j < |ms| ==> ms[i].id != ms[j].id
  }

  lemma TiedBack(ms: seq<Message>, c: nat, i: nat)
    requires WellFormed(ms) && c < |ms| && i < |ms| && Tied(ms, c, i)
    ensures Tied(ms, i, c)
  {
    WithoutIsClosed(ms, i);
    BothSidesClosed(ms, Without(ms, i), true);
    TiedToItself(ms, i);
    if !Tied(ms, i, c) {
      TiedStaysInside(ms, Positions(Without(ms, i), true), c, i);
    }
  }

  /** A message inside a call is no summary, and no summary is tied to it. */
  lemma SummaryIsUntied(ms: seq<Message>, c: nat, i: nat)
    requires WellFormed(ms) && InsideCall(ms, c) && i < |ms| && IsSummary(ms[i])
    ensures !Tied(ms, c, i)
  {
    RoleInsideCall(ms, c);
    if Tied(ms, c, i) {
      TiedBack(ms, c, i);
      SummaryIsAlone(ms, i);
      TiedStaysInside(ms, {i}, i, c);
    }
  }

  lemma RoleInsideCall(ms: seq<Message>, c: nat)
    requires WellFormed(ms) && InsideCall(ms, c)
    ensures c < |ms| && ms[c].role in {Assistant, Tool}
  {
    var a: nat, b: nat, id :| Call(ms, a, b, id) && a < c < b;
    OpenBetween(ms, a, c, b, id);
  }

  lemma SummaryIsAlone(ms: seq<Message>, i: nat)
    requires RolesFit(ms) && i < |ms| && IsSummary(ms[i])
    ensures Closed(Partners(ms), {i})
  {
    assert ms[i] in ms;
    assert PartnersOf(ms, i) == [];
  }

  /** The retention that pins what is to be kept. */
  ghost function Pinning(ms: seq<Message>, kept: seq<bool>): Retention
    requires |kept| == |ms|
  {
    Retention(set i | 0 <= i < |ms| && kept[i] :: ms[i].id, false)
  }

  /** A closed set that drops no summary is what pinning its messages keeps. */
  lemma PinnedIsKept(ms: seq<Message>, kept: seq<bool>)
    requires DistinctMessages(ms) && PairClosed(ms, kept)
    requires forall i :: 0 <= i < |ms| && IsSummary(ms[i]) ==> kept[i]
    ensures LeastClosed(ms, InitiallyKept(ms, 0, Pinning(ms, kept)), kept) == true
  {
    var seed := InitiallyKept(ms, 0, Pinning(ms, kept));
    forall i | 0 <= i < |ms|
      ensures seed[i] == kept[i]
    {
      if ms[i].id in Pinning(ms, kept).pinned {
        var j :| 0 <= j < |ms| && kept[j] && ms[j].id == ms[i].id;
        assert j == i;
      }
    }
    assert seed == kept;
  }

  lemma HoleKeepsSummaries(ms: seq<Message>, hole: nat)
    requires WellFormed(ms) && InsideCall(ms, hole)
    ensures forall i :: 0 <= i < |ms| && IsSummary(ms[i]) ==> Without(ms, hole)[i]
    ensures Dropped(Without(ms, hole)) > 0
  {
    forall i | 0 <= i < |ms| && IsSummary(ms[i])
      ensures Without(ms, hole)[i]
    {
      SummaryIsUntied(ms, hole, i);
    }
    RoleInsideCall(ms, hole);
    HoleDrops(ms, hole);
  }

  lemma HoleDrops(ms: seq<Message>, hole: nat)
    requires hole < |ms|
    ensures Dropped(Without(ms, hole)) > 0
  {
    TiedToItself(ms, hole);
    assert !Without(ms, hole)[hole];
    SomethingDropped(Without(ms, hole), hole);
  }

  lemma SomethingDropped(kept: seq<bool>, i: nat)
    requires i < |kept| && !kept[i]
    ensures Dropped(kept) > 0
  {
    NothingDropped(kept);
  }

  lemma UntiedRoundBreaks(ms: seq<Message>, note: nat -> Message) returns (retention: Retention, out: seq<Message>)
    requires WellFormed(ms) && DistinctMessages(ms) && !RoundsTied(ms)
    requires forall n :: note(n).role in {System, User}
    ensures CompactsTo(ms, 0, retention, note, out) == true
    ensures !Accepts(out)
  {
    var a: nat, b: nat, c: nat, id :| Call(ms, a, b, id) && a < c < b && !Tied(ms, c, a);
    var hole := UntiedIsUnsafe(ms, a, b, c, id);
    var kept := Without(ms, hole);
    HoleKeepsSummaries(ms, hole);
    PinnedIsKept(ms, kept);
    retention, out := Pinning(ms, kept), WithNote(ms, kept, note(Dropped(kept)));
    NoteIsValidIff(ms, kept, note(Dropped(kept)));
    PinnedCompacts(ms, retention, kept, note, out);
  }

  lemma PinnedCompacts(ms: seq<Message>, retention: Retention, kept: seq<bool>, note: nat -> Message, out: seq<Message>)
    requires ms != [] && LeastClosed(ms, InitiallyKept(ms, 0, retention), kept) == true && Compacted(ms, kept, note, out)
    ensures CompactsTo(ms, 0, retention, note, out) == true
  {
  }

  /** Whatever a caller asks to keep, compaction gives a valid transcript, note included, exactly when
      every message between a call and its answer is tied to the call. */
  lemma CompactionIsSafeIff(ms: seq<Message>, note: nat -> Message)
    requires WellFormed(ms) && DistinctMessages(ms) && forall n :: note(n).role in {System, User}
    ensures (forall keep, retention, out | CompactsTo(ms, keep, retention, note, out) :: Accepts(out)) <==> RoundsTied(ms)
  {
    if RoundsTied(ms) {
      forall keep: nat, retention, out | CompactsTo(ms, keep, retention, note, out)
        ensures Accepts(out)
      {
        TiedRoundsCompact(ms, keep, retention, note, out);
      }
    } else {
      var retention, out := UntiedRoundBreaks(ms, note);
      assert CompactsTo(ms, 0, retention, note, out);
    }
  }

  lemma TiedRoundsCompact(ms: seq<Message>, keep: nat, retention: Retention, note: nat -> Message, out: seq<Message>)
    requires WellFormed(ms) && RoundsTied(ms) && CompactsTo(ms, keep, retention, note, out)
    requires forall n :: note(n).role in {System, User}
    ensures Accepts(out)
  {
    if |ms| > keep {
      var kept :| LeastClosed(ms, InitiallyKept(ms, keep, retention), kept) && Compacted(ms, kept, note, out);
      TiedRoundsAreSafe(ms, kept);
      NoteIsValidIff(ms, kept, note(Dropped(kept)));
    }
  }
}
