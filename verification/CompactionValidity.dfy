/** Dropping messages keeps a transcript valid for the validator of crates/agent-core/src/transcript.rs:
    always without the note, and with the note exactly when no kept call is open where it lands. */
module CompactionValidity {
  import opened Common
  import Sorting
  import opened Messages
  import opened Transcript
  import opened Compaction

  /** The call ids the validator looks at in a message. */
  function Carries(m: Message): seq<CallId> {
    match m.role
    case Assistant => UseIds(m)
    case Tool => ResultIds(m)
    case User => []
    case System => []
  }

  /** `open` restricted to the ids in `live`, in order. */
  function Only(open: seq<CallId>, live: set<CallId>): (r: seq<CallId>)
    ensures forall id :: id in r <==> id in open && id in live
  {
    if open == [] then []
    else Only(open[..|open| - 1], live) + if open[|open| - 1] in live then [open[|open| - 1]] else []
  }

  // ----- dropping whole calls commutes with the validator's steps

  lemma {:induction false} OnlyConcat(a: seq<CallId>, b: seq<CallId>, live: set<CallId>)
    ensures Only(a + b, live) == Only(a, live) + Only(b, live)
  {
    if b == [] {
      assert a + b == a;
    } else {
      OnlyConcat(a, b[..|b| - 1], live);
      assert (a + b)[..|a + b| - 1] == a + b[..|b| - 1] && (a + b)[|a + b| - 1] == b[|b| - 1];
      Sorting.Associative(Only(a, live), Only(b[..|b| - 1], live), if b[|b| - 1] in live then [b[|b| - 1]] else []);
    }
  }

  lemma {:induction false} OnlyAll(ids: seq<CallId>, live: set<CallId>)
    ensures (forall id <- ids :: id in live) ==> Only(ids, live) == ids
    ensures (forall id <- ids :: id !in live) ==> Only(ids, live) == []
  {
    if ids != [] {
      OnlyAll(ids[..|ids| - 1], live);
      assert ids == ids[..|ids| - 1] + [ids[|ids| - 1]];
    }
  }

  /** Removing splits the list around the first occurrence. */
  lemma {:induction false} RemoveSplits(open: seq<CallId>, id: CallId) returns (before: seq<CallId>, after: seq<CallId>)
    requires id in open
    ensures open == before + [id] + after && id !in before && Remove(open, id) == before + after
  {
    if open[0] == id {
      before, after := [], open[1..];
    } else {
      before, after := RemoveSplits(open[1..], id);
      before := [open[0]] + before;
    }
  }

  lemma {:induction false} RemoveAfter(before: seq<CallId>, id: CallId, after: seq<CallId>)
    requires id !in before
    ensures Remove(before + [id] + after, id) == before + after
  {
    var open := before + [id] + after;
    if before == [] {
      assert open[1..] == after;
    } else {
      RemoveAfter(before[1..], id, after);
      assert open[1..] == before[1..] + [id] + after;
    }
  }

  lemma OnlyRemove(open: seq<CallId>, id: CallId, live: set<CallId>)
    requires id in open
    ensures id !in live ==> Only(Remove(open, id), live) == Only(open, live)
    ensures id in live ==> Only(Remove(open, id), live) == Remove(Only(open, live), id)
  {
    var before, after := RemoveSplits(open, id);
    OnlyAround(before, id, after, live);
    if id in live {
      RemoveAfter(Only(before, live), id, Only(after, live));
    }
  }

  lemma OnlyAround(before: seq<CallId>, id: CallId, after: seq<CallId>, live: set<CallId>)
    ensures Only(before + after, live) == Only(before, live) + Only(after, live)
    ensures Only(before + [id] + after, live) == Only(before, live) + (if id in live then [id] else []) + Only(after, live)
  {
    OnlyConcat(before, after, live);
    OnlyConcat(before + [id], after, live);
    OnlyConcat(before, [id], live);
    OnlyAll([id], live);
  }

  lemma {:induction false} OnlyRemoveAll(open: seq<CallId>, ids: seq<CallId>, live: set<CallId>)
    requires RemoveAll(open, ids).Some?
    ensures (forall id <- ids :: id !in live) ==> Only(RemoveAll(open, ids).value, live) == Only(open, live)
    ensures (forall id <- ids :: id in live) ==> RemoveAll(Only(open, live), ids) == Some(Only(RemoveAll(open, ids).value, live))
  {
    if ids != [] {
      var init := ids[..|ids| - 1];
      OnlyRemoveAll(open, init, live);
      OnlyRemove(RemoveAll(open, init).value, ids[|ids| - 1], live);
      assert ids == init + [ids[|ids| - 1]];
    }
  }

  /** One message, kept or dropped as a whole. */
  lemma NextRestricted(open: seq<CallId>, m: Message, live: set<CallId>)
    requires Next(open, m).Some?
    ensures (forall id <- Carries(m) :: id in live) ==> Next(Only(open, live), m) == Some(Only(Next(open, m).value, live))
    ensures (forall id <- Carries(m) :: id !in live) ==> Only(Next(open, m).value, live) == Only(open, live)
  {
    match m.role
    case Assistant =>
      OnlyConcat(open, UseIds(m), live);
      OnlyAll(UseIds(m), live);
    case Tool =>
      OnlyRemoveAll(open, ResultIds(m), live);
    case User =>
    case System =>
  }

  /** Every message is kept exactly when the calls it carries are live. */
  ghost predicate Respects(ms: seq<Message>, kept: seq<bool>, live: set<CallId>)
    requires |kept| == |ms|
  {
    forall i, id | 0 <= i < |ms| && id in Carries(ms[i]) :: id in live <==> kept[i]
  }

  /** Running the kept messages leaves open exactly the live calls the whole transcript leaves open. */
  lemma {:induction false} RunRestricted(open: seq<CallId>, ms: seq<Message>, kept: seq<bool>, live: set<CallId>)
    requires |kept| == |ms| && Run(open, ms).Some? && Respects(ms, kept, live)
    ensures Run(Only(open, live), KeptOf(ms, kept)) == Some(Only(Run(open, ms).value, live))
  {
    if ms != [] {
      var n := |ms| - 1;
      RunRestricted(open, ms[..n], kept[..n], live);
      StepRestricted(Only(open, live), KeptOf(ms[..n], kept[..n]), Run(open, ms[..n]).value, ms[n], kept[n], live);
    }
  }

  lemma StepRestricted(start: seq<CallId>, before: seq<Message>, now: seq<CallId>, m: Message, keepIt: bool, live: set<CallId>)
    requires Run(start, before) == Some(Only(now, live)) && Next(now, m).Some?
    requires forall id <- Carries(m) :: id in live <==> keepIt
    ensures Run(start, before + if keepIt then [m] else []) == Some(Only(Next(now, m).value, live))
  {
    NextRestricted(now, m, live);
    if keepIt {
      RunPush(start, before, m);
    } else {
      assert before + [] == before;
    }
  }

  // ----- a pair-closed set respects the calls when ids are unique

  /** No call id is used by two messages, and none is answered by two. */
  ghost predicate UniqueIds(ms: seq<Message>) {
    && (forall i, j, id | 0 <= i < |ms| && 0 <= j < |ms| && id in UseIds(ms[i]) && id in UseIds(ms[j]) :: i == j)
    && (forall i, j, id | 0 <= i < |ms| && 0 <= j < |ms| && id in ResultIds(ms[i]) && id in ResultIds(ms[j]) :: i == j)
  }

  /** The calls that some kept message makes or answers. */
  ghost function LiveIds(ms: seq<Message>, kept: seq<bool>): set<CallId>
    requires |kept| == |ms|
  {
    set i, id | 0 <= i < |ms| && kept[i] && id in Carries(ms[i]) :: id
  }

  lemma OnlyOwner(rows: seq<seq<CallId>>, i: nat, id: CallId)
    requires i < |rows| && id in rows[i] && forall j | 0 <= j < |rows| && id in rows[j] :: j == i
    ensures id in LastOwner(rows) && LastOwner(rows)[id] == i
  {
    LastOwnerMeaning(rows);
  }

  /** The two halves of a call are partners. */
  lemma HalvesArePartners(ms: seq<Message>, i: nat, j: nat, id: CallId)
    requires i < |ms| && j < |ms| && id in UseIds(ms[i]) && id in ResultIds(ms[j]) && UniqueIds(ms)
    ensures i in PartnersOf(ms, j) && j in PartnersOf(ms, i)
  {
    assert i in OwnersOf(ResultIds(ms[j]), LastOwner(UseRows(ms))) by {
      OnlyOwner(UseRows(ms), i, id);
      OwnersOfMembers(ResultIds(ms[j]), LastOwner(UseRows(ms)));
    }
    assert j in OwnersOf(UseIds(ms[i]), LastOwner(ResultRows(ms))) by {
      OnlyOwner(ResultRows(ms), j, id);
      OwnersOfMembers(UseIds(ms[i]), LastOwner(ResultRows(ms)));
    }
  }

  lemma ClosedRespectsCalls(ms: seq<Message>, kept: seq<bool>)
    requires UniqueIds(ms) && PairClosed(ms, kept)
    ensures Respects(ms, kept, LiveIds(ms, kept))
  {
    forall i, id | 0 <= i < |ms| && id in Carries(ms[i]) && id in LiveIds(ms, kept)
      ensures kept[i]
    {
      var j :| 0 <= j < |ms| && kept[j] && id in Carries(ms[j]);
      if ms[i].role != ms[j].role {
        if ms[i].role == Assistant {
          HalvesArePartners(ms, i, j, id);
        } else {
          HalvesArePartners(ms, j, i, id);
        }
        assert KeepsPartners(ms, kept, j);
      }
    }
  }

  /** The kept messages of a valid transcript are a valid transcript: unique ids are enough. */
  lemma KeptIsValid(ms: seq<Message>, kept: seq<bool>)
    requires Accepts(ms) && UniqueIds(ms) && PairClosed(ms, kept)
    ensures Accepts(KeptOf(ms, kept))
  {
    ClosedRespectsCalls(ms, kept);
    RunRestricted([], ms, kept, LiveIds(ms, kept));
  }

  // ----- the note

  /** Some call that survives is made before position `g` and answered from there on. */
  ghost predicate KeptCallOpen(ms: seq<Message>, kept: seq<bool>, g: nat)
    requires |kept| == |ms| && g <= |ms|
  {
    exists id :: OpenAt(ms, g, id) && id in LiveIds(ms, kept)
  }

  /** With the note, the result is valid exactly when no surviving call is open at the end of the
      first gap, where the note lands. */
  lemma NoteIsValidIff(ms: seq<Message>, kept: seq<bool>, note: Message)
    requires Accepts(ms) && UniqueIds(ms) && PairClosed(ms, kept) && note.role in {System, User}
    ensures Accepts(WithNote(ms, kept, note)) <==> !KeptCallOpen(ms, kept, GapEnd(kept))
  {
    var g := GapEnd(kept);
    var open := KeptRuns(ms, kept, g);
    NoteBetween(KeptOf(ms[..g], kept[..g]), note, KeptOf(ms[g..], kept[g..]), open);
  }

  /** The kept messages around a point run through, with the surviving open calls at that point. */
  lemma KeptRuns(ms: seq<Message>, kept: seq<bool>, g: nat) returns (open: seq<CallId>)
    requires Accepts(ms) && UniqueIds(ms) && PairClosed(ms, kept) && g <= |ms|
    ensures Run([], KeptOf(ms[..g], kept[..g])) == Some(open)
    ensures Run(open, KeptOf(ms[g..], kept[g..])) == Some([])
    ensures open != [] <==> KeptCallOpen(ms, kept, g)
  {
    var live, before, after := LiveIds(ms, kept), ms[..g], ms[g..];
    ClosedRespectsCalls(ms, kept);
    assert ms == before + after;
    RunConcat([], before, after);
    var now := Run([], before).value;
    RunRestricted([], before, kept[..g], live);
    RunRestricted(now, after, kept[g..], live);
    open := Only(now, live);
    if open != [] {
      assert OpenAt(ms, g, open[0]);
    }
  }

  lemma NoteBetween(before: seq<Message>, note: Message, after: seq<Message>, open: seq<CallId>)
    requires note.role in {System, User}
    requires Run([], before) == Some(open) && Run(open, after) == Some([])
    ensures Accepts(before + [note] + after) <==> open == []
  {
    RunPush([], before, note);
    RunConcat([], before + [note], after);
  }

  /** While a call is open the next message is a tool message that answers one: rounds are complete
      and do not interleave. */
  ghost predicate CompleteRounds(ms: seq<Message>) {
    forall i :: 0 <= i < |ms| ==> RoundGoesOn(ms, i)
  }

  ghost predicate RoundGoesOn(ms: seq<Message>, i: nat)
    requires i < |ms|
  {
    Run([], ms[..i]).Some? && Run([], ms[..i]).value != [] ==> ms[i].role == Tool && ResultIds(ms[i]) != []
  }

  /** All calls open at one point were made by one message, and the last message before that point
      makes or answers a call of the same one. */
  lemma {:induction false} OpenCallsShareAMaker(ms: seq<Message>, n: nat) returns (maker: nat, link: CallId)
    requires n <= |ms| && Run([], ms[..n]).Some? && Run([], ms[..n]).value != [] && CompleteRounds(ms)
    ensures maker < n && ms[maker].role == Assistant
    ensures forall id <- Run([], ms[..n]).value :: id in UseIds(ms[maker])
    ensures link in Carries(ms[n - 1]) && link in UseIds(ms[maker])
  {
    var last := ms[n - 1];
    assert ms[..n] == ms[..n - 1] + [last];
    RunPush([], ms[..n - 1], last);
    var before := Run([], ms[..n - 1]).value;
    if before == [] {
      OpenedByLast(last);
      maker, link := n - 1, Next([], last).value[0];
    } else {
      assert RoundGoesOn(ms, n - 1);
      maker, link := OpenCallsShareAMaker(ms, n - 1);
      LeftByLast(before, last);
      link := ResultIds(last)[0];
    }
  }

  lemma OpenedByLast(last: Message)
    requires Next([], last).Some? && Next([], last).value != []
    ensures last.role == Assistant && Next([], last).value == UseIds(last) == Carries(last)
  {
    NothingToRemove(ResultIds(last));
    assert [] + UseIds(last) == UseIds(last);
  }

  lemma LeftByLast(before: seq<CallId>, last: Message)
    requires last.role == Tool && ResultIds(last) != [] && Next(before, last).Some?
    ensures forall id <- Next(before, last).value :: id in before
    ensures ResultIds(last)[0] in before && ResultIds(last)[0] in Carries(last)
  {
    RemoveAllShrinks(before, ResultIds(last));
  }

  lemma {:induction false} NothingToRemove(ids: seq<CallId>)
    ensures RemoveAll([], ids) == if ids == [] then Some([]) else None
  {
    if ids != [] {
      NothingToRemove(ids[..|ids| - 1]);
    }
  }

  lemma {:induction false} RemoveShrinks(open: seq<CallId>, id: CallId)
    requires id in open
    ensures forall x <- Remove(open, id) :: x in open
  {
    if open[0] != id {
      RemoveShrinks(open[1..], id);
    }
  }

  lemma {:induction false} RemoveAllShrinks(open: seq<CallId>, ids: seq<CallId>)
    requires RemoveAll(open, ids).Some?
    ensures forall x <- RemoveAll(open, ids).value :: x in open
    ensures forall x <- ids :: x in open
  {
    if ids != [] {
      var init := ids[..|ids| - 1];
      RemoveAllShrinks(open, init);
      RemoveShrinks(RemoveAll(open, init).value, ids[|ids| - 1]);
      assert ids == init + [ids[|ids| - 1]];
    }
  }

  /** A live call that is open at `g` comes from a round that the last message before `g` belongs to. */
  lemma RoundReachesOpenPoint(ms: seq<Message>, kept: seq<bool>, live: set<CallId>, g: nat, x: CallId)
    requires |kept| == |ms| && 0 < g <= |ms| && Respects(ms, kept, live) && CompleteRounds(ms)
    requires OpenAt(ms, g, x) && x in live
    ensures kept[g - 1]
  {
    var maker, link := OpenCallsShareAMaker(ms, g);
    assert x in Carries(ms[maker]) && link in Carries(ms[maker]);
    assert kept[maker] && link in live;
  }

  /** With complete, non-interleaved rounds no surviving call is ever open at the end of a gap. */
  lemma RoundsAreKeptWhole(ms: seq<Message>, kept: seq<bool>)
    requires UniqueIds(ms) && PairClosed(ms, kept) && CompleteRounds(ms)
    requires GapStart(kept) < |ms|
    ensures !KeptCallOpen(ms, kept, GapEnd(kept))
  {
    var g := GapEnd(kept);
    ClosedRespectsCalls(ms, kept);
    forall x | OpenAt(ms, g, x) && x in LiveIds(ms, kept)
      ensures kept[g - 1]
    {
      RoundReachesOpenPoint(ms, kept, LiveIds(ms, kept), g, x);
    }
  }

  /** Compaction keeps a valid transcript valid, note included, whatever is kept or protected. */
  lemma DropPreservesValidity(ms: seq<Message>, kept: seq<bool>, note: Message)
    requires Accepts(ms) && UniqueIds(ms) && CompleteRounds(ms) && note.role in {System, User}
    requires PairClosed(ms, kept) && Dropped(kept) > 0
    ensures Accepts(WithNote(ms, kept, note))
  {
    NothingDropped(kept);
    RoundsAreKeptWhole(ms, kept);
    NoteIsValidIff(ms, kept, note);
  }

  // ----- interleaved rounds

  /** Call x, call y, answer y, answer x. */
  ghost predicate Interleaved(ms: seq<Message>, x: CallId, y: CallId) {
    && x != y && |ms| == 4
    && ms[0].role == Assistant && UseIds(ms[0]) == [x] && ResultIds(ms[0]) == []
    && ms[1].role == Assistant && UseIds(ms[1]) == [y] && ResultIds(ms[1]) == []
    && ms[2].role == Tool && UseIds(ms[2]) == [] && ResultIds(ms[2]) == [y]
    && ms[3].role == Tool && UseIds(ms[3]) == [] && ResultIds(ms[3]) == [x]
  }

  lemma InterleavedRuns(ms: seq<Message>, x: CallId, y: CallId)
    requires Interleaved(ms, x, y)
    ensures Run([], ms[..3]) == Some([x]) && Accepts(ms)
  {
    InterleavedCalls(ms, x, y);
    RemoveOne([x, y], y);
    assert Remove([x, y], y) == [x];
    RunStep(ms, 2, [x, y], [x]);
    RemoveOne([x], x);
    assert Remove([x], x) == [];
    RunStep(ms, 3, [x], []);
    assert ms[..4] == ms;
  }

  lemma InterleavedCalls(ms: seq<Message>, x: CallId, y: CallId)
    requires Interleaved(ms, x, y)
    ensures Run([], ms[..2]) == Some([x, y])
  {
    assert [] + [x] == [x] && [x] + [y] == [x, y];
    RunStep(ms, 0, [], [x]);
    RunStep(ms, 1, [x], [x, y]);
  }

  lemma RunStep(ms: seq<Message>, n: nat, open: seq<CallId>, next: seq<CallId>)
    requires n < |ms| && Run([], ms[..n]) == Some(open) && Next(open, ms[n]) == Some(next)
    ensures Run([], ms[..n + 1]) == Some(next)
  {
    RunPush([], ms[..n], ms[n]);
    assert ms[..n + 1] == ms[..n] + [ms[n]];
  }

  lemma RemoveOne(open: seq<CallId>, id: CallId)
    requires id in open
    ensures RemoveAll(open, [id]) == Some(Remove(open, id))
  {
    assert [id][..0] == [];
  }

  /** Keeping the last message of an interleaved transcript keeps the first one with it and drops
      the two between. The note then lands inside the surviving round and the result is refused:
      with the note, validity does need rounds that do not interleave. */
  lemma InterleavedRoundsBreak(ms: seq<Message>, x: CallId, y: CallId, kept: seq<bool>, note: Message)
    requires Interleaved(ms, x, y) && note.role == System
    requires LeastClosed(ms, InitiallyKept(ms, 1, Retention({}, false)), kept)
    ensures Accepts(ms) && UniqueIds(ms) && !Accepts(WithNote(ms, kept, note))
  {
    InterleavedRuns(ms, x, y);
    InterleavedIsUnique(ms, x, y);
    InterleavedPartners(ms, x, y);
    InterleavedKept(ms, kept);
    InterleavedCallOpen(ms, x, y, kept);
    NoteIsValidIff(ms, kept, note);
  }

  lemma InterleavedIsUnique(ms: seq<Message>, x: CallId, y: CallId)
    requires Interleaved(ms, x, y)
    ensures UniqueIds(ms)
  {
    forall i, id | 0 <= i < |ms|
      ensures id in UseIds(ms[i]) ==> i == if id == x then 0 else 1
      ensures id in ResultIds(ms[i]) ==> i == if id == x then 3 else 2
    {
      assert i == 0 || i == 1 || i == 2 || i == 3;
    }
  }

  lemma InterleavedCallOpen(ms: seq<Message>, x: CallId, y: CallId, kept: seq<bool>)
    requires Interleaved(ms, x, y) && kept == [true, false, false, true] && Run([], ms[..3]) == Some([x])
    ensures KeptCallOpen(ms, kept, GapEnd(kept))
  {
    assert kept[1] == false && GapStart(kept) == 1;
    assert kept[2] == false && kept[3] == true && GapEnd(kept) == 3;
    assert x in Carries(ms[3]) && x in LiveIds(ms, kept);
    assert OpenAt(ms, 3, x);
  }

  lemma InterleavedKept(ms: seq<Message>, kept: seq<bool>)
    requires |ms| == 4 && (forall m <- ms :: m.role != System)
    requires PartnersOf(ms, 0) == [3] && PartnersOf(ms, 3) == [0]
    requires LeastClosed(ms, InitiallyKept(ms, 1, Retention({}, false)), kept) == true
    ensures kept == [true, false, false, true]
  {
    LastOnly(ms);
    LastAndPartner(ms, InitiallyKept(ms, 1, Retention({}, false)), kept, [true, false, false, true]);
  }

  lemma LastOnly(ms: seq<Message>)
    requires |ms| == 4 && forall m <- ms :: m.role != System
    ensures
      var seed := InitiallyKept(ms, 1, Retention({}, false));
      |seed| == 4 && !seed[0] && !seed[1] && !seed[2] && seed[3]
  {
    assert forall i :: 0 <= i < 3 ==> ms[i] in ms && !IsProtected(Retention({}, false), ms, i);
  }

  /** Of four messages whose first and last belong together, the last brings the first with it. */
  lemma LastAndPartner(ms: seq<Message>, seed: seq<bool>, kept: seq<bool>, only: seq<bool>)
    requires |ms| == |seed| == |only| == 4 && seed[3] && Includes(only, seed)
    requires only[0] && !only[1] && !only[2] && only[3]
    requires PartnersOf(ms, 0) == [3] && PartnersOf(ms, 3) == [0]
    requires LeastClosed(ms, seed, kept) == true
    ensures kept == only
  {
    LastBringsFirst(ms, seed, kept);
    OuterPairClosed(ms, only);
    NoMoreThan(ms, seed, kept, only);
  }

  lemma LastBringsFirst(ms: seq<Message>, seed: seq<bool>, kept: seq<bool>)
    requires |ms| == |seed| == 4 && PartnersOf(ms, 3) == [0] && seed[3]
    requires LeastClosed(ms, seed, kept) == true
    ensures |kept| == 4 && kept[0] && kept[3]
  {
    assert KeepsPartners(ms, kept, 3);
    assert 0 in PartnersOf(ms, 3);
  }

  lemma NoMoreThan(ms: seq<Message>, seed: seq<bool>, kept: seq<bool>, other: seq<bool>)
    requires LeastClosed(ms, seed, kept) && PairClosed(ms, other) && Includes(other, seed)
    ensures Includes(other, kept)
  {
  }

  lemma OuterPairClosed(ms: seq<Message>, only: seq<bool>)
    requires |ms| == |only| == 4 && only[0] && !only[1] && !only[2] && only[3]
    requires PartnersOf(ms, 0) == [3] && PartnersOf(ms, 3) == [0]
    ensures PairClosed(ms, only) == true
  {
    assert AllKept([3], only) && AllKept([0], only);
    assert KeepsPartners(ms, only, 0) && KeepsPartners(ms, only, 3);
    OnlyOuterKept(ms, only);
  }

  lemma OnlyOuterKept(ms: seq<Message>, only: seq<bool>)
    requires |ms| == |only| == 4 && only[0] && !only[1] && !only[2] && only[3]
    requires KeepsPartners(ms, only, 0) && KeepsPartners(ms, only, 3)
    ensures PairClosed(ms, only) == true
  {
    forall i | 0 <= i < |ms| && only[i]
      ensures KeepsPartners(ms, only, i) == true
    {
      assert i == 0 || i == 3;
    }
  }

  lemma InterleavedPartners(ms: seq<Message>, x: CallId, y: CallId)
    requires Interleaved(ms, x, y)
    ensures PartnersOf(ms, 0) == [3] && PartnersOf(ms, 3) == [0]
  {
    OnlyOwner(UseRows(ms), 0, x);
    OnlyOwner(ResultRows(ms), 3, x);
    OwnerOfOne(x, LastOwner(UseRows(ms)));
    OwnerOfOne(x, LastOwner(ResultRows(ms)));
  }

  lemma OwnerOfOne(id: CallId, owner: map<CallId, nat>)
    requires id in owner
    ensures OwnersOf([id], owner) == [owner[id]]
  {
    assert [id][..0] == [];
  }
}
