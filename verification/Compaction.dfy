/** Dropping old messages at tool-pair-safe points (crates/context/src/compaction.rs). */
module Compaction {
  import opened Common
  import opened Text
  import opened Messages
  import opened Transcript

  const SUMMARY_MARKER: string := "[summary of earlier conversation"

  /** Messages that survive compaction regardless of age. */
  datatype Retention = Retention(pinned: set<MessageId>, anchorFirstUser: bool)

  predicate IsSummary(m: Message) {
    m.role == System && m.content != [] && m.content[0].Text? && StartsWith(m.content[0].text, SUMMARY_MARKER)
  }

  predicate IsProtected(retention: Retention, ms: seq<Message>, index: nat)
    requires index < |ms|
  {
    || ms[index].id in retention.pinned
    || IsSummary(ms[index])
    || (retention.anchorFirstUser && ms[index].role == User && forall i :: 0 <= i < index ==> ms[i].role != User)
  }

  // ----- the kept set

  /** The seed of the kept set, marking each position in the tail or protected. */
  function InitiallyKept(ms: seq<Message>, keep: nat, retention: Retention): seq<bool> {
    seq(|ms|, i requires 0 <= i < |ms| => i >= |ms| - keep || IsProtected(retention, ms, i))
  }

  /** The owners of some ids, in order. */
  function OwnersOf(ids: seq<CallId>, owner: map<CallId, nat>): seq<nat> {
    if ids == [] then []
    else
      OwnersOf(ids[..|ids| - 1], owner)
      + var id := ids[|ids| - 1]; if id in owner then [owner[id]] else []
  }

  lemma {:induction false} OwnersOfMembers(ids: seq<CallId>, owner: map<CallId, nat>)
    ensures forall j :: j in OwnersOf(ids, owner) <==> exists id <- ids :: id in owner && owner[id] == j
  {
    if ids != [] {
      OwnersOfMembers(ids[..|ids| - 1], owner);
      assert ids == ids[..|ids| - 1] + [ids[|ids| - 1]];
    }
  }

  /** The messages holding the other half of a call that message `i` makes or answers: of the calls
      it answers the last message that makes them, of those it makes the last that answers them. */
  function PartnersOf(ms: seq<Message>, i: nat): seq<nat>
    requires i < |ms|
  {
    OwnersOf(ResultIds(ms[i]), LastOwner(UseRows(ms))) + OwnersOf(UseIds(ms[i]), LastOwner(ResultRows(ms)))
  }

  lemma PartnersInRange(ms: seq<Message>, i: nat)
    requires i < |ms|
    ensures forall n :: 0 <= n < |PartnersOf(ms, i)| ==> PartnersOf(ms, i)[n] < |ms|
  {
    OwnersOfMembers(ResultIds(ms[i]), LastOwner(UseRows(ms)));
    OwnersOfMembers(UseIds(ms[i]), LastOwner(ResultRows(ms)));
    LastOwnerMeaning(UseRows(ms));
    LastOwnerMeaning(ResultRows(ms));
    assert forall n :: 0 <= n < |PartnersOf(ms, i)| ==> PartnersOf(ms, i)[n] in PartnersOf(ms, i);
  }

  ghost predicate PairClosed(ms: seq<Message>, kept: seq<bool>) {
    && |kept| == |ms|
    && ClosedUpTo(ms, kept, |ms|)
  }

  ghost predicate Includes(kept: seq<bool>, other: seq<bool>) {
    |kept| == |other| && forall i :: 0 <= i < |kept| && other[i] ==> kept[i]
  }

  /** The least pair-closed set that includes the seed. */
  ghost predicate LeastClosed(ms: seq<Message>, seed: seq<bool>, kept: seq<bool>) {
    && PairClosed(ms, kept) && Includes(kept, seed)
    && forall other: seq<bool> :: PairClosed(ms, other) && Includes(other, seed) ==> Includes(other, kept)
  }

  /** How many messages are not kept. */
  function Dropped(kept: seq<bool>): nat {
    if kept == [] then 0 else Dropped(kept[..|kept| - 1]) + if kept[|kept| - 1] then 0 else 1
  }

  lemma {:induction false} KeepingOneMore(kept: seq<bool>, i: nat)
    requires i < |kept| && !kept[i]
    ensures Dropped(kept[i := true]) < Dropped(kept)
  {
    var n := |kept| - 1;
    if i == n {
      assert kept[i := true][..n] == kept[..n];
    } else {
      KeepingOneMore(kept[..n], i);
      assert kept[i := true][..n] == kept[..n][i := true];
    }
  }

  /** Every closed set that includes the seed includes what has been kept so far. */
  ghost predicate Forced(ms: seq<Message>, seed: seq<bool>, kept: seq<bool>) {
    && Includes(kept, seed)
    && forall other: seq<bool> :: PairClosed(ms, other) && Includes(other, seed) ==> Includes(other, kept)
  }

  lemma KeepingAPartner(ms: seq<Message>, seed: seq<bool>, kept: seq<bool>, i: nat, j: nat)
    requires |kept| == |ms| && i < |ms| && j < |ms| && kept[i] && j in PartnersOf(ms, i)
    requires Forced(ms, seed, kept)
    ensures Forced(ms, seed, kept[j := true])
  {
    forall other: seq<bool> | PairClosed(ms, other) && Includes(other, seed)
      ensures Includes(other, kept[j := true])
    {
      assert Includes(other, kept) && KeepsPartners(ms, other, i);
    }
  }

  ghost predicate KeepsPartners(ms: seq<Message>, kept: seq<bool>, i: nat)
    requires i < |ms| == |kept|
  {
    AllKept(PartnersOf(ms, i), kept)
  }

  ghost predicate AllKept(positions: seq<nat>, kept: seq<bool>) {
    forall j <- positions :: j < |kept| && kept[j]
  }

  /** The messages up to `n` that are kept have all their partners kept. */
  ghost predicate ClosedUpTo(ms: seq<Message>, kept: seq<bool>, n: nat)
    requires n <= |ms| == |kept|
  {
    forall i | 0 <= i < n && kept[i] :: KeepsPartners(ms, kept, i)
  }

  /** Sweeps until nothing changes. The array then marks the least pair-closed set above the one it
      marked at first. */
  method CloseOverToolPairs(ms: seq<Message>, kept: array<bool>)
    requires kept.Length == |ms|
    modifies kept
    ensures LeastClosed(ms, old(kept[..]), kept[..])
  {
    ghost var seed := kept[..];
    var ownerOfUse, ownerOfResult := LastOwner(UseRows(ms)), LastOwner(ResultRows(ms));
    var changed := true;
    while changed
      invariant Forced(ms, seed, kept[..])
      invariant !changed ==> PairClosed(ms, kept[..])
      decreases Dropped(kept[..]), if changed then 1 else 0
    {
      changed := SweepPartners(ms, kept, ownerOfUse, ownerOfResult, seed);
    }
  }

  /** One pass over the messages; true when the kept set grew. */
  method SweepPartners(ms: seq<Message>, kept: array<bool>, ownerOfUse: map<CallId, nat>, ownerOfResult: map<CallId, nat>, ghost seed: seq<bool>)
    returns (changed: bool)
    requires kept.Length == |ms|
    requires ownerOfUse == LastOwner(UseRows(ms)) && ownerOfResult == LastOwner(ResultRows(ms))
    requires Forced(ms, seed, kept[..])
    modifies kept
    ensures Forced(ms, seed, kept[..]) == true
    ensures if changed then Dropped(kept[..]) < Dropped(old(kept[..])) else kept[..] == old(kept[..]) && PairClosed(ms, kept[..])
  {
    changed := false;
    for index := 0 to |ms|
      invariant Forced(ms, seed, kept[..]) == true
      invariant if changed then Dropped(kept[..]) < Dropped(old(kept[..])) else kept[..] == old(kept[..]) && ClosedUpTo(ms, kept[..], index) == true
    {
      if kept[index] {
        var added := KeepPartners(ms, kept, index, ownerOfUse, ownerOfResult, seed);
        ClosedOneMore(ms, kept[..], index);
        changed := changed || added;
      }
    }
  }

  lemma ClosedOneMore(ms: seq<Message>, kept: seq<bool>, n: nat)
    requires n < |ms| == |kept| && KeepsPartners(ms, kept, n)
    ensures ClosedUpTo(ms, kept, n) ==> ClosedUpTo(ms, kept, n + 1)
  {
  }

  /** Keeps the partners of one kept message; true when some of them were not kept before. */
  method KeepPartners(ms: seq<Message>, kept: array<bool>, index: nat, ownerOfUse: map<CallId, nat>, ownerOfResult: map<CallId, nat>, ghost seed: seq<bool>)
    returns (changed: bool)
    requires kept.Length == |ms| && index < |ms| && kept[index]
    requires ownerOfUse == LastOwner(UseRows(ms)) && ownerOfResult == LastOwner(ResultRows(ms))
    requires Forced(ms, seed, kept[..])
    modifies kept
    ensures Forced(ms, seed, kept[..]) == true
    ensures if changed then Dropped(kept[..]) < Dropped(old(kept[..])) else kept[..] == old(kept[..])
    ensures KeepsPartners(ms, kept[..], index)
  {
    var partners := OwnersOf(ResultIds(ms[index]), ownerOfUse) + OwnersOf(UseIds(ms[index]), ownerOfResult);
    assert partners == PartnersOf(ms, index);
    PartnersInRange(ms, index);
    changed := KeepAll(ms, kept, index, partners, seed);
  }

  method KeepAll(ms: seq<Message>, kept: array<bool>, index: nat, partners: seq<nat>, ghost seed: seq<bool>)
    returns (changed: bool)
    requires kept.Length == |ms| && index < |ms| && kept[index]
    requires forall partner <- partners :: partner < |ms| && partner in PartnersOf(ms, index)
    requires Forced(ms, seed, kept[..])
    modifies kept
    ensures Forced(ms, seed, kept[..]) == true
    ensures if changed then Dropped(kept[..]) < Dropped(old(kept[..])) else kept[..] == old(kept[..])
    ensures AllKept(partners, kept[..])
  {
    changed := false;
    for n := 0 to |partners|
      invariant Forced(ms, seed, kept[..]) == true
      invariant if changed then Dropped(kept[..]) < Dropped(old(kept[..])) else kept[..] == old(kept[..])
      invariant kept[index] && forall k :: 0 <= k < n ==> partners[k] < kept.Length && kept[partners[k]]
    {
      assert partners[n] in partners;
      var added := KeepOne(ms, kept, index, partners[n], seed);
      changed := changed || added;
    }
  }

  method KeepOne(ms: seq<Message>, kept: array<bool>, index: nat, partner: nat, ghost seed: seq<bool>)
    returns (added: bool)
    requires kept.Length == |ms| && index < |ms| && kept[index]
    requires partner < |ms| && partner in PartnersOf(ms, index)
    requires Forced(ms, seed, kept[..])
    modifies kept
    ensures Forced(ms, seed, kept[..]) == true
    ensures if added then Dropped(kept[..]) < Dropped(old(kept[..])) else kept[..] == old(kept[..])
    ensures kept[partner] && forall i :: 0 <= i < kept.Length && old(kept[i]) ==> kept[i]
  {
    added := !kept[partner];
    if added {
      KeepingAPartner(ms, seed, kept[..], index, partner);
      KeepingOneMore(kept[..], partner);
      kept[partner] := true;
      assert kept[..] == old(kept[..])[partner := true];
    }
  }

  // ----- the kept messages and the note

  /** The kept messages in their original order. */
  function KeptOf(ms: seq<Message>, kept: seq<bool>): seq<Message>
    requires |kept| == |ms|
  {
    if ms == [] then []
    else KeptOf(ms[..|ms| - 1], kept[..|ms| - 1]) + if kept[|ms| - 1] then [ms[|ms| - 1]] else []
  }

  /** The first position from `i` on where `kept` is `b`, or the end. */
  function FirstFrom(kept: seq<bool>, i: nat, b: bool): (n: nat)
    requires i <= |kept|
    ensures i <= n <= |kept|
    ensures forall j :: i <= j < n ==> kept[j] != b
    ensures n < |kept| ==> kept[n] == b
    decreases |kept| - i
  {
    if i == |kept| || kept[i] == b then i else FirstFrom(kept, i + 1, b)
  }

  /** Where the first gap starts, and the first kept message after it (or the end). */
  function GapStart(kept: seq<bool>): nat {
    FirstFrom(kept, 0, false)
  }

  function GapEnd(kept: seq<bool>): (n: nat)
    ensures n <= |kept|
  {
    FirstFrom(kept, GapStart(kept), true)
  }

  /** The kept messages with the note at the end of the first gap. */
  function WithNote(ms: seq<Message>, kept: seq<bool>, note: Message): seq<Message>
    requires |kept| == |ms|
  {
    var g := GapEnd(kept);
    KeptOf(ms[..g], kept[..g]) + [note] + KeptOf(ms[g..], kept[g..])
  }

  lemma KeptOfPush(ms: seq<Message>, kept: seq<bool>, m: Message, keepIt: bool)
    requires |kept| == |ms|
    ensures KeptOf(ms + [m], kept + [keepIt]) == KeptOf(ms, kept) + if keepIt then [m] else []
  {
    assert (ms + [m])[..|ms|] == ms && (kept + [keepIt])[..|kept|] == kept;
  }

  lemma KeptOfNext(ms: seq<Message>, kept: seq<bool>, lo: nat, n: nat)
    requires |kept| == |ms| && lo <= n < |ms|
    ensures KeptOf(ms[lo..n + 1], kept[lo..n + 1]) == KeptOf(ms[lo..n], kept[lo..n]) + if kept[n] then [ms[n]] else []
  {
    KeptOfPush(ms[lo..n], kept[lo..n], ms[n], kept[n]);
    assert ms[lo..n + 1] == ms[lo..n] + [ms[n]] && kept[lo..n + 1] == kept[lo..n] + [kept[n]];
  }

  /** One pass builds what `WithNote` specifies: the kept messages, with the note at `GapEnd`. */
  method WithoutDropped(ms: seq<Message>, kept: seq<bool>, note: Message) returns (out: seq<Message>)
    requires |kept| == |ms| && GapStart(kept) < |ms|
    ensures out == WithNote(ms, kept, note)
  {
    ghost var d, g := GapStart(kept), GapEnd(kept);
    out := [];
    var noteLeft, pendingGap := true, false;
    for i := 0 to |ms|
      invariant noteLeft <==> i <= g
      invariant noteLeft ==> (pendingGap <==> i > d) && out == KeptOf(ms[0..i], kept[0..i])
      invariant !noteLeft ==> out == KeptOf(ms[0..g], kept[0..g]) + [note] + KeptOf(ms[g..i], kept[g..i])
    {
      KeptOfNext(ms, kept, 0, i);
      if i >= g {
        KeptOfNext(ms, kept, g, i);
      }
      if !kept[i] {
        pendingGap := true;
        continue;
      }
      if pendingGap {
        if noteLeft {
          assert i == g;
          out := out + [note];
          noteLeft := false;
        }
        pendingGap := false;
      }
      out := out + [ms[i]];
    }
    assert ms[0..g] == ms[..g] && kept[0..g] == kept[..g];
    if noteLeft {
      assert ms[g..] == [] && kept[g..] == [];
      out := out + [note];
    } else {
      assert ms[g..|ms|] == ms[g..] && kept[g..|ms|] == kept[g..];
    }
  }

  lemma {:induction false} NothingDropped(kept: seq<bool>)
    ensures Dropped(kept) == 0 <==> GapStart(kept) == |kept|
    ensures Dropped(kept) == 0 <==> forall i :: 0 <= i < |kept| ==> kept[i]
  {
    if kept != [] {
      var init := kept[..|kept| - 1];
      NothingDropped(init);
      if forall i :: 0 <= i < |kept| ==> kept[i] {
        assert forall i :: 0 <= i < |init| ==> init[i] == kept[i];
      } else {
        var i :| 0 <= i < |kept| && !kept[i];
        assert i < |init| ==> !init[i];
      }
    }
  }

  // ----- who survives, in terms of the messages themselves

  ghost predicate MakesCall(m: Message, id: CallId) {
    exists b <- m.content :: b.ToolUse? && b.call.id == id
  }

  ghost predicate AnswersCall(m: Message, id: CallId) {
    exists b <- m.content :: b.ToolResult? && b.callId == id
  }

  /** Message `j` has the other half of a call in message `i`; of several, the last. */
  ghost predicate Paired(ms: seq<Message>, i: nat, j: nat)
    requires i < |ms|
  {
    j < |ms| && exists id :: OtherHalf(ms, i, j, id)
  }

  ghost predicate OtherHalf(ms: seq<Message>, i: nat, j: nat, id: CallId)
    requires i < |ms| && j < |ms|
  {
    || (AnswersCall(ms[i], id) && MakesCall(ms[j], id) && forall k :: j < k < |ms| ==> !MakesCall(ms[k], id))
    || (MakesCall(ms[i], id) && AnswersCall(ms[j], id) && forall k :: j < k < |ms| ==> !AnswersCall(ms[k], id))
  }

  /** A message is kept for itself: it is one of the last, pinned, a summary, or the first user message
      when that is asked for. */
  ghost predicate KeptForItself(ms: seq<Message>, keep: nat, retention: Retention, i: nat)
    requires i < |ms|
  {
    || i + keep >= |ms|
    || ms[i].id in retention.pinned
    || (ms[i].role == System && ms[i].content != [] && ms[i].content[0].Text?
        && "[summary of earlier conversation" <= ms[i].content[0].text)
    || (retention.anchorFirstUser && ms[i].role == User && forall j :: 0 <= j < i ==> ms[j].role != User)
  }

  /** A chain of pairs from a message kept for itself to message `i`. */
  ghost predicate LinkedToKept(ms: seq<Message>, keep: nat, retention: Retention, chain: seq<nat>, i: nat) {
    && chain != [] && chain[|chain| - 1] == i
    && (forall k :: 0 <= k < |chain| ==> chain[k] < |ms|)
    && KeptForItself(ms, keep, retention, chain[0])
    && forall k :: 0 <= k < |chain| - 1 ==> Paired(ms, chain[k], chain[k + 1])
  }

  ghost predicate Survives(ms: seq<Message>, keep: nat, retention: Retention, i: nat) {
    exists chain :: LinkedToKept(ms, keep, retention, chain, i)
  }

  lemma {:induction false} UsesMean(blocks: seq<Block>, id: CallId)
    ensures id in UsesIn(blocks) <==> exists b <- blocks :: b.ToolUse? && b.call.id == id
    ensures id in ResultsIn(blocks) <==> exists b <- blocks :: b.ToolResult? && b.callId == id
  {
    if blocks != [] {
      UsesMean(blocks[..|blocks| - 1], id);
      assert blocks == blocks[..|blocks| - 1] + [blocks[|blocks| - 1]];
    }
  }

  lemma LastOwnerIs(rows: seq<seq<CallId>>, id: CallId, j: nat)
    requires j < |rows|
    ensures id in LastOwner(rows) && LastOwner(rows)[id] == j
            <==> id in rows[j] && forall k :: j < k < |rows| ==> id !in rows[k]
  {
    LastOwnerMeaning(rows);
  }

  lemma OtherHalfMeans(ms: seq<Message>, i: nat, j: nat, id: CallId)
    requires i < |ms| && j < |ms|
    ensures OtherHalf(ms, i, j, id)
            <==> || (id in ResultIds(ms[i]) && id in LastOwner(UseRows(ms)) && LastOwner(UseRows(ms))[id] == j)
                 || (id in UseIds(ms[i]) && id in LastOwner(ResultRows(ms)) && LastOwner(ResultRows(ms))[id] == j)
  {
    forall k | 0 <= k < |ms|
      ensures id in UseRows(ms)[k] <==> MakesCall(ms[k], id)
      ensures id in ResultRows(ms)[k] <==> AnswersCall(ms[k], id)
    {
      UsesMean(ms[k].content, id);
    }
    UsesMean(ms[i].content, id);
    LastOwnerIs(UseRows(ms), id, j);
    LastOwnerIs(ResultRows(ms), id, j);
  }

  lemma PartnersMean(ms: seq<Message>, i: nat, j: nat)
    requires i < |ms|
    ensures j in PartnersOf(ms, i) <==> Paired(ms, i, j)
  {
    OwnersOfMembers(ResultIds(ms[i]), LastOwner(UseRows(ms)));
    OwnersOfMembers(UseIds(ms[i]), LastOwner(ResultRows(ms)));
    PartnersInRange(ms, i);
    if j < |ms| {
      forall id
        ensures OtherHalf(ms, i, j, id)
                <==> || (id in ResultIds(ms[i]) && id in LastOwner(UseRows(ms)) && LastOwner(UseRows(ms))[id] == j)
                     || (id in UseIds(ms[i]) && id in LastOwner(ResultRows(ms)) && LastOwner(ResultRows(ms))[id] == j)
      {
        OtherHalfMeans(ms, i, j, id);
      }
    }
  }

  lemma SeedMeans(ms: seq<Message>, keep: nat, retention: Retention, i: nat)
    requires i < |ms|
    ensures InitiallyKept(ms, keep, retention)[i] <==> KeptForItself(ms, keep, retention, i)
  {
  }

  lemma {:induction false} ChainIsKept(ms: seq<Message>, keep: nat, retention: Retention, kept: seq<bool>, chain: seq<nat>, i: nat)
    requires PairClosed(ms, kept) && Includes(kept, InitiallyKept(ms, keep, retention))
    requires LinkedToKept(ms, keep, retention, chain, i)
    ensures kept[i]
  {
    var last := |chain| - 1;
    if last == 0 {
      SeedMeans(ms, keep, retention, i);
    } else {
      var j := chain[last - 1];
      ChainIsKept(ms, keep, retention, kept, chain[..last], j);
      assert Paired(ms, chain[last - 1], chain[last]);
      PartnersMean(ms, j, i);
      assert KeepsPartners(ms, kept, j);
    }
  }

  ghost function Survivors(ms: seq<Message>, keep: nat, retention: Retention): seq<bool> {
    seq(|ms|, i requires 0 <= i < |ms| => Survives(ms, keep, retention, i))
  }

  lemma SurvivorsIncludeSeed(ms: seq<Message>, keep: nat, retention: Retention)
    ensures Includes(Survivors(ms, keep, retention), InitiallyKept(ms, keep, retention))
  {
    forall i: nat | i < |ms| && InitiallyKept(ms, keep, retention)[i]
      ensures Survives(ms, keep, retention, i)
    {
      SeedMeans(ms, keep, retention, i);
      assert LinkedToKept(ms, keep, retention, [i], i);
    }
  }

  lemma LinkOneMore(ms: seq<Message>, keep: nat, retention: Retention, chain: seq<nat>, i: nat, j: nat)
    requires LinkedToKept(ms, keep, retention, chain, i) && i < |ms| && Paired(ms, i, j)
    ensures LinkedToKept(ms, keep, retention, chain + [j], j)
  {
    var longer := chain + [j];
    assert forall k :: 0 <= k < |chain| ==> longer[k] == chain[k];
  }

  lemma SurvivorsAreClosed(ms: seq<Message>, keep: nat, retention: Retention)
    ensures PairClosed(ms, Survivors(ms, keep, retention))
  {
    var kept := Survivors(ms, keep, retention);
    forall i: nat | i < |ms| && kept[i]
      ensures KeepsPartners(ms, kept, i) == true
    {
      forall j | j in PartnersOf(ms, i)
        ensures j < |kept| && kept[j]
      {
        PartnersMean(ms, i, j);
        var chain: seq<nat> :| LinkedToKept(ms, keep, retention, chain, i);
        LinkOneMore(ms, keep, retention, chain, i, j);
      }
    }
  }

  /** The kept set holds exactly the messages that chains of pairs lead to. */
  lemma KeptAreSurvivors(ms: seq<Message>, keep: nat, retention: Retention, kept: seq<bool>)
    requires LeastClosed(ms, InitiallyKept(ms, keep, retention), kept)
    ensures kept == Survivors(ms, keep, retention)
  {
    SurvivorsAreClosed(ms, keep, retention);
    SurvivorsIncludeSeed(ms, keep, retention);
    forall i: nat | i < |ms| && Survives(ms, keep, retention, i)
      ensures kept[i]
    {
      var chain: seq<nat> :| LinkedToKept(ms, keep, retention, chain, i);
      ChainIsKept(ms, keep, retention, kept, chain, i);
    }
  }

  /** What is made of some messages of which `kept` survive. */
  ghost predicate Compacted(ms: seq<Message>, kept: seq<bool>, note: nat -> Message, out: seq<Message>)
    requires |kept| == |ms|
  {
    out == if Dropped(kept) > 0 then WithNote(ms, kept, note(Dropped(kept))) else ms
  }

  /** The positions that are kept, in order. */
  function Places(kept: seq<bool>): seq<nat> {
    if kept == [] then [] else Places(kept[..|kept| - 1]) + if kept[|kept| - 1] then [|kept| - 1] else []
  }

  /** `places` are the positions that are kept, in order. */
  ghost predicate KeptAt(kept: seq<bool>, places: seq<nat>) {
    && (forall i: nat :: i in places <==> i < |kept| && kept[i])
    && (forall k, l :: 0 <= k < l < |places| ==> places[k] < places[l])
    && forall k :: 0 <= k < |places| ==> places[k] < |kept|
  }

  lemma KeptAtPush(kept: seq<bool>, places: seq<nat>, b: bool)
    requires KeptAt(kept, places)
    ensures KeptAt(kept + [b], places + if b then [|kept|] else [])
  {
  }

  lemma {:induction false} PlacesMean(kept: seq<bool>)
    ensures KeptAt(kept, Places(kept)) == true
    ensures |Places(kept)| + Dropped(kept) == |kept|
  {
    if kept != [] {
      var init, b := kept[..|kept| - 1], kept[|kept| - 1];
      PlacesMean(init);
      KeptAtPush(init, Places(init), b);
      assert kept == init + [b];
    }
  }

  lemma {:induction false} KeptAtPlaces(ms: seq<Message>, kept: seq<bool>)
    requires |kept| == |ms|
    ensures |KeptOf(ms, kept)| == |Places(kept)|
    ensures forall k :: 0 <= k < |Places(kept)| ==> Places(kept)[k] < |ms| && KeptOf(ms, kept)[k] == ms[Places(kept)[k]]
  {
    if ms != [] {
      KeptAtPlaces(ms[..|ms| - 1], kept[..|kept| - 1]);
    }
  }

  /** `out` is some messages in their order, at these positions, with the note before the one at `n`. */
  ghost predicate NoteAmong(ms: seq<Message>, positions: seq<nat>, n: nat, note: Message, out: seq<Message>) {
    && |out| == |positions| + 1 && n <= |positions| && out[n] == note
    && (forall k :: 0 <= k < n ==> positions[k] < |ms| && out[k] == ms[positions[k]])
    && (forall k :: n <= k < |positions| ==> positions[k] < |ms| && out[k + 1] == ms[positions[k]])
  }

  /** The positions of exactly the survivors, in order, and how many messages are not among them. */
  ghost predicate SurvivorsAt(ms: seq<Message>, keep: nat, retention: Retention, positions: seq<nat>, dropped: nat) {
    && (forall i: nat :: i in positions <==> i < |ms| && Survives(ms, keep, retention, i))
    && (forall k, l :: 0 <= k < l < |positions| ==> positions[k] < positions[l])
    && |positions| + dropped == |ms|
  }

  /** Position `n` is the first that is missing. */
  ghost predicate FirstMissing(positions: seq<nat>, n: nat) {
    n <= |positions| && (forall k :: 0 <= k < n ==> positions[k] == k) && n !in positions
  }

  /** What a caller sees: exactly the messages that chains of pairs tie to one kept for itself, in their
      order, and the note, which tells how many are missing, where the first of them was. */
  ghost predicate KeepsSurvivors(ms: seq<Message>, keep: nat, retention: Retention, note: nat -> Message, out: seq<Message>) {
    if forall i: nat | i < |ms| :: Survives(ms, keep, retention, i) then out == ms
    else exists positions: seq<nat>, n: nat, dropped: nat ::
      && SurvivorsAt(ms, keep, retention, positions, dropped)
      && FirstMissing(positions, n)
      && NoteAmong(ms, positions, n, note(dropped), out)
  }

  /** Up to the end of the first gap, the places kept are those before the gap. */
  lemma PlacesAroundGap(kept: seq<bool>)
    requires Dropped(kept) > 0
    ensures GapStart(kept) < |kept| && !kept[GapStart(kept)]
    ensures Places(kept[..GapEnd(kept)]) == seq(GapStart(kept), k => k)
    ensures Places(kept) == Places(kept[..GapEnd(kept)]) + ShiftedBy(GapEnd(kept), Places(kept[GapEnd(kept)..]))
  {
    GapIsGap(kept);
    LeadingPlaces(kept, GapStart(kept), GapEnd(kept));
    PlacesSplit(kept, GapEnd(kept));
  }

  lemma PlacesSplit(kept: seq<bool>, n: nat)
    requires n <= |kept|
    ensures Places(kept) == Places(kept[..n]) + ShiftedBy(n, Places(kept[n..]))
  {
    var a, b := Halves(kept, n);
    PlacesConcat(a, b);
  }

  lemma Halves(kept: seq<bool>, n: nat) returns (a: seq<bool>, b: seq<bool>)
    requires n <= |kept|
    ensures a == kept[..n] && b == kept[n..] && kept == a + b
  {
    a, b := kept[..n], kept[n..];
  }

  lemma GapIsGap(kept: seq<bool>)
    requires Dropped(kept) > 0
    ensures GapStart(kept) < GapEnd(kept) && !kept[GapStart(kept)]
    ensures forall i :: 0 <= i < GapEnd(kept) ==> (kept[i] <==> i < GapStart(kept))
  {
    NothingDropped(kept);
  }

  function ShiftedBy(n: nat, positions: seq<nat>): seq<nat> {
    seq(|positions|, k requires 0 <= k < |positions| => positions[k] + n)
  }

  lemma {:induction false} PlacesConcat(a: seq<bool>, b: seq<bool>)
    ensures Places(a + b) == Places(a) + ShiftedBy(|a|, Places(b))
  {
    if b == [] {
      assert a + b == a;
    } else {
      PlacesConcat(a, b[..|b| - 1]);
      assert (a + b)[..|a + b| - 1] == a + b[..|b| - 1];
    }
  }

  lemma {:induction false} LeadingPlaces(kept: seq<bool>, d: nat, n: nat)
    requires n <= |kept| && (forall i :: 0 <= i < n ==> (kept[i] <==> i < d))
    ensures Places(kept[..n]) == seq(if d < n then d else n, k => k)
  {
    if n > 0 {
      LeadingPlaces(kept, d, n - 1);
      assert kept[..n][..n - 1] == kept[..n - 1];
    }
  }

  lemma NoteIsAmong(ms: seq<Message>, kept: seq<bool>, note: Message)
    requires |kept| == |ms| && Dropped(kept) > 0
    ensures NoteAmong(ms, Places(kept), GapStart(kept), note, WithNote(ms, kept, note))
    ensures GapStart(kept) <= |Places(kept)| && forall k :: 0 <= k < GapStart(kept) ==> Places(kept)[k] == k
  {
    var g, d := GapEnd(kept), GapStart(kept);
    PlacesAroundGap(kept);
    KeptAtPlaces(ms[..g], kept[..g]);
    KeptAtPlaces(ms[g..], kept[g..]);
    JoinedWithNote(
      ms, KeptOf(ms[..g], kept[..g]), KeptOf(ms[g..], kept[g..]), Places(kept[..g]), ShiftedBy(g, Places(kept[g..])), note);
  }

  lemma JoinedWithNote(
    ms: seq<Message>, before: seq<Message>, after: seq<Message>, placesBefore: seq<nat>, placesAfter: seq<nat>, note: Message)
    requires |before| == |placesBefore| && |after| == |placesAfter|
    requires forall k :: 0 <= k < |before| ==> placesBefore[k] < |ms| && before[k] == ms[placesBefore[k]]
    requires forall k :: 0 <= k < |after| ==> placesAfter[k] < |ms| && after[k] == ms[placesAfter[k]]
    ensures NoteAmong(ms, placesBefore + placesAfter, |before|, note, before + [note] + after)
  {
    var positions, out := placesBefore + placesAfter, before + [note] + after;
    forall k | |before| <= k < |positions|
      ensures positions[k] < |ms| && out[k + 1] == ms[positions[k]]
    {
      assert positions[k] == placesAfter[k - |before|] && out[k + 1] == after[k - |before|];
    }
  }

  lemma CompactedKeepsSurvivors(
    ms: seq<Message>, keep: nat, retention: Retention, kept: seq<bool>, note: nat -> Message, out: seq<Message>)
    requires LeastClosed(ms, InitiallyKept(ms, keep, retention), kept) && Compacted(ms, kept, note, out)
    ensures KeepsSurvivors(ms, keep, retention, note, out)
  {
    KeptAreSurvivors(ms, keep, retention, kept);
    NothingDropped(kept);
    if Dropped(kept) > 0 {
      GapIsGap(kept);
      PlacesAreSurvivors(ms, keep, retention, kept);
      NoteIsAmong(ms, kept, note(Dropped(kept)));
      SurvivorsPlaced(ms, keep, retention, Places(kept), GapStart(kept), Dropped(kept), note, out);
    } else {
      AllSurvive(ms, keep, retention, kept, note);
    }
  }

  lemma PlacesAreSurvivors(ms: seq<Message>, keep: nat, retention: Retention, kept: seq<bool>)
    requires kept == Survivors(ms, keep, retention) && Dropped(kept) > 0
    ensures SurvivorsAt(ms, keep, retention, Places(kept), Dropped(kept)) == true
    ensures GapStart(kept) < |ms| && !Survives(ms, keep, retention, GapStart(kept))
    ensures GapStart(kept) !in Places(kept)
  {
    PlacesMean(kept);
    GapIsGap(kept);
    assert forall i: nat | i < |ms| :: kept[i] == Survives(ms, keep, retention, i);
  }

  lemma AllSurvive(ms: seq<Message>, keep: nat, retention: Retention, kept: seq<bool>, note: nat -> Message)
    requires kept == Survivors(ms, keep, retention) && Dropped(kept) == 0
    ensures KeepsSurvivors(ms, keep, retention, note, ms)
  {
    NothingDropped(kept);
    assert forall i: nat | i < |ms| :: kept[i] == Survives(ms, keep, retention, i);
  }

  lemma SurvivorsPlaced(
    ms: seq<Message>, keep: nat, retention: Retention, positions: seq<nat>, n: nat, dropped: nat,
    note: nat -> Message, out: seq<Message>)
    requires n < |ms| && !Survives(ms, keep, retention, n)
    requires SurvivorsAt(ms, keep, retention, positions, dropped) && FirstMissing(positions, n)
    requires NoteAmong(ms, positions, n, note(dropped), out)
    ensures KeepsSurvivors(ms, keep, retention, note, out)
  {
  }

  lemma NothingToDrop(ms: seq<Message>, keep: nat, retention: Retention, note: nat -> Message)
    requires |ms| <= keep
    ensures KeepsSurvivors(ms, keep, retention, note, ms)
  {
    SurvivorsIncludeSeed(ms, keep, retention);
    forall i: nat | i < |ms|
      ensures Survives(ms, keep, retention, i)
    {
      SeedMeans(ms, keep, retention, i);
      assert Survivors(ms, keep, retention)[i];
    }
  }

  /** What dropping a prefix makes of some messages. */
  ghost predicate CompactsTo(ms: seq<Message>, keep: nat, retention: Retention, note: nat -> Message, out: seq<Message>) {
    if |ms| <= keep then out == ms
    else exists kept ::
        LeastClosed(ms, InitiallyKept(ms, keep, retention), kept) && Compacted(ms, kept, note, out)
  }

  /** Keeps the last `keep` messages and the protected ones, closed over tool pairs, and marks the
      gap. Nothing changes when nothing is dropped. `kept` tells which messages survive. */
  method DropPrefix(ms: seq<Message>, keep: nat, retention: Retention, note: nat -> Message)
    returns (out: seq<Message>, dropped: nat, ghost kept: seq<bool>)
    ensures dropped == 0 ==> out == ms
    ensures |ms| <= keep ==> dropped == 0
    ensures |ms| > keep ==>
              && LeastClosed(ms, InitiallyKept(ms, keep, retention), kept)
              && dropped == Dropped(kept)
              && (dropped > 0 ==> out == WithNote(ms, kept, note(dropped)))
    ensures CompactsTo(ms, keep, retention, note, out)
    // the same read off the messages
    ensures KeepsSurvivors(ms, keep, retention, note, out)
  {
    if |ms| <= keep {
      NothingToDrop(ms, keep, retention, note);
      return ms, 0, [];
    }
    var flags := new bool[|ms|](i requires 0 <= i < |ms| => i >= |ms| - keep || IsProtected(retention, ms, i));
    assert flags[..] == InitiallyKept(ms, keep, retention);
    CloseOverToolPairs(ms, flags);
    kept := flags[..];
    dropped := Dropped(flags[..]);
    NothingDropped(kept);
    if dropped == 0 {
      assert Compacted(ms, kept, note, ms);
      CompactedKeepsSurvivors(ms, keep, retention, kept, note, ms);
      return ms, 0, kept;
    }
    out := WithoutDropped(ms, flags[..], note(dropped));
    assert Compacted(ms, kept, note, out);
    CompactedKeepsSurvivors(ms, keep, retention, kept, note, out);
  }
}
