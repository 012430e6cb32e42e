/** The blocks of a history by place, and tables in which the last block that gives an entry wins. */
module Blocks {
  import opened Common
  import opened Messages

  /** Block `at.1` of message `at.0`. */
  ghost predicate IsBlock(ms: seq<Message>, at: (nat, nat)) {
    at.0 < |ms| && at.1 < |ms[at.0].content|
  }

  ghost function BlockAt(ms: seq<Message>, at: (nat, nat)): Block
    requires IsBlock(ms, at)
  {
    ms[at.0].content[at.1]
  }

  ghost predicate Earlier(a: (nat, nat), b: (nat, nat)) {
    a.0 < b.0 || (a.0 == b.0 && a.1 < b.1)
  }

  /** What a block gives a call, if anything. */
  type Gift<!V> = Block -> Option<(CallId, V)>

  ghost predicate GivesTo<V>(gift: Gift<V>, b: Block, id: CallId) {
    gift(b).Some? && gift(b).value.0 == id
  }

  /** The last block that gives the call anything is there, and gives `v`. */
  ghost predicate LastGivenAt<V>(gift: Gift<V>, ms: seq<Message>, id: CallId, v: V, at: (nat, nat)) {
    && IsBlock(ms, at) && gift(BlockAt(ms, at)) == Some((id, v))
    && forall later: (nat, nat) :: IsBlock(ms, later) && Earlier(at, later) ==> !GivesTo(gift, BlockAt(ms, later), id)
  }

  ghost predicate LastGiven<V>(gift: Gift<V>, ms: seq<Message>, id: CallId, v: V) {
    exists at: (nat, nat) :: LastGivenAt(gift, ms, id, v, at)
  }

  ghost predicate NeverGiven<V>(gift: Gift<V>, ms: seq<Message>, id: CallId) {
    forall at: (nat, nat) :: IsBlock(ms, at) ==> !GivesTo(gift, BlockAt(ms, at), id)
  }

  // ----- the tables that a scan builds

  function TableIn<V>(gift: Gift<V>, blocks: seq<Block>): map<CallId, V> {
    if blocks == [] then map[]
    else
      var before, given := TableIn(gift, blocks[..|blocks| - 1]), gift(blocks[|blocks| - 1]);
      if given.Some? then before[given.value.0 := given.value.1] else before
  }

  function TableOf<V>(gift: Gift<V>, ms: seq<Message>): map<CallId, V> {
    if ms == [] then map[] else TableOf(gift, ms[..|ms| - 1]) + TableIn(gift, ms[|ms| - 1].content)
  }

  ghost predicate NoneIn<V>(gift: Gift<V>, blocks: seq<Block>, id: CallId) {
    forall b <- blocks :: !GivesTo(gift, b, id)
  }

  ghost predicate LastIn<V>(gift: Gift<V>, blocks: seq<Block>, id: CallId, v: V, j: nat) {
    j < |blocks| && gift(blocks[j]) == Some((id, v)) && forall k :: j < k < |blocks| ==> !GivesTo(gift, blocks[k], id)
  }

  lemma {:induction false} TableInMeans<V>(gift: Gift<V>, blocks: seq<Block>, id: CallId)
    ensures
      if id in TableIn(gift, blocks) then exists j: nat :: LastIn(gift, blocks, id, TableIn(gift, blocks)[id], j)
      else NoneIn(gift, blocks, id)
  {
    if blocks != [] {
      var init, b := blocks[..|blocks| - 1], blocks[|blocks| - 1];
      assert blocks == init + [b];
      TableInMeans(gift, init, id);
      if GivesTo(gift, b, id) {
        assert LastIn(gift, blocks, id, TableIn(gift, blocks)[id], |init|);
      } else if id in TableIn(gift, blocks) {
        var j: nat :| LastIn(gift, init, id, TableIn(gift, blocks)[id], j);
        assert LastIn(gift, blocks, id, TableIn(gift, blocks)[id], j);
      }
    }
  }

  ghost predicate NotIn<V>(gift: Gift<V>, ms: seq<Message>, id: CallId) {
    forall m <- ms :: NoneIn(gift, m.content, id)
  }

  lemma {:induction false} TableHolds<V>(gift: Gift<V>, ms: seq<Message>, id: CallId)
    ensures if id in TableOf(gift, ms) then LastGiven(gift, ms, id, TableOf(gift, ms)[id]) else NotIn(gift, ms, id)
  {
    if ms != [] {
      var init, m := ms[..|ms| - 1], ms[|ms| - 1];
      assert ms == init + [m];
      TableHolds(gift, init, id);
      TableInMeans(gift, m.content, id);
      if id in TableIn(gift, m.content) {
        var j: nat :| LastIn(gift, m.content, id, TableOf(gift, ms)[id], j);
        GivenHere(gift, init, m, id, TableOf(gift, ms)[id], j);
      } else if id in TableOf(gift, ms) {
        GivenBefore(gift, init, m, id, TableOf(gift, ms)[id]);
      }
    }
  }

  lemma GivenHere<V>(gift: Gift<V>, init: seq<Message>, m: Message, id: CallId, v: V, j: nat)
    requires LastIn(gift, m.content, id, v, j)
    ensures LastGiven(gift, init + [m], id, v)
  {
    assert LastGivenAt(gift, init + [m], id, v, (|init|, j));
  }

  lemma GivenBefore<V>(gift: Gift<V>, init: seq<Message>, m: Message, id: CallId, v: V)
    requires LastGiven(gift, init, id, v) && NoneIn(gift, m.content, id)
    ensures LastGiven(gift, init + [m], id, v)
  {
    var ms := init + [m];
    var at: (nat, nat) :| LastGivenAt(gift, init, id, v, at);
    assert IsBlock(ms, at) && BlockAt(ms, at) == BlockAt(init, at);
    forall later: (nat, nat) | IsBlock(ms, later) && Earlier(at, later)
      ensures !GivesTo(gift, BlockAt(ms, later), id)
    {
      if later.0 < |init| {
        assert IsBlock(init, later) && BlockAt(init, later) == BlockAt(ms, later);
      } else {
        assert BlockAt(ms, later) in m.content;
      }
    }
    assert LastGivenAt(gift, ms, id, v, at);
  }

  lemma GivenLastOnce<V>(gift: Gift<V>, ms: seq<Message>, id: CallId, a: V, b: V)
    requires LastGiven(gift, ms, id, a) && LastGiven(gift, ms, id, b)
    ensures a == b
  {
    var x: (nat, nat) :| LastGivenAt(gift, ms, id, a, x);
    var y: (nat, nat) :| LastGivenAt(gift, ms, id, b, y);
    assert GivesTo(gift, BlockAt(ms, x), id) && GivesTo(gift, BlockAt(ms, y), id);
    assert !Earlier(x, y) && !Earlier(y, x);
    assert x.0 == y.0 && x.1 == y.1;
  }

  lemma NotInAnywhere<V>(gift: Gift<V>, ms: seq<Message>, id: CallId)
    requires NotIn(gift, ms, id)
    ensures NeverGiven(gift, ms, id)
  {
    forall at: (nat, nat) | IsBlock(ms, at)
      ensures !GivesTo(gift, BlockAt(ms, at), id)
    {
      assert ms[at.0] in ms && BlockAt(ms, at) in ms[at.0].content;
    }
  }

  /** The table holds exactly what was given last. */
  lemma TableMeans<V(!new)>(gift: Gift<V>, ms: seq<Message>, id: CallId)
    ensures id in TableOf(gift, ms) <==> !NeverGiven(gift, ms, id)
    ensures forall v :: LastGiven(gift, ms, id, v) <==> id in TableOf(gift, ms) && TableOf(gift, ms)[id] == v
  {
    TableHolds(gift, ms, id);
    if id in TableOf(gift, ms) {
      var at: (nat, nat) :| LastGivenAt(gift, ms, id, TableOf(gift, ms)[id], at);
      assert GivesTo(gift, BlockAt(ms, at), id);
      forall v | LastGiven(gift, ms, id, v)
        ensures v == TableOf(gift, ms)[id]
      {
        GivenLastOnce(gift, ms, id, v, TableOf(gift, ms)[id]);
      }
    } else {
      NotInAnywhere(gift, ms, id);
    }
  }

  // ----- the ids of a message

  /** `ids` are the ids at these places of the blocks, in order, and `has` tells which places those are. */
  ghost predicate IdsAt(blocks: seq<Block>, ids: seq<CallId>, places: seq<nat>, has: (Block, CallId) -> bool) {
    && |places| == |ids|
    && (forall j, k :: 0 <= j < k < |places| ==> places[j] < places[k])
    && (forall k :: 0 <= k < |places| ==> places[k] < |blocks| && has(blocks[places[k]], ids[k]))
    && forall i: nat, id | i < |blocks| && has(blocks[i], id) :: i in places
  }

  lemma IdsPush(blocks: seq<Block>, ids: seq<CallId>, places: seq<nat>, has: (Block, CallId) -> bool, b: Block, id: CallId)
    requires IdsAt(blocks, ids, places, has)
    ensures has(b, id) ==> IdsAt(blocks + [b], ids + [id], places + [|blocks|], has)
    ensures (forall other :: !has(b, other)) ==> IdsAt(blocks + [b], ids, places, has)
  {
  }

  function Makes(): (Block, CallId) -> bool {
    (b: Block, id: CallId) => b.ToolUse? && b.call.id == id
  }

  function Answers(): (Block, CallId) -> bool {
    (b: Block, id: CallId) => b.ToolResult? && b.callId == id
  }

  /** The calls a message makes, and those it answers, are those of its blocks, block by block. */
  lemma {:induction false} IdsInOrder(blocks: seq<Block>) returns (uses: seq<nat>, results: seq<nat>)
    ensures IdsAt(blocks, UsesIn(blocks), uses, Makes())
    ensures IdsAt(blocks, ResultsIn(blocks), results, Answers())
  {
    if blocks == [] {
      uses, results := [], [];
    } else {
      var init, b := blocks[..|blocks| - 1], blocks[|blocks| - 1];
      uses, results := IdsInOrder(init);
      assert blocks == init + [b];
      if b.ToolUse? {
        IdsPush(init, UsesIn(init), uses, Makes(), b, b.call.id);
        IdsPush(init, ResultsIn(init), results, Answers(), b, b.call.id);
        uses := uses + [|init|];
      } else if b.ToolResult? {
        IdsPush(init, UsesIn(init), uses, Makes(), b, b.callId);
        IdsPush(init, ResultsIn(init), results, Answers(), b, b.callId);
        results := results + [|init|];
      } else {
        IdsPush(init, UsesIn(init), uses, Makes(), b, CallId(0));
        IdsPush(init, ResultsIn(init), results, Answers(), b, CallId(0));
      }
    }
  }
}
