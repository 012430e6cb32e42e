/** Replacing file reads that a later read made redundant (crates/context/src/superseded.rs). */
module Superseded {
  import opened Arithmetic
  import opened Common
  import opened Text
  import opened Sorting
  import opened Messages

  const STEP_CHARS: nat := 120_000
  const STUB: string := "[older read replaced:"

  // ----- where the history may be rewritten

  function BlockSize(b: Block): nat {
    match b
    case Text(text) => Utf8Len(text)
    case ToolUse(call) => Utf8Len(call.name) + Utf8Len(call.arguments.rendered)
    case ToolResult(_, result) => Utf8Len(result.outputPreview)
    case Image(_, _) => 0
  }

  function SizeOf(blocks: seq<Block>): nat {
    if blocks == [] then 0 else SizeOf(blocks[..|blocks| - 1]) + BlockSize(blocks[|blocks| - 1])
  }

  /** The size of the first messages together. */
  function Total(ms: seq<Message>): nat {
    if ms == [] then 0 else Total(ms[..|ms| - 1]) + SizeOf(ms[|ms| - 1].content)
  }

  /** `n` is the shortest prefix of at least `boundary` characters. */
  ghost predicate IsPoint(ms: seq<Message>, boundary: nat, n: nat) {
    && n <= |ms|
    && Total(ms[..n]) >= boundary
    && forall k :: 0 <= k < n ==> Total(ms[..k]) < boundary
  }

  /** The last whole number of steps the history has passed. */
  function Boundary(ms: seq<Message>, step: nat): nat
    requires step > 0
  {
    (Total(ms) / step) * step
  }

  /** The shortest prefix that holds all whole steps. */
  method RewritePoint(ms: seq<Message>, step: nat) returns (upto: nat)
    requires step > 0
    ensures IsPoint(ms, Boundary(ms, step), upto)
  {
    var boundary := Boundary(ms, step);
    BoundaryWithin(ms, step);
    assert ms[..|ms|] == ms && ms[..0] == [];
    if boundary == 0 {
      return 0;
    }
    upto := |ms|;
    var seen := 0;
    for index := 0 to |ms|
      invariant seen == Total(ms[..index])
      invariant forall k :: 0 <= k <= index ==> Total(ms[..k]) < boundary
    {
      TotalNext(ms, index);
      seen := seen + SizeOf(ms[index].content);
      if seen >= boundary {
        return index + 1;
      }
    }
  }

  lemma TotalNext(ms: seq<Message>, n: nat)
    requires n < |ms|
    ensures Total(ms[..n + 1]) == Total(ms[..n]) + SizeOf(ms[n].content)
  {
    assert ms[..n + 1][..n] == ms[..n];
  }

  lemma BoundaryWithin(ms: seq<Message>, step: nat)
    requires step > 0
    ensures Boundary(ms, step) <= Total(ms) < Boundary(ms, step) + step
  {
    FloorBounds(Total(ms), step);
  }

  lemma {:induction false} TotalGrows(ms: seq<Message>, more: seq<Message>)
    ensures Total(ms) <= Total(ms + more)
  {
    if more == [] {
      assert ms + more == ms;
    } else {
      TotalGrows(ms, more[..|more| - 1]);
      assert (ms + more)[..|ms + more| - 1] == ms + more[..|more| - 1];
    }
  }

  lemma BoundaryUnderExtension(ms: seq<Message>, more: seq<Message>, step: nat)
    requires step > 0
    ensures Boundary(ms, step) <= Boundary(ms + more, step) <= Total(ms + more)
    ensures Total(ms + more) < Boundary(ms, step) + step ==> Boundary(ms, step) == Boundary(ms + more, step)
  {
    TotalGrows(ms, more);
    BoundaryWithin(ms, step);
    BoundaryWithin(ms + more, step);
    QuotientMonotone(Total(ms), Total(ms + more), step);
    MulMonotone(Total(ms) / step, Total(ms + more) / step, step);
    if Total(ms + more) < Boundary(ms, step) + step {
      QuotientUnique(Total(ms + more), step, Total(ms) / step);
    }
  }

  /** Growing the history never moves the rewrite point back, and leaves it where it is until the
      next whole step is reached. */
  lemma PointUnderExtension(ms: seq<Message>, more: seq<Message>, step: nat, before: nat, after: nat)
    requires step > 0
    requires IsPoint(ms, Boundary(ms, step), before) && IsPoint(ms + more, Boundary(ms + more, step), after)
    ensures before <= after
    ensures Total(ms + more) < Boundary(ms, step) + step ==> before == after
  {
    BoundaryUnderExtension(ms, more, step);
    PointGrows(ms, more, Boundary(ms, step), Boundary(ms + more, step), before, after);
  }

  lemma PointGrows(ms: seq<Message>, more: seq<Message>, low: nat, high: nat, before: nat, after: nat)
    requires low <= high && IsPoint(ms, low, before) && IsPoint(ms + more, high, after)
    ensures before <= after && (low == high ==> before == after)
  {
    PrefixOfExtension(ms, more, before);
    PrefixOfExtension(ms, more, after);
  }

  lemma PrefixOfExtension(ms: seq<Message>, more: seq<Message>, n: nat)
    ensures n <= |ms| ==> (ms + more)[..n] == ms[..n]
  {
  }

  // ----- what a read asked for

  /** The path without leading `./`, and the rest of the arguments; empty for a whole read. */
  datatype Read = Read(path: string, scope: string) {
    /** Same path, and either no scope at all or an equal one. */
    predicate Supersedes(earlier: Read) {
      path == earlier.path && (scope == "" || scope == earlier.scope)
    }
  }

  predicate IsReadTool(name: string) {
    name == "read_file" || name == "fs.read"
  }

  function Field(fields: seq<(string, JsonValue)>, key: string): Option<JsonValue> {
    if fields == [] then None
    else if fields[0].0 == key then Some(fields[0].1)
    else Field(fields[1..], key)
  }

  function TrimDotSlash(path: string): string {
    if |path| >= 2 && path[0] == '.' && path[1] == '/' then TrimDotSlash(path[2..]) else path
  }

  predicate KeyLe(a: (string, JsonValue), b: (string, JsonValue)) {
    LexLe(a.0, b.0)
  }

  predicate IsScopeField(field: (string, JsonValue)) {
    field.0 != "path" && field.0 != "file_path"
  }

  function JoinFields(fields: seq<(string, JsonValue)>): string {
    if fields == [] then ""
    else
      var first := fields[0].0 + "=" + fields[0].1.rendered;
      if |fields| == 1 then first else first + "&" + JoinFields(fields[1..])
  }

  function ReadOf(arguments: Arguments): Option<Read> {
    if arguments.fields.None? then None
    else
      var fields := arguments.fields.value;
      var named := if Field(fields, "path").Some? then Field(fields, "path") else Field(fields, "file_path");
      if named.None? || named.value.asText.None? then None
      else Some(Read(TrimDotSlash(named.value.asText.value), JoinFields(StableSort(KeyLe, Filter(IsScopeField, fields)))))
  }

  // ----- which results are superseded

  type Reads = map<CallId, Read>

  function ReadsIn(blocks: seq<Block>): Reads {
    if blocks == [] then map[]
    else
      var before, b := ReadsIn(blocks[..|blocks| - 1]), blocks[|blocks| - 1];
      if b.ToolUse? && IsReadTool(b.call.name) && ReadOf(b.call.arguments).Some?
      then before[b.call.id := ReadOf(b.call.arguments).value] else before
  }

  /** The reads asked for in a history; the last use of an id wins. */
  function ReadsOf(ms: seq<Message>): Reads {
    if ms == [] then map[] else ReadsOf(ms[..|ms| - 1]) + ReadsIn(ms[|ms| - 1].content)
  }

  function OrderIn(blocks: seq<Block>, asked: Reads): seq<CallId> {
    if blocks == [] then []
    else
      var b := blocks[|blocks| - 1];
      OrderIn(blocks[..|blocks| - 1], asked)
      + if b.ToolResult? && b.callId in asked && !b.result.hasError then [b.callId] else []
  }

  /** The reads that succeeded, in the order of their results. */
  function OrderOf(ms: seq<Message>, asked: Reads): seq<CallId> {
    if ms == [] then [] else OrderOf(ms[..|ms| - 1], asked) + OrderIn(ms[|ms| - 1].content, asked)
  }

  /** Some later result covers the one at `at`. */
  predicate SupersededAt(order: seq<CallId>, asked: Reads, at: nat) {
    at < |order| && order[at] in asked
    && exists later :: at < later < |order| && order[later] in asked && asked[order[later]].Supersedes(asked[order[at]])
  }

  function SupersededIds(order: seq<CallId>, asked: Reads): set<CallId> {
    set at | 0 <= at < |order| && SupersededAt(order, asked, at) :: order[at]
  }

  function StubText(read: Read): string {
    STUB + " " + read.path + " was read again later; use that newer copy]"
  }

  predicate Replaces(b: Block, superseded: set<CallId>, asked: Reads) {
    b.ToolResult? && b.callId in superseded && b.callId in asked && !StartsWith(b.result.outputPreview, STUB)
  }

  function StubBlock(b: Block, superseded: set<CallId>, asked: Reads): Block {
    if Replaces(b, superseded, asked) then b.(result := b.result.(outputPreview := StubText(asked[b.callId]))) else b
  }

  function StubMessage(m: Message, superseded: set<CallId>, asked: Reads): Message {
    m.(content := seq(|m.content|, i requires 0 <= i < |m.content| => StubBlock(m.content[i], superseded, asked)))
  }

  function StubAll(ms: seq<Message>, superseded: set<CallId>, asked: Reads): seq<Message> {
    seq(|ms|, i requires 0 <= i < |ms| => StubMessage(ms[i], superseded, asked))
  }

  function Superseding(ms: seq<Message>): (set<CallId>, Reads) {
    var asked := ReadsOf(ms);
    (SupersededIds(OrderOf(ms, asked), asked), asked)
  }

  /** The history with the superseded reads before `upto` replaced. */
  function StubReads(ms: seq<Message>, upto: nat): seq<Message> {
    var n := if upto < |ms| then upto else |ms|;
    var (superseded, asked) := Superseding(ms[..n]);
    StubAll(ms[..n], superseded, asked) + ms[n..]
  }

  function ReplacedIn(blocks: seq<Block>, superseded: set<CallId>, asked: Reads): nat {
    if blocks == [] then 0
    else ReplacedIn(blocks[..|blocks| - 1], superseded, asked) + if Replaces(blocks[|blocks| - 1], superseded, asked) then 1 else 0
  }

  function ReplacedCount(ms: seq<Message>, superseded: set<CallId>, asked: Reads): nat {
    if ms == [] then 0
    else ReplacedCount(ms[..|ms| - 1], superseded, asked) + ReplacedIn(ms[|ms| - 1].content, superseded, asked)
  }

  /** Rewrites the first `upto` messages as `StubReads` says and returns how many results changed. */
  method StubSupersededReads(ms: seq<Message>, upto: nat) returns (out: seq<Message>, replaced: nat)
    ensures out == StubReads(ms, upto)
    ensures var n := if upto < |ms| then upto else |ms|;
            replaced == ReplacedCount(ms[..n], Superseding(ms[..n]).0, Superseding(ms[..n]).1)
  {
    var n := if upto < |ms| then upto else |ms|;
    var rewritable := ms[..n];
    var (superseded, asked) := Superseding(rewritable);
    var stubbed: seq<Message> := [];
    replaced := 0;
    for i := 0 to n
      invariant stubbed == StubAll(rewritable, superseded, asked)[..i]
      invariant replaced == ReplacedCount(rewritable[..i], superseded, asked)
    {
      var m, count := StubBlocks(rewritable[i], superseded, asked);
      stubbed := stubbed + [m];
      replaced := replaced + count;
      assert rewritable[..i + 1][..i] == rewritable[..i];
    }
    assert rewritable[..n] == rewritable;
    out := stubbed + ms[n..];
  }

  method StubBlocks(m: Message, superseded: set<CallId>, asked: Reads) returns (out: Message, replaced: nat)
    ensures out == StubMessage(m, superseded, asked) && replaced == ReplacedIn(m.content, superseded, asked)
  {
    var blocks: seq<Block> := [];
    replaced := 0;
    for i := 0 to |m.content|
      invariant blocks == StubMessage(m, superseded, asked).content[..i]
      invariant replaced == ReplacedIn(m.content[..i], superseded, asked)
    {
      blocks := blocks + [StubBlock(m.content[i], superseded, asked)];
      if Replaces(m.content[i], superseded, asked) {
        replaced := replaced + 1;
      }
      assert m.content[..i + 1][..i] == m.content[..i];
    }
    assert m.content[..|m.content|] == m.content;
    out := m.(content := blocks);
  }

  // ----- the newest copy survives

  lemma SupersedesIsTransitive(a: Read, b: Read, c: Read)
    requires a.Supersedes(b) && b.Supersedes(c)
    ensures a.Supersedes(c)
  {
  }

  /** A superseded result has a later one that covers it and is itself not superseded. */
  lemma {:induction false} NewestSurvives(order: seq<CallId>, asked: Reads, at: nat) returns (newest: nat)
    requires SupersededAt(order, asked, at)
    ensures at < newest < |order| && order[newest] in asked && asked[order[newest]].Supersedes(asked[order[at]])
    ensures !SupersededAt(order, asked, newest)
    decreases |order| - at
  {
    var later :| at < later < |order| && order[later] in asked && asked[order[later]].Supersedes(asked[order[at]]);
    newest := later;
    if SupersededAt(order, asked, later) {
      newest := NewestSurvives(order, asked, later);
      SupersedesIsTransitive(asked[order[newest]], asked[order[later]], asked[order[at]]);
    }
  }

  ghost predicate DistinctOrder(order: seq<CallId>) {
    forall i, j :: 0 <= i < j < |order| ==> order[i] != order[j]
  }

  /** With one result for each call, the covering call is not among the replaced ones. */
  lemma EveryStubHasANewerCopy(order: seq<CallId>, asked: Reads, id: CallId) returns (at: nat, newest: nat)
    requires DistinctOrder(order) && id in SupersededIds(order, asked)
    ensures at < newest < |order| && order[at] == id && order[newest] in asked && id in asked
    ensures asked[order[newest]].Supersedes(asked[id])
    ensures order[newest] !in SupersededIds(order, asked)
  {
    at :| 0 <= at < |order| && SupersededAt(order, asked, at) && order[at] == id;
    newest := NewestSurvives(order, asked, at);
  }

  // ----- failed reads

  /** A result block of call `id` in message `i`. */
  ghost predicate ResultAt(ms: seq<Message>, i: nat, j: nat, id: CallId) {
    i < |ms| && j < |ms[i].content| && ms[i].content[j].ToolResult? && ms[i].content[j].callId == id
  }

  /** No call has two result blocks. */
  ghost predicate OneResultEach(ms: seq<Message>) {
    forall i, j, k, l, id :: ResultAt(ms, i, j, id) && ResultAt(ms, k, l, id) ==> i == k && j == l
  }

  lemma {:induction false} OrderInMembers(blocks: seq<Block>, asked: Reads)
    ensures forall id :: id in OrderIn(blocks, asked) <==> id in asked && exists b <- blocks :: b.ToolResult? && b.callId == id && !b.result.hasError
  {
    if blocks != [] {
      OrderInMembers(blocks[..|blocks| - 1], asked);
      assert blocks == blocks[..|blocks| - 1] + [blocks[|blocks| - 1]];
    }
  }

  lemma {:induction false} OrderMember(ms: seq<Message>, asked: Reads, id: CallId) returns (i: nat, j: nat)
    requires id in OrderOf(ms, asked)
    ensures ResultAt(ms, i, j, id) && !ms[i].content[j].result.hasError
  {
    var n := |ms| - 1;
    if id in OrderOf(ms[..n], asked) {
      i, j := OrderMember(ms[..n], asked, id);
    } else {
      OrderInMembers(ms[n].content, asked);
      var b :| b in ms[n].content && b.ToolResult? && b.callId == id && !b.result.hasError;
      i := n;
      j :| 0 <= j < |ms[n].content| && ms[n].content[j] == b;
    }
  }

  lemma {:induction false} OrderInDistinct(blocks: seq<Block>, asked: Reads)
    requires forall j, l :: 0 <= j < l < |blocks| && blocks[j].ToolResult? && blocks[l].ToolResult? ==> blocks[j].callId != blocks[l].callId
    ensures DistinctOrder(OrderIn(blocks, asked))
  {
    if blocks != [] {
      var init := blocks[..|blocks| - 1];
      OrderInDistinct(init, asked);
      OrderInMembers(init, asked);
      DistinctConcat(OrderIn(init, asked), OrderIn(blocks, asked)[|OrderIn(init, asked)|..]);
      assert OrderIn(blocks, asked) == OrderIn(init, asked) + OrderIn(blocks, asked)[|OrderIn(init, asked)|..];
    }
  }

  lemma DistinctConcat(a: seq<CallId>, b: seq<CallId>)
    requires DistinctOrder(a) && DistinctOrder(b) && forall x <- b :: x !in a
    ensures DistinctOrder(a + b)
  {
    forall i, j | 0 <= i < j < |a + b|
      ensures (a + b)[i] != (a + b)[j]
    {
      if i < |a| <= j {
        assert a[i] in a && b[j - |a|] in b;
      }
    }
  }

  lemma {:induction false} OrderDistinct(ms: seq<Message>, asked: Reads)
    requires OneResultEach(ms)
    ensures DistinctOrder(OrderOf(ms, asked))
  {
    if ms != [] {
      var n := |ms| - 1;
      OneResultInPrefix(ms);
      OrderDistinct(ms[..n], asked);
      var blocks := ms[n].content;
      forall j, l | 0 <= j < l < |blocks| && blocks[j].ToolResult? && blocks[l].ToolResult?
        ensures blocks[j].callId != blocks[l].callId
      {
        assert ResultAt(ms, n, j, blocks[j].callId) && ResultAt(ms, n, l, blocks[l].callId);
      }
      OrderInDistinct(blocks, asked);
      OrderInMembers(blocks, asked);
      forall id | id in OrderIn(blocks, asked)
        ensures id !in OrderOf(ms[..n], asked)
      {
        AnsweredOnceOnly(ms, asked, id);
      }
      DistinctConcat(OrderOf(ms[..n], asked), OrderIn(blocks, asked));
    }
  }

  lemma OneResultInPrefix(ms: seq<Message>)
    requires OneResultEach(ms) && ms != []
    ensures OneResultEach(ms[..|ms| - 1])
  {
    var init := ms[..|ms| - 1];
    forall i, j, k, l, id | ResultAt(init, i, j, id) && ResultAt(init, k, l, id)
      ensures i == k && j == l
    {
      assert ResultAt(ms, i, j, id) && ResultAt(ms, k, l, id);
    }
  }

  lemma AnsweredOnceOnly(ms: seq<Message>, asked: Reads, id: CallId)
    requires OneResultEach(ms) && ms != [] && id in OrderIn(ms[|ms| - 1].content, asked)
    ensures id !in OrderOf(ms[..|ms| - 1], asked)
  {
    var n := |ms| - 1;
    OrderInMembers(ms[n].content, asked);
    var b :| b in ms[n].content && b.ToolResult? && b.callId == id;
    var l :| 0 <= l < |ms[n].content| && ms[n].content[l] == b;
    assert ResultAt(ms, n, l, id);
    if id in OrderOf(ms[..n], asked) {
      var i, j := OrderMember(ms[..n], asked, id);
      assert ResultAt(ms, i, j, id);
    }
  }

  /** Every read that is replaced has a newer copy: a later successful read of the same path in the
      same prefix, that covers it and is not replaced itself. */
  lemma ReplacedHasNewerCopy(ms: seq<Message>, id: CallId) returns (at: nat, newest: nat)
    requires OneResultEach(ms) && id in Superseding(ms).0
    ensures
      var (superseded, asked) := Superseding(ms);
      var order := OrderOf(ms, asked);
      && at < newest < |order| && order[at] == id && order[newest] !in superseded
      && id in asked && order[newest] in asked
      && asked[order[newest]].Supersedes(asked[id]) && asked[order[newest]].path == asked[id].path
  {
    var asked := ReadsOf(ms);
    OrderDistinct(ms, asked);
    at, newest := EveryStubHasANewerCopy(OrderOf(ms, asked), asked, id);
  }

  /** A read that failed is never replaced. */
  lemma FailedReadsStay(ms: seq<Message>, i: nat, j: nat, id: CallId)
    requires OneResultEach(ms) && ResultAt(ms, i, j, id) && ms[i].content[j].result.hasError
    ensures StubBlock(ms[i].content[j], Superseding(ms).0, Superseding(ms).1) == ms[i].content[j]
  {
    var asked := ReadsOf(ms);
    if id in OrderOf(ms, asked) {
      var k, l := OrderMember(ms, asked, id);
      assert false;
    }
  }

  // ----- a second pass

  lemma {:induction false} StubbedBlocksSame(blocks: seq<Block>, out: seq<Block>, superseded: set<CallId>, using: Reads, asked: Reads)
    requires |out| == |blocks| && forall i :: 0 <= i < |blocks| ==> out[i] == StubBlock(blocks[i], superseded, using)
    ensures ReadsIn(out) == ReadsIn(blocks) && OrderIn(out, asked) == OrderIn(blocks, asked)
  {
    if blocks != [] {
      StubbedBlocksSame(blocks[..|blocks| - 1], out[..|out| - 1], superseded, using, asked);
    }
  }

  lemma {:induction false} StubbedHistorySame(ms: seq<Message>, superseded: set<CallId>, using: Reads, asked: Reads)
    ensures ReadsOf(StubAll(ms, superseded, using)) == ReadsOf(ms)
    ensures OrderOf(StubAll(ms, superseded, using), asked) == OrderOf(ms, asked)
  {
    if ms != [] {
      var n := |ms| - 1;
      var out := StubAll(ms, superseded, using);
      StubbedHistorySame(ms[..n], superseded, using, asked);
      assert out[..n] == StubAll(ms[..n], superseded, using);
      StubbedBlocksSame(ms[n].content, out[n].content, superseded, using, asked);
    }
  }

  lemma StubTextIsStub(read: Read)
    ensures StartsWith(StubText(read), STUB)
  {
  }

  lemma StubBlockTwice(b: Block, superseded: set<CallId>, asked: Reads)
    ensures !Replaces(StubBlock(b, superseded, asked), superseded, asked)
  {
    if Replaces(b, superseded, asked) {
      StubTextIsStub(asked[b.callId]);
    }
  }

  lemma {:induction false} NothingToReplace(ms: seq<Message>, superseded: set<CallId>, asked: Reads)
    requires forall i, j :: 0 <= i < |ms| && 0 <= j < |ms[i].content| ==> !Replaces(ms[i].content[j], superseded, asked)
    ensures ReplacedCount(ms, superseded, asked) == 0
    ensures StubAll(ms, superseded, asked) == ms
  {
    forall i | 0 <= i < |ms|
      ensures StubMessage(ms[i], superseded, asked) == ms[i]
    {
      assert StubMessage(ms[i], superseded, asked).content == ms[i].content;
    }
    if ms != [] {
      NothingToReplace(ms[..|ms| - 1], superseded, asked);
      NoneReplacedIn(ms[|ms| - 1].content, superseded, asked);
    }
  }

  lemma {:induction false} NoneReplacedIn(blocks: seq<Block>, superseded: set<CallId>, asked: Reads)
    requires forall j :: 0 <= j < |blocks| ==> !Replaces(blocks[j], superseded, asked)
    ensures ReplacedIn(blocks, superseded, asked) == 0
  {
    if blocks != [] {
      NoneReplacedIn(blocks[..|blocks| - 1], superseded, asked);
    }
  }

  /** Running the rewriter on its own output replaces nothing and changes nothing. */
  lemma SecondPassReplacesNothing(ms: seq<Message>, upto: nat)
    ensures StubReads(StubReads(ms, upto), upto) == StubReads(ms, upto)
    ensures var out := StubReads(ms, upto);
            var n := if upto < |out| then upto else |out|;
            ReplacedCount(out[..n], Superseding(out[..n]).0, Superseding(out[..n]).1) == 0
  {
    var n := if upto < |ms| then upto else |ms|;
    var (superseded, asked) := Superseding(ms[..n]);
    var first := StubAll(ms[..n], superseded, asked);
    var out := StubReads(ms, upto);
    assert out[..n] == first && out[n..] == ms[n..];
    StubbedHistorySame(ms[..n], superseded, asked, asked);
    assert Superseding(first) == (superseded, asked);
    forall i, j | 0 <= i < |first| && 0 <= j < |first[i].content|
      ensures !Replaces(first[i].content[j], superseded, asked)
    {
      StubBlockTwice(ms[i].content[j], superseded, asked);
    }
    NothingToReplace(first, superseded, asked);
  }

  // ----- prompt-prefix stability

  /** Until the history crosses the next step, sending it again only appends: the rewritten longer
      history is the rewritten shorter one followed by the new messages unchanged. */
  lemma PrefixStability(ms: seq<Message>, more: seq<Message>, step: nat, before: nat, after: nat)
    requires step > 0 && Total(ms + more) < Boundary(ms, step) + step
    requires IsPoint(ms, Boundary(ms, step), before) && IsPoint(ms + more, Boundary(ms + more, step), after)
    ensures StubReads(ms + more, after) == StubReads(ms, before) + more
  {
    PointUnderExtension(ms, more, step, before, after);
    PrefixOfExtension(ms, more, before);
    assert (ms + more)[before..] == ms[before..] + more;
  }

  /** What the provider sends for a history. */
  ghost predicate Sends(ms: seq<Message>, out: seq<Message>) {
    exists upto :: IsPoint(ms, Boundary(ms, STEP_CHARS), upto) && out == StubReads(ms, upto)
  }

  method Assemble(ms: seq<Message>) returns (out: seq<Message>)
    ensures Sends(ms, out)
    ensures exists upto :: IsPoint(ms, Total(ms) / 120_000 * 120_000, upto) && out == StubReads(ms, upto)
    ensures Total(ms) < STEP_CHARS ==> out == ms
  {
    var upto := RewritePoint(ms, STEP_CHARS);
    var replaced;
    out, replaced := StubSupersededReads(ms, upto);
    if Total(ms) < STEP_CHARS {
      BoundaryWithin(ms, STEP_CHARS);
      NothingBeforeStep(ms, upto);
    }
  }

  lemma NothingBeforeStep(ms: seq<Message>, upto: nat)
    requires Total(ms) < STEP_CHARS && IsPoint(ms, Boundary(ms, STEP_CHARS), upto)
    ensures StubReads(ms, upto) == ms
  {
    BelowStep(Total(ms), STEP_CHARS);
    PointAtStart(ms, upto);
    NothingStubbed(ms);
  }

  lemma BelowStep(total: nat, step: nat)
    requires total < step
    ensures total / step * step == 0
  {
  }

  lemma PointAtStart(ms: seq<Message>, n: nat)
    requires IsPoint(ms, 0, n)
    ensures n == 0
  {
    assert Total(ms[..0]) >= 0;
  }

  lemma NothingStubbed(ms: seq<Message>)
    ensures StubReads(ms, 0) == ms
  {
    var (superseded, asked) := Superseding(ms[..0]);
    assert StubAll(ms[..0], superseded, asked) == [];
    assert ms[0..] == ms;
  }

  /** What it sent is a prefix of what it sends next, until a whole step has been added. */
  lemma SentPrefixStays(ms: seq<Message>, more: seq<Message>, sent: seq<Message>, next: seq<Message>)
    requires Sends(ms, sent) && Sends(ms + more, next)
    requires Total(ms + more) < Boundary(ms, STEP_CHARS) + STEP_CHARS
    ensures next == sent + more
  {
    var before :| IsPoint(ms, Boundary(ms, STEP_CHARS), before) && sent == StubReads(ms, before);
    var after :| IsPoint(ms + more, Boundary(ms + more, STEP_CHARS), after) && next == StubReads(ms + more, after);
    PrefixStability(ms, more, STEP_CHARS, before, after);
  }
}
