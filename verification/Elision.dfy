/** Shrinking old tool output to stubs (crates/context/src/compaction.rs). */
module Elision {
  import opened Common
  import opened Text
  import opened Messages
  import opened Transcript
  import opened Compaction
  import opened CompactionValidity

  const ELIDE_MIN_CHARS: nat := 256
  const ELIDE_HEAD_CHARS: nat := 120
  const MAX_STAMP_CHARS: nat := 400
  const ELIDED_MARK: string := "result elided to save context"
  const STAMP_PREFIX: string := "[rusty:"

  // ----- recovery stamps

  /** Unicode white space, as `trim_end` strips it. */
  predicate IsWhite(c: char) {
    || '\U{9}' <= c <= '\U{D}' || c == ' ' || c == '\U{85}' || c == '\U{A0}' || c == '\U{1680}'
    || '\U{2000}' <= c <= '\U{200A}' || c == '\U{2028}' || c == '\U{2029}' || c == '\U{202F}'
    || c == '\U{205F}' || c == '\U{3000}'
  }

  function TrimEnd(s: string): (r: string)
    ensures r <= s
    ensures r == [] || !IsWhite(r[|r| - 1])
  {
    if s != [] && IsWhite(s[|s| - 1]) then TrimEnd(s[..|s| - 1]) else s
  }

  predicate IsStamp(line: string) {
    && StartsWith(line, STAMP_PREFIX)
    && line != [] && line[|line| - 1] == ']'
    && Utf8Len(line) <= MAX_STAMP_CHARS
  }

  /** The last line of `output` that is a stamp once its trailing white space is gone. */
  function RecoveryStamp(output: string): (r: Option<string>)
    ensures r.Some? ==> IsStamp(r.value) && '\n' !in r.value
    decreases |output|
  {
    match SplitLast(output, '\n')
    case None => var line := TrimEnd(output); if IsStamp(line) then Some(line) else None
    case Some((above, last)) => var line := TrimEnd(last); if IsStamp(line) then Some(line) else RecoveryStamp(above)
  }

  /** A stamp put on the last line is the stamp that is found. */
  lemma StampIsFound(above: string, stamp: string)
    requires IsStamp(stamp) && '\n' !in stamp
    ensures RecoveryStamp(above + ['\n'] + stamp) == Some(stamp)
  {
    SplitLastUnique(above, '\n', stamp);
  }

  // ----- stubs

  predicate IsElisionStub(output: string) {
    StartsWith(output, "[") && Contains(output, ELIDED_MARK)
  }

  predicate Elidable(output: string) {
    Utf8Len(output) > ELIDE_MIN_CHARS && !IsElisionStub(output)
  }

  function Head(output: string): string {
    if |output| <= ELIDE_HEAD_CHARS then output else output[..ELIDE_HEAD_CHARS]
  }

  /** The stub that replaces an output: tool and size, the head of the output, and its stamp. */
  function Stub(tool: string, result: ToolResultSummary): string {
    var opening := "[" + tool + " ";
    var size := " \U{2014} " + Decimal(Utf8Len(result.outputPreview)) + " chars" + (if result.hasError then ", error" else "") + "] ";
    var body := opening + ELIDED_MARK + (size + Head(result.outputPreview) + "\U{2026}");
    match RecoveryStamp(result.outputPreview)
    case None => body
    case Some(stamp) => body + ['\n'] + stamp
  }

  function ElideResult(tool: string, result: ToolResultSummary): ToolResultSummary {
    if Elidable(result.outputPreview) then result.(outputPreview := Stub(tool, result)) else result
  }

  lemma ContainsMiddle(a: string, part: string, b: string)
    ensures Contains(a + part + b, part)
  {
    assert (a + part + b)[|a|..] == part + b;
  }

  lemma ContainsLonger(s: string, part: string, more: string)
    requires Contains(s, part)
    ensures Contains(s + more, part)
  {
    var i :| 0 <= i <= |s| && part <= s[i..];
    assert (s + more)[i..] == s[i..] + more;
  }

  /** A stub is recognized as one, whatever the tool is called and whatever the output was. */
  lemma StubIsStub(tool: string, result: ToolResultSummary)
    ensures IsElisionStub(Stub(tool, result))
  {
    var opening := "[" + tool + " ";
    var size := " \U{2014} " + Decimal(Utf8Len(result.outputPreview)) + " chars" + (if result.hasError then ", error" else "") + "] ";
    var rest := size + Head(result.outputPreview) + "\U{2026}";
    var body := opening + ELIDED_MARK + rest;
    ContainsMiddle(opening, ELIDED_MARK, rest);
    assert body[0] == '[';
    match RecoveryStamp(result.outputPreview)
    case None =>
    case Some(stamp) =>
      ContainsLonger(body, ELIDED_MARK, ['\n'] + stamp);
      assert body + ['\n'] + stamp == body + (['\n'] + stamp);
  }

  /** Eliding is idempotent on each result. */
  lemma ElideOnce(tool: string, again: string, result: ToolResultSummary)
    ensures ElideResult(again, ElideResult(tool, result)) == ElideResult(tool, result)
  {
    if Elidable(result.outputPreview) {
      StubIsStub(tool, result);
    }
  }

  /** Output that was already shortened stays recoverable: its stamp is found in the elided output. */
  lemma StampSurvives(tool: string, result: ToolResultSummary)
    requires RecoveryStamp(result.outputPreview).Some?
    ensures RecoveryStamp(ElideResult(tool, result).outputPreview) == RecoveryStamp(result.outputPreview)
  {
    var stamp := RecoveryStamp(result.outputPreview).value;
    var stub := Stub(tool, result);
    var body := stub[..|stub| - |stamp| - 1];
    assert stub == body + ['\n'] + stamp;
    StampIsFound(body, stamp);
  }

  // ----- whole transcripts

  /** The tool each call names; the last use of an id wins. */
  function NamesIn(blocks: seq<Block>): map<CallId, string> {
    if blocks == [] then map[]
    else
      var before, b := NamesIn(blocks[..|blocks| - 1]), blocks[|blocks| - 1];
      if b.ToolUse? then before[b.call.id := b.call.name] else before
  }

  function Names(ms: seq<Message>): map<CallId, string> {
    if ms == [] then map[] else Names(ms[..|ms| - 1]) + NamesIn(ms[|ms| - 1].content)
  }

  function ToolOf(id: CallId, names: map<CallId, string>): string {
    if id in names then names[id] else "tool"
  }

  function ElideBlock(b: Block, names: map<CallId, string>): Block {
    if b.ToolResult? then b.(result := ElideResult(ToolOf(b.callId, names), b.result)) else b
  }

  function ElideMessage(m: Message, names: map<CallId, string>): Message {
    m.(content := seq(|m.content|, i requires 0 <= i < |m.content| => ElideBlock(m.content[i], names)))
  }

  /** Message `i` is old enough to be elided and not protected. */
  predicate MayElide(ms: seq<Message>, protectTail: nat, retention: Retention, i: nat)
    requires i < |ms|
  {
    i < |ms| - protectTail && !IsProtected(retention, ms, i)
  }

  function ElideAll(ms: seq<Message>, protectTail: nat, retention: Retention, names: map<CallId, string>): seq<Message> {
    seq(|ms|, i requires 0 <= i < |ms| => if MayElide(ms, protectTail, retention, i) then ElideMessage(ms[i], names) else ms[i])
  }

  /** How many results elision changes in some blocks. */
  function ElidableIn(blocks: seq<Block>): nat {
    if blocks == [] then 0
    else
      var b := blocks[|blocks| - 1];
      ElidableIn(blocks[..|blocks| - 1]) + if b.ToolResult? && Elidable(b.result.outputPreview) then 1 else 0
  }

  function ElidableCount(ms: seq<Message>, protectTail: nat, retention: Retention, n: nat): nat
    requires n <= |ms|
  {
    if n == 0 then 0
    else
      ElidableCount(ms, protectTail, retention, n - 1)
      + if MayElide(ms, protectTail, retention, n - 1) then ElidableIn(ms[n - 1].content) else 0
  }

  /** The loop computes `ElideAll` and the number of results it changes. */
  method ElideToolResults(ms: seq<Message>, protectTail: nat, retention: Retention) returns (out: seq<Message>, elided: nat)
    ensures out == ElideAll(ms, protectTail, retention, Names(ms))
    ensures elided == ElidableCount(ms, protectTail, retention, |ms|)
  {
    var names := Names(ms);
    out := [];
    elided := 0;
    for index := 0 to |ms|
      invariant out == ElideAll(ms, protectTail, retention, names)[..index]
      invariant elided == ElidableCount(ms, protectTail, retention, index)
    {
      if MayElide(ms, protectTail, retention, index) {
        var m, n := ElideBlocks(ms[index], names);
        out := out + [m];
        elided := elided + n;
      } else {
        out := out + [ms[index]];
      }
    }
  }

  method ElideBlocks(m: Message, names: map<CallId, string>) returns (out: Message, elided: nat)
    ensures out == ElideMessage(m, names) && elided == ElidableIn(m.content)
  {
    var blocks: seq<Block> := [];
    elided := 0;
    ghost var target := ElideMessage(m, names).content;
    for i := 0 to |m.content|
      invariant blocks == target[..i]
      invariant elided == ElidableIn(m.content[..i])
    {
      var block, n := ElideOne(m.content[i], names);
      ElidableNext(m.content, i);
      assert target[i] == block;
      blocks := blocks + [block];
      elided := elided + n;
    }
    assert m.content[..|m.content|] == m.content;
    assert blocks == target;
    out := m.(content := blocks);
  }

  method ElideOne(b: Block, names: map<CallId, string>) returns (out: Block, n: nat)
    ensures out == ElideBlock(b, names) && n == ElidableIn([b])
  {
    n := 0;
    out := ElideBlock(b, names);
    if b.ToolResult? && Elidable(b.result.outputPreview) {
      n := 1;
    }
    assert [b][..0] == [];
  }

  lemma ElidableNext(blocks: seq<Block>, i: nat)
    requires i < |blocks|
    ensures ElidableIn(blocks[..i + 1]) == ElidableIn(blocks[..i]) + ElidableIn([blocks[i]])
  {
    assert blocks[..i + 1][..i] == blocks[..i];
    assert [blocks[i]][..0] == [];
  }

  // ----- what elision leaves alone

  /** Same ids, roles, calls and results, message by message. */
  ghost predicate SameShape(a: seq<Message>, b: seq<Message>) {
    && |a| == |b|
    && forall i :: 0 <= i < |a| ==> a[i].id == b[i].id && a[i].role == b[i].role && UseIds(a[i]) == UseIds(b[i]) && ResultIds(a[i]) == ResultIds(b[i])
  }

  lemma {:induction false} ElideKeepsIds(blocks: seq<Block>, out: seq<Block>, names: map<CallId, string>)
    requires |out| == |blocks| && forall i :: 0 <= i < |blocks| ==> out[i] == ElideBlock(blocks[i], names)
    ensures UsesIn(out) == UsesIn(blocks) && ResultsIn(out) == ResultsIn(blocks)
  {
    if blocks != [] {
      ElideKeepsIds(blocks[..|blocks| - 1], out[..|out| - 1], names);
    }
  }

  lemma ElideKeepsShape(ms: seq<Message>, protectTail: nat, retention: Retention, names: map<CallId, string>)
    ensures SameShape(ms, ElideAll(ms, protectTail, retention, names))
  {
    var out := ElideAll(ms, protectTail, retention, names);
    forall i | 0 <= i < |ms|
      ensures UseIds(ms[i]) == UseIds(out[i]) && ResultIds(ms[i]) == ResultIds(out[i])
    {
      if MayElide(ms, protectTail, retention, i) {
        ElideKeepsIds(ms[i].content, out[i].content, names);
      }
    }
  }

  lemma {:induction false} SameRun(a: seq<Message>, b: seq<Message>)
    requires SameShape(a, b)
    ensures Run([], a) == Run([], b)
  {
    if a != [] {
      SameRun(a[..|a| - 1], b[..|b| - 1]);
    }
  }

  /** The validator and the properties compaction relies on do not see the output of tools. */
  lemma SameShapeSameRules(a: seq<Message>, b: seq<Message>)
    requires SameShape(a, b)
    ensures Accepts(a) <==> Accepts(b)
    ensures UniqueIds(a) ==> UniqueIds(b)
    ensures CompleteRounds(a) ==> CompleteRounds(b)
  {
    SameRun(a, b);
    if CompleteRounds(a) {
      forall i | 0 <= i < |b|
        ensures RoundGoesOn(b, i)
      {
        assert RoundGoesOn(a, i);
        SameRun(a[..i], b[..i]);
      }
    }
  }

  /** A second pass finds nothing to elide and changes nothing. */
  lemma ElidingTwice(ms: seq<Message>, protectTail: nat, retention: Retention, names: map<CallId, string>, again: map<CallId, string>)
    ensures var out := ElideAll(ms, protectTail, retention, names);
            && ElidableCount(out, protectTail, retention, |out|) == 0
            && ElideAll(out, protectTail, retention, again) == out
  {
    var out := ElideAll(ms, protectTail, retention, names);
    forall i | 0 <= i < |ms|
      ensures (if MayElide(out, protectTail, retention, i) then ElideMessage(out[i], again) else out[i]) == out[i]
    {
      if MayElide(out, protectTail, retention, i) {
        SameProtection(ms, protectTail, retention, names, i);
        ElideMessageOnce(ms[i], names, again);
      }
    }
    NothingElidable(ms, protectTail, retention, names, |ms|);
  }

  lemma {:induction false} NothingElidable(ms: seq<Message>, protectTail: nat, retention: Retention, names: map<CallId, string>, n: nat)
    requires n <= |ms|
    ensures ElidableCount(ElideAll(ms, protectTail, retention, names), protectTail, retention, n) == 0
  {
    if n > 0 {
      NothingElidable(ms, protectTail, retention, names, n - 1);
      SameProtection(ms, protectTail, retention, names, n - 1);
      BlocksElided(ms[n - 1], names, |ms[n - 1].content|);
      var blocks := ElideMessage(ms[n - 1], names).content;
      assert blocks[..|blocks|] == blocks;
    }
  }

  lemma {:induction false} BlocksElided(m: Message, names: map<CallId, string>, n: nat)
    requires n <= |m.content|
    ensures ElidableIn(ElideMessage(m, names).content[..n]) == 0
  {
    if n > 0 {
      BlocksElided(m, names, n - 1);
      var blocks := ElideMessage(m, names).content;
      ElidableNext(blocks, n - 1);
      BlockElided(m.content[n - 1], names);
    }
  }

  lemma BlockElided(b: Block, names: map<CallId, string>)
    ensures ElidableIn([ElideBlock(b, names)]) == 0
  {
    var out := ElideBlock(b, names);
    assert [out][..0] == [];
    if b.ToolResult? && Elidable(b.result.outputPreview) {
      StubIsStub(ToolOf(b.callId, names), b.result);
    }
  }

  lemma SameProtection(ms: seq<Message>, protectTail: nat, retention: Retention, names: map<CallId, string>, i: nat)
    requires i < |ms|
    ensures var out := ElideAll(ms, protectTail, retention, names);
            IsProtected(retention, out, i) <==> IsProtected(retention, ms, i)
  {
    var out := ElideAll(ms, protectTail, retention, names);
    assert forall j :: 0 <= j < |ms| ==> out[j].role == ms[j].role;
    if out[i].content != [] {
      assert out[i].content[0] == ms[i].content[0] || out[i].content[0] == ElideBlock(ms[i].content[0], names);
    }
  }

  lemma ElideMessageOnce(m: Message, names: map<CallId, string>, again: map<CallId, string>)
    ensures ElideMessage(ElideMessage(m, names), again) == ElideMessage(m, names)
  {
    var out := ElideMessage(m, names);
    forall i | 0 <= i < |m.content|
      ensures ElideBlock(out.content[i], again) == out.content[i]
    {
      var b := m.content[i];
      if b.ToolResult? {
        ElideOnce(ToolOf(b.callId, names), ToolOf(b.callId, again), b.result);
      }
    }
    assert ElideMessage(out, again).content == out.content;
  }

  // ----- both tiers together (crates/context/src/providers/truncating.rs)

  const IMAGE_CHARS: nat := 6_000

  function BlockChars(b: Block): nat {
    match b
    case Text(text) => Utf8Len(text)
    case ToolResult(_, result) => Utf8Len(result.outputPreview)
    case ToolUse(call) => Utf8Len(call.name) + Utf8Len(call.arguments.rendered)
    case Image(_, _) => IMAGE_CHARS
  }

  function CharsIn(blocks: seq<Block>): nat {
    if blocks == [] then 0 else CharsIn(blocks[..|blocks| - 1]) + BlockChars(blocks[|blocks| - 1])
  }

  function TotalChars(ms: seq<Message>): nat {
    if ms == [] then 0 else TotalChars(ms[..|ms| - 1]) + CharsIn(ms[|ms| - 1].content)
  }

  /** Compaction in two tiers, each only if the messages are still too long: eliding old output, then
      dropping a prefix. A valid transcript with unique ids and complete rounds stays valid, whatever
      is protected; with unique ids alone, its kept messages without the note are valid. */
  method Compact(ms: seq<Message>, maxChars: nat, keepRecent: nat, retention: Retention, note: nat -> Message)
    returns (out: seq<Message>, ghost elided: seq<Message>, ghost kept: seq<bool>)
    requires forall n :: note(n).role == System
    ensures elided == ElideAll(ms, keepRecent, retention, Names(ms))
    ensures TotalChars(ms) <= maxChars ==> out == ms
    ensures TotalChars(ms) > maxChars && (TotalChars(elided) <= maxChars || |ms| <= keepRecent) ==> out == elided
    ensures TotalChars(ms) > maxChars && TotalChars(elided) > maxChars && |ms| > keepRecent ==>
              && LeastClosed(elided, InitiallyKept(elided, keepRecent, retention), kept)
              && out == (if Dropped(kept) > 0 then WithNote(elided, kept, note(Dropped(kept))) else elided)
              && (Accepts(ms) && UniqueIds(ms) ==> Accepts(KeptOf(elided, kept)))
    ensures Accepts(ms) && UniqueIds(ms) && CompleteRounds(ms) ==> Accepts(out)
  {
    kept := [];
    elided := ElideAll(ms, keepRecent, retention, Names(ms));
    if TotalChars(ms) <= maxChars {
      return ms, elided, kept;
    }
    var shrunk, count := ElideToolResults(ms, keepRecent, retention);
    ElideKeepsShape(ms, keepRecent, retention, Names(ms));
    SameShapeSameRules(ms, shrunk);
    if TotalChars(shrunk) <= maxChars {
      return shrunk, elided, kept;
    }
    var dropped;
    out, dropped, kept := DropPrefix(shrunk, keepRecent, retention, note);
    if Accepts(ms) && UniqueIds(ms) && |ms| > keepRecent {
      KeptIsValid(shrunk, kept);
      if dropped > 0 && CompleteRounds(ms) {
        DropPreservesValidity(shrunk, kept, note(dropped));
      }
    }
  }
}
