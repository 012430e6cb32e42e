/** Which results are elided and what their stubs say, in terms of the text (crates/context/src/compaction.rs). */
module Stubs {
  import opened Blocks
  import opened Common
  import opened Text
  import opened Messages
  import opened Compaction
  import opened Elision

  // ----- stamps

  /** The characters that count as white space at the end of a line. */
  const WHITE: set<char> := {
    '\U{9}', '\U{A}', '\U{B}', '\U{C}', '\U{D}', ' ', '\U{85}', '\U{A0}', '\U{1680}', '\U{2000}', '\U{2001}', '\U{2002}',
    '\U{2003}', '\U{2004}', '\U{2005}', '\U{2006}', '\U{2007}', '\U{2008}', '\U{2009}', '\U{200A}', '\U{2028}', '\U{2029}',
    '\U{202F}', '\U{205F}', '\U{3000}'}

  lemma WhiteMeans(c: char)
    ensures IsWhite(c) <==> c in WHITE
  {
    var n := c as int;
    assert '\U{9}' <= c <= '\U{D}' ==> n == 9 || n == 10 || n == 11 || n == 12 || n == 13;
    assert '\U{2000}' <= c <= '\U{200A}' ==>
        n == 0x2000 || n == 0x2001 || n == 0x2002 || n == 0x2003 || n == 0x2004 || n == 0x2005 || n == 0x2006 || n == 0x2007
        || n == 0x2008 || n == 0x2009 || n == 0x200A;
  }

  /** `text` is `line` without the white space at its end. */
  ghost predicate Trimmed(line: string, text: string) {
    && text <= line && (text == "" || text[|text| - 1] !in WHITE)
    && forall i :: |text| <= i < |line| ==> line[i] in WHITE
  }

  lemma {:induction false} TrimMeans(line: string)
    ensures Trimmed(line, TrimEnd(line))
  {
    if line != [] {
      WhiteMeans(line[|line| - 1]);
      if IsWhite(line[|line| - 1]) {
        TrimMeans(line[..|line| - 1]);
      }
    }
  }

  lemma LongerEndsWhite(line: string, a: string, b: string)
    requires a <= line && b <= line && |a| < |b| && forall i :: |a| <= i < |line| ==> line[i] in WHITE
    ensures b[|b| - 1] in WHITE
  {
    assert b[|b| - 1] == line[|b| - 1];
  }

  lemma TrimmedOnce(line: string, a: string, b: string)
    requires Trimmed(line, a) && Trimmed(line, b)
    ensures a == b
  {
    if |a| < |b| {
      LongerEndsWhite(line, a, b);
    } else if |b| < |a| {
      LongerEndsWhite(line, b, a);
    }
    assert a == line[..|a|] && b == line[..|b|];
  }

  /** A stamp is one line in brackets that a host has signed, of at most 400 bytes. */
  ghost predicate Stamp(text: string) {
    "[rusty:" <= text && text[|text| - 1] == ']' && Utf8Len(text) <= 400
  }

  /** `output` has this line, with `above` before it and `below` after it, each with its newline. */
  ghost predicate LineOf(output: string, above: string, line: string, below: string) {
    && output == above + line + below && '\n' !in line
    && (above == "" || above[|above| - 1] == '\n') && (below == "" || below[0] == '\n')
  }

  /** No line of the text is a stamp. */
  ghost predicate NoStamps(text: string) {
    forall above, line, below, s :: LineOf(text, above, line, below) && Trimmed(line, s) ==> !Stamp(s)
  }

  /** `stamp` is on the last line of the output that has one. */
  ghost predicate LastStamp(output: string, stamp: string) {
    exists above, line, below ::
      && LineOf(output, above, line, below) && Trimmed(line, stamp) && Stamp(stamp)
      && (below == "" || NoStamps(below[1..]))
  }

  lemma StampMeans(text: string)
    ensures IsStamp(text) <==> Stamp(text)
  {
  }

  lemma {:induction false} StampFoundMeans(output: string)
    ensures match RecoveryStamp(output) case Some(stamp) => LastStamp(output, stamp) case None => NoStamps(output)
    decreases |output|
  {
    match SplitLast(output, '\n')
    case None =>
      OnlyLine(output);
    case Some((above, last)) =>
      assert output == above + ['\n'] + last;
      StampFoundMeans(above);
      LastLine(output, above, last);
  }

  /** The characters of a line and around it, in the text. */
  lemma CharsOfLine(output: string, above: string, line: string, below: string)
    requires LineOf(output, above, line, below)
    ensures above != "" ==> output[|above| - 1] == '\n'
    ensures below != "" ==> output[|above| + |line|] == '\n'
    ensures forall k :: |above| <= k < |above| + |line| ==> output[k] != '\n'
    ensures line == output[|above|..|above| + |line|]
  {
    assert forall k :: |above| <= k < |above| + |line| ==> output[k] == line[k - |above|];
  }

  lemma WholeLine(output: string, above: string, line: string, below: string)
    requires '\n' !in output && LineOf(output, above, line, below)
    ensures line == output
  {
    CharsOfLine(output, above, line, below);
  }

  lemma OnlyLine(output: string)
    requires '\n' !in output
    ensures IsStamp(TrimEnd(output)) ==> LastStamp(output, TrimEnd(output))
    ensures !IsStamp(TrimEnd(output)) ==> NoStamps(output)
  {
    TrimMeans(output);
    StampMeans(TrimEnd(output));
    assert LineOf(output, "", output, "");
    forall above, line, below, s | LineOf(output, above, line, below) && Trimmed(line, s)
      ensures s == TrimEnd(output)
    {
      WholeLine(output, above, line, below);
      TrimmedOnce(output, s, TrimEnd(output));
    }
  }

  lemma LastLine(output: string, above: string, last: string)
    requires output == above + ['\n'] + last && '\n' !in last
    ensures IsStamp(TrimEnd(last)) ==> LastStamp(output, TrimEnd(last))
    ensures !IsStamp(TrimEnd(last)) && NoStamps(above) ==> NoStamps(output)
    ensures forall stamp :: !IsStamp(TrimEnd(last)) && LastStamp(above, stamp) ==> LastStamp(output, stamp)
  {
    TrimMeans(last);
    StampMeans(TrimEnd(last));
    assert LineOf(output, above + ['\n'], last, "");
    if !IsStamp(TrimEnd(last)) {
      if NoStamps(above) {
        NoStampsBelow(output, above, last);
      }
      forall stamp | LastStamp(above, stamp)
        ensures LastStamp(output, stamp)
      {
        StampAbove(output, above, last, stamp);
      }
    }
  }

  lemma NoStampsBelow(output: string, above: string, last: string)
    requires output == above + ['\n'] + last && '\n' !in last && !IsStamp(TrimEnd(last)) && NoStamps(above)
    ensures NoStamps(output)
  {
    TrimMeans(last);
    StampMeans(TrimEnd(last));
    forall a, line, b, s | LineOf(output, a, line, b) && Trimmed(line, s)
      ensures !Stamp(s)
    {
      AboveOrLast(output, above, last, a, line, b);
      if line == last && a == above + ['\n'] {
        TrimmedOnce(last, s, TrimEnd(last));
      }
    }
  }

  /** A line of a text is a line above its last newline or the line after it. */
  lemma AboveOrLast(output: string, above: string, last: string, a: string, line: string, b: string)
    requires output == above + ['\n'] + last && '\n' !in last && LineOf(output, a, line, b)
    ensures (a == above + ['\n'] && line == last && b == "") || (|b| >= |last| + 1 && LineOf(above, a, line, b[..|b| - |last| - 1]))
  {
    var n := |above|;
    CharsOfLine(output, a, line, b);
    assert output[n] == '\n';
    assert forall k :: n < k < |output| ==> output[k] == last[k - n - 1];
    if |a| > n {
      assert |a| == n + 1;
      assert a == output[..n + 1] == above + ['\n'];
      assert b == "";
      assert line == output[n + 1..] == last;
    } else {
      LineAbove(output, above, last, a, line, b);
    }
  }

  lemma LineAbove(output: string, above: string, last: string, a: string, line: string, b: string)
    requires output == above + ['\n'] + last && LineOf(output, a, line, b) && |a| <= |above|
    ensures |b| >= |last| + 1 && LineOf(above, a, line, b[..|b| - |last| - 1])
  {
    CharsOfLine(output, a, line, b);
    assert output[|above|] == '\n';
    var end := |a| + |line|;
    assert end <= |above|;
    var c := b[..|b| - |last| - 1];
    assert b == output[end..] && c == above[end..];
    assert above == a + line + c;
  }

  lemma StampAbove(output: string, above: string, last: string, stamp: string)
    requires output == above + ['\n'] + last && '\n' !in last && !IsStamp(TrimEnd(last)) && LastStamp(above, stamp)
    ensures LastStamp(output, stamp)
  {
    var a, line, b :|
      && LineOf(above, a, line, b) && Trimmed(line, stamp) && Stamp(stamp)
      && (b == "" || NoStamps(b[1..]));
    var c := b + ['\n'] + last;
    assert output == a + line + c;
    assert LineOf(output, a, line, c);
    if b == "" {
      assert c[1..] == last;
      OnlyLine(last);
    } else {
      assert c[1..] == b[1..] + ['\n'] + last;
      NoStampsBelow(c[1..], b[1..], last);
    }
    assert NoStamps(c[1..]);
  }

  // ----- stubs

  /** The output is already a stub. */
  ghost predicate ReadsAsStub(output: string) {
    "[" <= output && exists a, b :: output == a + "result elided to save context" + b
  }

  /** At most the first 120 characters. */
  ghost function Opening(output: string): string {
    output[..if |output| < 120 then |output| else 120]
  }

  /** The last stamp of the output on a line of its own, if it has one. */
  ghost predicate StampLine(output: string, text: string) {
    (text == "" && NoStamps(output)) || exists stamp :: LastStamp(output, stamp) && text == "\n" + stamp
  }

  ghost function Written(tool: string, size: string, error: bool, opening: string, stamp: string): string {
    "[" + tool + " result elided to save context \U{2014} " + size + " chars"
    + ((if error then ", error" else "") + "] " + opening + "\U{2026}") + stamp
  }

  /** `text` names the tool and the size, says whether the call failed, and keeps how the output starts
      and its stamp. */
  ghost predicate StubFor(tool: string, result: ToolResultSummary, text: string) {
    exists stamp ::
      && StampLine(result.outputPreview, stamp)
      && text == Written(
                   tool, Decimal(Utf8Len(result.outputPreview)), result.hasError, Opening(result.outputPreview), stamp)
  }

  lemma MarkMeans(output: string)
    ensures IsElisionStub(output) <==> ReadsAsStub(output)
  {
    if Contains(output, ELIDED_MARK) {
      var i :| 0 <= i <= |output| && ELIDED_MARK <= output[i..];
      MarkedAt(output, i);
    }
    if a, b :| output == a + "result elided to save context" + b {
      assert output[|a|..] == ELIDED_MARK + b;
    }
  }

  lemma MarkedAt(output: string, i: nat)
    requires i <= |output| && ELIDED_MARK <= output[i..]
    ensures exists a, b :: output == a + "result elided to save context" + b
  {
    var rest := output[i..];
    assert rest == ELIDED_MARK + rest[|ELIDED_MARK|..];
    assert output == output[..i] + ELIDED_MARK + rest[|ELIDED_MARK|..];
  }

  /** The stamp of an output on a line of its own. */
  function StampText(output: string): string {
    match RecoveryStamp(output)
    case None => ""
    case Some(stamp) => "\n" + stamp
  }

  function BodyText(tool: string, size: string, tag: string, head: string): string {
    "[" + tool + " " + ELIDED_MARK + (" \U{2014} " + size + " chars" + tag + "] " + head + "\U{2026}")
  }

  lemma StubIsBodyAndStamp(tool: string, result: ToolResultSummary)
    ensures Stub(tool, result)
         == BodyText(
              tool, Decimal(Utf8Len(result.outputPreview)), if result.hasError then ", error" else "",
              Head(result.outputPreview)) + StampText(result.outputPreview)
  {
    var body := BodyText(
      tool, Decimal(Utf8Len(result.outputPreview)), if result.hasError then ", error" else "", Head(result.outputPreview));
    match RecoveryStamp(result.outputPreview)
    case None =>
    case Some(stamp) => OnItsOwnLine(body, stamp);
  }

  lemma OnItsOwnLine(body: string, stamp: string)
    ensures body + ['\n'] + stamp == body + ("\n" + stamp)
  {
  }

  lemma BodyReads(tool: string, size: string, tag: string, head: string)
    ensures BodyText(tool, size, tag, head)
         == "[" + tool + " result elided to save context \U{2014} " + size + " chars" + (tag + "] " + head + "\U{2026}")
  {
    MarkBetween();
    Joined("[" + tool, " ", ELIDED_MARK, " \U{2014} ", size + " chars", tag + "] " + head + "\U{2026}");
    assert " \U{2014} " + size + " chars" + tag + "] " + head + "\U{2026}"
        == " \U{2014} " + (size + " chars") + (tag + "] " + head + "\U{2026}");
    assert "[" + tool + " result elided to save context \U{2014} " + size + " chars"
        == "[" + tool + " result elided to save context \U{2014} " + (size + " chars");
  }

  lemma MarkBetween()
    ensures " " + ELIDED_MARK + " \U{2014} " == " result elided to save context \U{2014} "
  {
  }

  lemma Joined(a: string, b: string, c: string, d: string, e: string, f: string)
    ensures a + b + c + (d + e + f) == a + (b + c + d) + e + f
  {
  }

  lemma StubIsWritten(tool: string, result: ToolResultSummary)
    ensures Stub(tool, result)
         == Written(
              tool, Decimal(Utf8Len(result.outputPreview)), result.hasError, Opening(result.outputPreview),
              StampText(result.outputPreview))
  {
    StubIsBodyAndStamp(tool, result);
    BodyReads(
      tool, Decimal(Utf8Len(result.outputPreview)), if result.hasError then ", error" else "", Head(result.outputPreview));
  }

  lemma StampTextMeans(output: string)
    ensures StampLine(output, StampText(output)) == true
  {
    StampFoundMeans(output);
  }

  lemma StubMeans(tool: string, result: ToolResultSummary)
    ensures StubFor(tool, result, Stub(tool, result)) == true
  {
    StampTextMeans(result.outputPreview);
    StubIsWritten(tool, result);
  }

  // ----- whole histories

  ghost function NamedBy(): Gift<string> {
    (b: Block) => if b.ToolUse? then Some((b.call.id, b.call.name)) else None
  }

  /** The tool that the last call of this id names; just "tool" for a call that nothing makes. */
  ghost predicate NamesTool(ms: seq<Message>, id: CallId, tool: string) {
    LastGiven(NamedBy(), ms, id, tool) || (NeverGiven(NamedBy(), ms, id) && tool == "tool")
  }

  lemma {:induction false} NamesInIsTable(blocks: seq<Block>)
    ensures NamesIn(blocks) == TableIn(NamedBy(), blocks)
  {
    if blocks != [] {
      NamesInIsTable(blocks[..|blocks| - 1]);
    }
  }

  lemma {:induction false} NamesIsTable(ms: seq<Message>)
    ensures Names(ms) == TableOf(NamedBy(), ms)
  {
    if ms != [] {
      NamesIsTable(ms[..|ms| - 1]);
      NamesInIsTable(ms[|ms| - 1].content);
    }
  }

  lemma ToolMeans(ms: seq<Message>, id: CallId)
    ensures NamesTool(ms, id, ToolOf(id, Names(ms)))
  {
    NamesIsTable(ms);
    TableMeans(NamedBy(), ms, id);
  }

  /** What becomes of a block: a result over 256 bytes that is no stub yet becomes one. */
  ghost predicate Shrunk(ms: seq<Message>, b: Block, out: Block) {
    if b.ToolResult? && Utf8Len(b.result.outputPreview) > 256 && !ReadsAsStub(b.result.outputPreview) then
      exists tool, text ::
        && NamesTool(ms, b.callId, tool) && StubFor(tool, b.result, text)
        && out == ToolResult(b.callId, ToolResultSummary(b.result.hasError, text))
    else out == b
  }

  lemma BlockShrunk(ms: seq<Message>, b: Block)
    ensures Shrunk(ms, b, ElideBlock(b, Names(ms)))
  {
    if b.ToolResult? {
      MarkMeans(b.result.outputPreview);
      ToolMeans(ms, b.callId);
      StubMeans(ToolOf(b.callId, Names(ms)), b.result);
      assert StubFor(ToolOf(b.callId, Names(ms)), b.result, Stub(ToolOf(b.callId, Names(ms)), b.result));
    }
  }

  /** Elision leaves every message alone that is kept for itself, and of the others changes exactly the
      large results that are no stubs yet. */
  lemma ElisionMeans(ms: seq<Message>, protectTail: nat, retention: Retention, i: nat)
    requires i < |ms|
    ensures
      var out := ElideAll(ms, protectTail, retention, Names(ms));
      && |out| == |ms|
      && (KeptForItself(ms, protectTail, retention, i) ==> out[i] == ms[i])
      && (!KeptForItself(ms, protectTail, retention, i) ==>
            && out[i].id == ms[i].id && out[i].role == ms[i].role && |out[i].content| == |ms[i].content|
            && forall j :: 0 <= j < |ms[i].content| ==> Shrunk(ms, ms[i].content[j], out[i].content[j]))
  {
    var out := ElideAll(ms, protectTail, retention, Names(ms));
    SeedMeans(ms, protectTail, retention, i);
    forall j | 0 <= j < |ms[i].content|
      ensures Shrunk(ms, ms[i].content[j], ElideMessage(ms[i], Names(ms)).content[j])
    {
      BlockShrunk(ms, ms[i].content[j]);
    }
  }
}
