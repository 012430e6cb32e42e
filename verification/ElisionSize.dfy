/** How much shorter elision makes a history, and when it makes it longer
    (crates/context/src/compaction.rs). */
module ElisionSize {
  import opened Common
  import opened Text
  import opened Messages
  import opened Compaction
  import opened Elision
  import Superseded

  // ----- one result

  /** What a stub has besides the head of the output: 47 bytes of fixed text, the tool, the size in
      decimal, the error tag, and the stamp on a line of its own. */
  function Overhead(tool: string, result: ToolResultSummary): nat {
    47 + Utf8Len(tool) + |Decimal(Utf8Len(result.outputPreview))| + (if result.hasError then 7 else 0)
    + match RecoveryStamp(result.outputPreview)
      case None => 0
      case Some(stamp) => 1 + Utf8Len(stamp)
  }

  /** What a stub leaves out: the output after its head. */
  function CutOff(output: string): nat {
    Utf8Len(output[|Head(output)|..])
  }

  predicate Ascii(s: string) {
    forall i :: 0 <= i < |s| ==> s[i] < '\U{80}'
  }

  lemma {:induction false} AsciiLen(s: string)
    requires Ascii(s)
    ensures Utf8Len(s) == |s|
  {
    if s != [] {
      AsciiLen(s[..|s| - 1]);
    }
  }

  lemma OneWide(c: char)
    ensures Utf8Len([c]) == Utf8Width(c)
  {
    assert [c][..0] == [];
  }

  lemma Utf8LenThree(a: string, b: string, c: string)
    ensures Utf8Len(a + b + c) == Utf8Len(a) + Utf8Len(b) + Utf8Len(c)
  {
    Utf8LenConcat(a + b, c);
    Utf8LenConcat(a, b);
  }

  lemma OpeningSize(tool: string)
    ensures Utf8Len("[" + tool + " ") == Utf8Len(tool) + 2
  {
    Utf8LenThree("[", tool, " ");
    OneWide('[');
    OneWide(' ');
  }

  lemma MarkSize()
    ensures Utf8Len(ELIDED_MARK) == 29
  {
    AsciiLen(ELIDED_MARK);
  }

  lemma DashSize()
    ensures Utf8Len(" \U{2014} ") == 5
  {
    Utf8LenThree(" ", "\U{2014}", " ");
    OneWide(' ');
    OneWide('\U{2014}');
    assert " " + "\U{2014}" + " " == " \U{2014} ";
  }

  lemma DigitsLen(n: nat)
    ensures Utf8Len(Decimal(n)) == |Decimal(n)|
  {
    assert forall i :: 0 <= i < |Decimal(n)| ==> IsDigit(Decimal(n)[i]);
    AsciiLen(Decimal(n));
  }

  lemma SizeSize(n: nat, error: bool)
    ensures Utf8Len(" \U{2014} " + Decimal(n) + " chars" + (if error then ", error" else "") + "] ")
         == 13 + |Decimal(n)| + if error then 7 else 0
  {
    var tag := if error then ", error" else "";
    Utf8LenThree(" \U{2014} " + Decimal(n) + " chars", tag, "] ");
    Utf8LenThree(" \U{2014} ", Decimal(n), " chars");
    DashSize();
    DigitsLen(n);
    AsciiLen(" chars");
    AsciiLen(tag);
    AsciiLen("] ");
  }

  lemma BodySize(opening: string, size: string, head: string)
    ensures Utf8Len(opening + ELIDED_MARK + (size + head + "\U{2026}"))
         == Utf8Len(opening) + 29 + Utf8Len(size) + Utf8Len(head) + 3
  {
    Utf8LenThree(opening, ELIDED_MARK, size + head + "\U{2026}");
    Utf8LenThree(size, head, "\U{2026}");
    MarkSize();
    OneWide('\U{2026}');
  }

  lemma StampSize(body: string, stamp: string)
    ensures Utf8Len(body + ['\n'] + stamp) == Utf8Len(body) + 1 + Utf8Len(stamp)
  {
    Utf8LenThree(body, ['\n'], stamp);
    OneWide('\n');
  }

  lemma StubSize(tool: string, result: ToolResultSummary)
    ensures Utf8Len(Stub(tool, result)) == Utf8Len(Head(result.outputPreview)) + Overhead(tool, result)
  {
    var n := Utf8Len(result.outputPreview);
    var opening := "[" + tool + " ";
    var size := " \U{2014} " + Decimal(n) + " chars" + (if result.hasError then ", error" else "") + "] ";
    var body := opening + ELIDED_MARK + (size + Head(result.outputPreview) + "\U{2026}");
    OpeningSize(tool);
    SizeSize(n, result.hasError);
    BodySize(opening, size, Head(result.outputPreview));
    match RecoveryStamp(result.outputPreview)
    case None =>
    case Some(stamp) => StampSize(body, stamp);
  }

  /** Eliding a result trades what is cut off for the overhead of the stub, so it shortens the result
      exactly when the overhead is the smaller of the two. */
  lemma ElidedIsShorterIff(tool: string, result: ToolResultSummary)
    requires Elidable(result.outputPreview)
    ensures
      var before, after := Utf8Len(result.outputPreview), Utf8Len(ElideResult(tool, result).outputPreview);
      && after + CutOff(result.outputPreview) == before + Overhead(tool, result)
      && (after < before <==> Overhead(tool, result) < CutOff(result.outputPreview))
  {
    var output := result.outputPreview;
    StubSize(tool, result);
    Utf8LenConcat(Head(output), output[|Head(output)|..]);
    assert Head(output) + output[|Head(output)|..] == output;
  }

  // ----- families that shrink and families that grow

  function Pow10(k: nat): nat {
    if k == 0 then 1 else 10 * Pow10(k - 1)
  }

  lemma {:induction false} DecimalFits(n: nat, k: nat)
    requires n < Pow10(k) && k > 0
    ensures |Decimal(n)| <= k
  {
    if n >= 10 {
      DecimalFits(n / 10, k - 1);
    }
  }

  lemma SizeFits(n: nat)
    requires n <= USIZE_MAX
    ensures |Decimal(n)| <= 20
  {
    assert Pow10(5) == 100_000;
    assert Pow10(10) == 100_000 * 100_000;
    assert Pow10(15) == 100_000 * 100_000 * 100_000;
    assert Pow10(20) == 100_000 * 100_000 * 100_000 * 100_000;
    DecimalFits(n, 20);
  }

  lemma {:induction false} WidthAtMostFour(s: string)
    ensures Utf8Len(s) <= 4 * |s|
  {
    if s != [] {
      WidthAtMostFour(s[..|s| - 1]);
    }
  }

  /** A stub is short, however long the output was. */
  lemma StubIsShort(tool: string, result: ToolResultSummary)
    requires Utf8Len(result.outputPreview) <= USIZE_MAX
    ensures Utf8Len(Stub(tool, result)) <= Utf8Len(tool) + 955
  {
    StubSize(tool, result);
    SizeFits(Utf8Len(result.outputPreview));
    WidthAtMostFour(Head(result.outputPreview));
  }

  /** So whatever it contains, output longer than that shrinks. */
  lemma LongOutputShrinks(tool: string, result: ToolResultSummary)
    requires Utf8Len(tool) + 955 < Utf8Len(result.outputPreview) <= USIZE_MAX && Elidable(result.outputPreview)
    ensures Utf8Len(ElideResult(tool, result).outputPreview) < Utf8Len(result.outputPreview)
  {
    StubIsShort(tool, result);
  }

  lemma {:induction false} DigitsAtMost(n: nat)
    requires n > 0
    ensures |Decimal(n)| <= n
  {
    if n >= 10 {
      DigitsAtMost(n / 10);
    }
  }

  lemma DigitsOf(n: nat)
    requires n > ELIDE_MIN_CHARS
    ensures |Decimal(n)| + 254 <= n
  {
    if n < 1000 {
      assert |Decimal(n / 10)| == |Decimal(n / 10 / 10)| + 1;
      assert |Decimal(n / 10 / 10)| == 1;
    } else {
      DigitsAtMost(n / 10);
    }
  }

  lemma AsciiCut(output: string)
    requires Ascii(output) && |output| > ELIDE_HEAD_CHARS
    ensures CutOff(output) == |output| - ELIDE_HEAD_CHARS
  {
    AsciiLen(output[ELIDE_HEAD_CHARS..]);
  }

  lemma AsciiOverhead(tool: string, result: ToolResultSummary)
    requires Utf8Len(result.outputPreview) > ELIDE_MIN_CHARS && RecoveryStamp(result.outputPreview).None? && Utf8Len(tool) < 80
    ensures Overhead(tool, result) < Utf8Len(result.outputPreview) - ELIDE_HEAD_CHARS
  {
    DigitsOf(Utf8Len(result.outputPreview));
  }

  /** Output of plain ASCII without a stamp always shrinks, if the tool has an ordinary name. */
  lemma AsciiShrinks(tool: string, result: ToolResultSummary)
    requires Elidable(result.outputPreview) && Ascii(result.outputPreview)
    requires RecoveryStamp(result.outputPreview).None? && Utf8Len(tool) < 80
    ensures Utf8Len(ElideResult(tool, result).outputPreview) < Utf8Len(result.outputPreview)
  {
    AsciiLen(result.outputPreview);
    AsciiCut(result.outputPreview);
    AsciiOverhead(tool, result);
    ElidedIsShorterIff(tool, result);
  }

  /** Output whose characters all fit in the head grows, whatever the tool is called. */
  lemma HeadOnlyGrows(tool: string, result: ToolResultSummary)
    requires Elidable(result.outputPreview) && |result.outputPreview| <= ELIDE_HEAD_CHARS
    ensures Utf8Len(ElideResult(tool, result).outputPreview) >= Utf8Len(result.outputPreview) + 48
  {
    var output := result.outputPreview;
    ElidedIsShorterIff(tool, result);
    assert output[|Head(output)|..] == [];
    assert Decimal(Utf8Len(output)) != [];
  }

  /** So does output that is a stamp and nothing else. */
  lemma StampAloneGrows(tool: string, result: ToolResultSummary)
    requires Elidable(result.outputPreview) && IsStamp(result.outputPreview) && '\n' !in result.outputPreview
    ensures Utf8Len(ElideResult(tool, result).outputPreview) > Utf8Len(result.outputPreview)
  {
    var output := result.outputPreview;
    assert TrimEnd(output) == output;
    assert RecoveryStamp(output) == Some(output);
    ElidedIsShorterIff(tool, result);
    Utf8LenConcat(Head(output), output[|Head(output)|..]);
    assert Head(output) + output[|Head(output)|..] == output;
  }

  function Repeated(c: char, n: nat): string {
    if n == 0 then "" else Repeated(c, n - 1) + [c]
  }

  lemma {:induction false} RepeatedSize(c: char, n: nat)
    ensures |Repeated(c, n)| == n && (n > 0 ==> Repeated(c, n)[0] == c)
    ensures Utf8Len(Repeated(c, n)) == n * Utf8Width(c)
  {
    if n > 0 {
      RepeatedSize(c, n - 1);
      Utf8LenConcat(Repeated(c, n - 1), [c]);
      OneWide(c);
      OneMore(n, Utf8Width(c));
    }
  }

  lemma OneMore(n: nat, w: nat)
    requires n > 0
    ensures (n - 1) * w + w == n * w
  {
  }

  /** An input: from 65 to 120 characters of four bytes grow. */
  lemma FourByteOutputGrows(tool: string, n: nat, error: bool)
    requires 65 <= n <= 120
    ensures
      var result := ToolResultSummary(error, Repeated('\U{1F600}', n));
      && Elidable(result.outputPreview)
      && Utf8Len(ElideResult(tool, result).outputPreview) > Utf8Len(result.outputPreview)
  {
    var output := Repeated('\U{1F600}', n);
    RepeatedSize('\U{1F600}', n);
    assert !StartsWith(output, "[") by {
      assert output[0] != '[';
    }
    HeadOnlyGrows(tool, ToolResultSummary(error, output));
  }

  // ----- whole histories

  /** What elision cuts off some blocks, and what its stubs add. */
  function CutIn(blocks: seq<Block>): nat {
    if blocks == [] then 0
    else
      var b := blocks[|blocks| - 1];
      CutIn(blocks[..|blocks| - 1])
      + if b.ToolResult? && Elidable(b.result.outputPreview) then CutOff(b.result.outputPreview) else 0
  }

  function AddedIn(blocks: seq<Block>, names: map<CallId, string>): nat {
    if blocks == [] then 0
    else
      var b := blocks[|blocks| - 1];
      AddedIn(blocks[..|blocks| - 1], names)
      + if b.ToolResult? && Elidable(b.result.outputPreview) then Overhead(ToolOf(b.callId, names), b.result) else 0
  }

  /** The same for the first `n` messages of a history. */
  function Cut(ms: seq<Message>, protectTail: nat, retention: Retention, n: nat): nat
    requires n <= |ms|
  {
    if n == 0 then 0
    else
      Cut(ms, protectTail, retention, n - 1)
      + if MayElide(ms, protectTail, retention, n - 1) then CutIn(ms[n - 1].content) else 0
  }

  function Added(ms: seq<Message>, protectTail: nat, retention: Retention, names: map<CallId, string>, n: nat): nat
    requires n <= |ms|
  {
    if n == 0 then 0
    else
      Added(ms, protectTail, retention, names, n - 1)
      + if MayElide(ms, protectTail, retention, n - 1) then AddedIn(ms[n - 1].content, names) else 0
  }

  lemma {:induction false} BlocksBalance(blocks: seq<Block>, out: seq<Block>, names: map<CallId, string>)
    requires |out| == |blocks| && forall i :: 0 <= i < |blocks| ==> out[i] == ElideBlock(blocks[i], names)
    ensures CharsIn(out) + CutIn(blocks) == CharsIn(blocks) + AddedIn(blocks, names)
  {
    if blocks != [] {
      var b := blocks[|blocks| - 1];
      BlocksBalance(blocks[..|blocks| - 1], out[..|out| - 1], names);
      if b.ToolResult? && Elidable(b.result.outputPreview) {
        ElidedIsShorterIff(ToolOf(b.callId, names), b.result);
      }
    }
  }

  lemma TotalPush(ms: seq<Message>, n: nat)
    requires n < |ms|
    ensures TotalChars(ms[..n + 1]) == TotalChars(ms[..n]) + CharsIn(ms[n].content)
  {
    assert ms[..n + 1][..n] == ms[..n];
  }

  lemma {:induction false} PrefixBalance(
    ms: seq<Message>, protectTail: nat, retention: Retention, names: map<CallId, string>, n: nat)
    requires n <= |ms|
    ensures
      TotalChars(ElideAll(ms, protectTail, retention, names)[..n]) + Cut(ms, protectTail, retention, n)
      == TotalChars(ms[..n]) + Added(ms, protectTail, retention, names, n)
  {
    if n > 0 {
      var out := ElideAll(ms, protectTail, retention, names);
      PrefixBalance(ms, protectTail, retention, names, n - 1);
      TotalPush(ms, n - 1);
      TotalPush(out, n - 1);
      BlocksBalance(ms[n - 1].content, ElideMessage(ms[n - 1], names).content, names);
    }
  }

  /** Elision changes the length of a history by what its stubs add less what they cut off. */
  lemma HistoryBalance(ms: seq<Message>, protectTail: nat, retention: Retention, names: map<CallId, string>)
    ensures
      var out := ElideAll(ms, protectTail, retention, names);
      TotalChars(out) + Cut(ms, protectTail, retention, |ms|) == TotalChars(ms) + Added(ms, protectTail, retention, names, |ms|)
  {
    var out := ElideAll(ms, protectTail, retention, names);
    PrefixBalance(ms, protectTail, retention, names, |ms|);
    assert ms[..|ms|] == ms && out[..|ms|] == out;
  }

  /** Every result that elision replaces has less overhead than it cuts off. */
  ghost predicate EachPays(blocks: seq<Block>, names: map<CallId, string>) {
    forall b <- blocks | b.ToolResult? && Elidable(b.result.outputPreview) ::
      Overhead(ToolOf(b.callId, names), b.result) < CutOff(b.result.outputPreview)
  }

  lemma {:induction false} PayingBlocks(blocks: seq<Block>, names: map<CallId, string>)
    requires EachPays(blocks, names)
    ensures AddedIn(blocks, names) + ElidableIn(blocks) <= CutIn(blocks)
  {
    if blocks != [] {
      PayingBlocks(blocks[..|blocks| - 1], names);
      assert blocks[|blocks| - 1] in blocks;
    }
  }

  lemma {:induction false} PayingMessages(
    ms: seq<Message>, protectTail: nat, retention: Retention, names: map<CallId, string>, n: nat)
    requires n <= |ms|
    requires forall i :: 0 <= i < |ms| && MayElide(ms, protectTail, retention, i) ==> EachPays(ms[i].content, names)
    ensures Added(ms, protectTail, retention, names, n) + ElidableCount(ms, protectTail, retention, n)
         <= Cut(ms, protectTail, retention, n)
  {
    if n > 0 {
      PayingMessages(ms, protectTail, retention, names, n - 1);
      if MayElide(ms, protectTail, retention, n - 1) {
        PayingBlocks(ms[n - 1].content, names);
      }
    }
  }

  /** When each replaced result pays, the history is shorter by at least one byte for each. */
  lemma HistoryShrinks(ms: seq<Message>, protectTail: nat, retention: Retention, names: map<CallId, string>)
    requires forall i :: 0 <= i < |ms| && MayElide(ms, protectTail, retention, i) ==> EachPays(ms[i].content, names)
    ensures TotalChars(ElideAll(ms, protectTail, retention, names)) + ElidableCount(ms, protectTail, retention, |ms|)
         <= TotalChars(ms)
  {
    HistoryBalance(ms, protectTail, retention, names);
    PayingMessages(ms, protectTail, retention, names, |ms|);
  }

  // ----- the two measures of a history

  function ImagesIn(blocks: seq<Block>): nat {
    if blocks == [] then 0 else ImagesIn(blocks[..|blocks| - 1]) + if blocks[|blocks| - 1].Image? then 1 else 0
  }

  function Images(ms: seq<Message>): nat {
    if ms == [] then 0 else Images(ms[..|ms| - 1]) + ImagesIn(ms[|ms| - 1].content)
  }

  lemma {:induction false} BlocksMeasured(blocks: seq<Block>)
    ensures CharsIn(blocks) == Superseded.SizeOf(blocks) + 6_000 * ImagesIn(blocks)
  {
    if blocks != [] {
      BlocksMeasured(blocks[..|blocks| - 1]);
    }
  }

  /** The budget of compaction and the steps of the read rewriter measure a history alike, save that one
      counts 6,000 for each image and the other nothing. */
  lemma {:induction false} MeasuresAgree(ms: seq<Message>)
    ensures TotalChars(ms) == Superseded.Total(ms) + 6_000 * Images(ms)
  {
    if ms != [] {
      MeasuresAgree(ms[..|ms| - 1]);
      BlocksMeasured(ms[|ms| - 1].content);
    }
  }

  /** A text counts its bytes, a call its name and arguments, a result its output. */
  lemma BlockMeasured(b: Block)
    ensures CharsIn([b])
         == match b
            case Text(text) => Utf8Len(text)
            case ToolResult(_, result) => Utf8Len(result.outputPreview)
            case ToolUse(call) => Utf8Len(call.name + call.arguments.rendered)
            case Image(_, _) => 6_000
  {
    assert [b][..0] == [];
    if b.ToolUse? {
      Utf8LenConcat(b.call.name, b.call.arguments.rendered);
    }
  }
}
