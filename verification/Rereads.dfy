/** Which reads are replaced, in terms of the blocks of a history (crates/context/src/superseded.rs). */
module Rereads {
  import opened Blocks
  import opened Common
  import opened Messages
  import opened Sorting
  import opened Superseded
  import opened Text

  // ----- what a call asks to read

  /** Position `p` has the first field with a key. */
  ghost predicate FirstField(fields: seq<(string, JsonValue)>, key: string, p: nat) {
    p < |fields| && fields[p].0 == key && forall q :: 0 <= q < p ==> fields[q].0 != key
  }

  /** The field that names the file: the path, or where there is none the file path. */
  ghost predicate NamesFile(fields: seq<(string, JsonValue)>, text: string) {
    exists p: nat ::
      && (FirstField(fields, "path", p) || (FirstField(fields, "file_path", p) && forall f <- fields :: f.0 != "path"))
      && fields[p].1.asText == Some(text)
  }

  function DotSlashes(n: nat): string {
    if n == 0 then "" else "./" + DotSlashes(n - 1)
  }

  /** `path` is `text` without any leading "./". */
  ghost predicate Stripped(text: string, path: string) {
    !("./" <= path) && exists n: nat :: text == DotSlashes(n) + path
  }

  /** "key=value" of each field, with "&" between them. */
  function Listing(fields: seq<(string, JsonValue)>): string {
    if fields == [] then ""
    else
      var last := fields[|fields| - 1].0 + "=" + fields[|fields| - 1].1.rendered;
      if |fields| == 1 then last else Listing(fields[..|fields| - 1]) + "&" + last
  }

  /** `others` are the fields that do not name the file, by key. */
  ghost predicate OtherFields(fields: seq<(string, JsonValue)>, others: seq<(string, JsonValue)>) {
    && (forall f <- others :: f.0 != "path" && f.0 != "file_path")
    && (forall f :: multiset(others)[f] == if f.0 == "path" || f.0 == "file_path" then 0 else multiset(fields)[f])
    && (forall k, l :: 0 <= k < l < |others| ==> NotAfter(others[k].0, others[l].0))
  }

  /** What some arguments ask for: the file, and the listing of everything else. */
  ghost predicate AsksFor(arguments: Arguments, read: Read) {
    && arguments.fields.Some?
    && var fields := arguments.fields.value;
       && (exists text :: NamesFile(fields, text) && Stripped(text, read.path))
       && exists others :: OtherFields(fields, others) && read.scope == Listing(others)
  }

  lemma {:induction false} FieldMeans(fields: seq<(string, JsonValue)>, key: string)
    ensures Field(fields, key).None? <==> forall f <- fields :: f.0 != key
    ensures Field(fields, key).Some? ==> exists p: nat :: FirstField(fields, key, p) && fields[p].1 == Field(fields, key).value
  {
    if fields != [] && fields[0].0 != key {
      FieldMeans(fields[1..], key);
      assert fields == [fields[0]] + fields[1..];
      if Field(fields, key).Some? {
        var p: nat :| FirstField(fields[1..], key, p) && fields[1..][p].1 == Field(fields, key).value;
        LaterField(fields, key, p);
      }
    } else if fields != [] {
      assert FirstField(fields, key, 0);
    }
  }

  lemma LaterField(fields: seq<(string, JsonValue)>, key: string, p: nat)
    requires fields != [] && fields[0].0 != key && FirstField(fields[1..], key, p)
    ensures FirstField(fields, key, p + 1) && fields[p + 1] == fields[1..][p]
  {
    forall q | 0 <= q < p + 1
      ensures fields[q].0 != key
    {
      assert q == 0 || fields[q] == fields[1..][q - 1];
    }
  }

  lemma {:induction false} TrimMeans(text: string)
    ensures Stripped(text, TrimDotSlash(text)) == true
    decreases |text|
  {
    if |text| >= 2 && text[0] == '.' && text[1] == '/' {
      TrimMeans(text[2..]);
      OneMoreStripped(text, TrimDotSlash(text));
    } else {
      NothingStripped(text);
    }
  }

  lemma OneMoreStripped(text: string, path: string)
    requires |text| >= 2 && text[0] == '.' && text[1] == '/' && Stripped(text[2..], path)
    ensures Stripped(text, path)
  {
    var n: nat :| text[2..] == DotSlashes(n) + path;
    Associative("./", DotSlashes(n), path);
    StartSplit(text);
    assert text == DotSlashes(n + 1) + path;
  }

  lemma StartSplit(text: string)
    requires |text| >= 2 && text[0] == '.' && text[1] == '/'
    ensures text == "./" + text[2..]
  {
  }

  lemma NothingStripped(text: string)
    requires !(|text| >= 2 && text[0] == '.' && text[1] == '/')
    ensures Stripped(text, text)
  {
    assert text == DotSlashes(0) + text;
  }

  lemma {:induction false} JoinPush(fields: seq<(string, JsonValue)>, f: (string, JsonValue))
    requires fields != []
    ensures JoinFields(fields + [f]) == JoinFields(fields) + "&" + (f.0 + "=" + f.1.rendered)
  {
    var all := fields + [f];
    if |fields| == 1 {
      assert all[1..] == [f];
    } else {
      JoinPush(fields[1..], f);
      assert all[1..] == fields[1..] + [f];
    }
  }

  lemma {:induction false} JoinIsListing(fields: seq<(string, JsonValue)>)
    ensures JoinFields(fields) == Listing(fields)
  {
    if |fields| > 1 {
      var init, last := fields[..|fields| - 1], fields[|fields| - 1];
      JoinIsListing(init);
      JoinPush(init, last);
      assert fields == init + [last];
    }
  }

  lemma KeyOrder()
    ensures TotalPreorder(KeyLe)
  {
    forall a: (string, JsonValue), b: (string, JsonValue)
      ensures KeyLe(a, b) || KeyLe(b, a)
    {
      LexTotal(a.0, b.0);
    }
    forall a: (string, JsonValue), b: (string, JsonValue), c: (string, JsonValue) | KeyLe(a, b) && KeyLe(b, c)
      ensures KeyLe(a, c)
    {
      LexTransitive(a.0, b.0, c.0);
    }
  }

  lemma {:induction false} FilterCounts<T>(p: T -> bool, s: seq<T>, x: T)
    ensures multiset(Filter(p, s))[x] == if p(x) then multiset(s)[x] else 0
  {
    if s != [] {
      FilterCounts(p, s[1..], x);
      FilterStep(p, s);
      assert s == [s[0]] + s[1..];
    }
  }

  lemma ScopeMeans(fields: seq<(string, JsonValue)>)
    ensures OtherFields(fields, StableSort(KeyLe, Filter(IsScopeField, fields)))
  {
    var rest := Filter(IsScopeField, fields);
    var others := StableSort(KeyLe, rest);
    KeyOrder();
    SortIsSorted(KeyLe, rest);
    SortIsPermutation(KeyLe, rest);
    forall f: (string, JsonValue)
      ensures multiset(others)[f] == if f.0 == "path" || f.0 == "file_path" then 0 else multiset(fields)[f]
    {
      FilterCounts(IsScopeField, fields, f);
    }
    forall f <- others
      ensures f.0 != "path" && f.0 != "file_path"
    {
      assert multiset(others)[f] > 0;
    }
    forall k, l | 0 <= k < l < |others|
      ensures NotAfter(others[k].0, others[l].0)
    {
      assert KeyLe(others[k], others[l]);
      LexMeans(others[k].0, others[l].0);
    }
  }

  /** What the arguments ask for, and nothing when they name no file. */
  lemma ReadMeans(arguments: Arguments)
    ensures ReadOf(arguments).Some? <==> arguments.fields.Some? && exists text :: NamesFile(arguments.fields.value, text)
    ensures ReadOf(arguments).Some? ==> AsksFor(arguments, ReadOf(arguments).value)
  {
    if arguments.fields.Some? {
      var fields := arguments.fields.value;
      FieldMeans(fields, "path");
      FieldMeans(fields, "file_path");
      NamedBy(fields);
      if ReadOf(arguments).Some? {
        var text :| NamesFile(fields, text) && ReadOf(arguments).value.path == TrimDotSlash(text);
        TrimMeans(text);
        ScopeMeans(fields);
        JoinIsListing(StableSort(KeyLe, Filter(IsScopeField, fields)));
      }
    }
  }

  /** The field looked up is the one that names the file. */
  lemma NamedBy(fields: seq<(string, JsonValue)>)
    ensures
      var named := if Field(fields, "path").Some? then Field(fields, "path") else Field(fields, "file_path");
      forall text :: NamesFile(fields, text) <==> named.Some? && named.value.asText == Some(text)
  {
    FieldMeans(fields, "path");
    FieldMeans(fields, "file_path");
    var named := if Field(fields, "path").Some? then Field(fields, "path") else Field(fields, "file_path");
    var key := if Field(fields, "path").Some? then "path" else "file_path";
    forall text
      ensures NamesFile(fields, text) <==> named.Some? && named.value.asText == Some(text)
    {
      if NamesFile(fields, text) {
        var p: nat :|
          && (FirstField(fields, "path", p) || (FirstField(fields, "file_path", p) && forall f <- fields :: f.0 != "path"))
          && fields[p].1.asText == Some(text);
        assert fields[p] in fields && FirstField(fields, key, p);
        var q: nat :| FirstField(fields, key, q) && fields[q].1 == named.value;
        assert p == q;
      }
    }
  }

  lemma {:induction false} ListingIsEmpty(fields: seq<(string, JsonValue)>)
    ensures Listing(fields) == "" <==> fields == []
  {
  }

  /** A read covers an earlier one exactly when both name one file and it asks for nothing but the file,
      or for the same. So a read of a part never covers a read of the whole file. */
  lemma CoversMeans(later: Read, earlier: Read, others: seq<(string, JsonValue)>)
    requires later.scope == Listing(others)
    ensures later.Supersedes(earlier) <==> later.path == earlier.path && (others == [] || later.scope == earlier.scope)
    ensures others != [] && earlier.scope == "" ==> !later.Supersedes(earlier)
  {
    ListingIsEmpty(others);
  }

  // ----- which results are replaced

  /** What a call to a tool that reads files asks to read. */
  ghost function AskedBy(): Gift<Read> {
    (b: Block) =>
      if b.ToolUse? && (b.call.name == "read_file" || b.call.name == "fs.read") && ReadOf(b.call.arguments).Some?
      then Some((b.call.id, ReadOf(b.call.arguments).value)) else None
  }

  /** The last call of this id that reads a file, reads `read`. */
  ghost predicate LastAsked(ms: seq<Message>, id: CallId, read: Read) {
    LastGiven(AskedBy(), ms, id, read)
  }

  /** The block is the result of a read that did not fail. */
  ghost predicate SucceedsAt(ms: seq<Message>, at: (nat, nat), id: CallId, read: Read) {
    && IsBlock(ms, at) && BlockAt(ms, at).ToolResult? && BlockAt(ms, at).callId == id && !BlockAt(ms, at).result.hasError
    && LastAsked(ms, id, read)
  }

  /** After some result of the call, another read has a result that covers it. */
  ghost predicate ReadAgain(ms: seq<Message>, id: CallId, read: Read) {
    exists at: (nat, nat), later: (nat, nat), newer, again ::
      && SucceedsAt(ms, at, id, read) && SucceedsAt(ms, later, newer, again) && Earlier(at, later)
      && again.path == read.path && (again.scope == "" || again.scope == read.scope)
  }

  lemma {:induction false} ReadsInIsTable(blocks: seq<Block>)
    ensures ReadsIn(blocks) == TableIn(AskedBy(), blocks)
  {
    if blocks != [] {
      ReadsInIsTable(blocks[..|blocks| - 1]);
    }
  }

  lemma {:induction false} ReadsIsTable(ms: seq<Message>)
    ensures ReadsOf(ms) == TableOf(AskedBy(), ms)
  {
    if ms != [] {
      ReadsIsTable(ms[..|ms| - 1]);
      ReadsInIsTable(ms[|ms| - 1].content);
    }
  }

  /** The table of reads holds exactly what was asked last. */
  lemma AskedMeans(ms: seq<Message>, id: CallId, read: Read)
    ensures LastAsked(ms, id, read) <==> id in ReadsOf(ms) && ReadsOf(ms)[id] == read
  {
    ReadsIsTable(ms);
    TableMeans(AskedBy(), ms, id);
  }

  // ----- the order of the results

  function ResultsAt(blocks: seq<Block>, asked: Reads, i: nat): seq<(nat, nat)> {
    if blocks == [] then []
    else
      var j := |blocks| - 1;
      ResultsAt(blocks[..j], asked, i)
      + if blocks[j].ToolResult? && blocks[j].callId in asked && !blocks[j].result.hasError then [(i, j)] else []
  }

  /** The blocks that `OrderOf` lists the calls of. */
  function Places(ms: seq<Message>, asked: Reads): seq<(nat, nat)> {
    if ms == [] then []
    else
      var i := |ms| - 1;
      Places(ms[..i], asked) + ResultsAt(ms[i].content, asked, i)
  }

  ghost predicate CountsAt(ms: seq<Message>, asked: Reads, at: (nat, nat)) {
    && IsBlock(ms, at) && BlockAt(ms, at).ToolResult? && BlockAt(ms, at).callId in asked
    && !BlockAt(ms, at).result.hasError
  }

  lemma {:induction false} ResultsAtMean(blocks: seq<Block>, asked: Reads, i: nat)
    ensures var places, order := ResultsAt(blocks, asked, i), OrderIn(blocks, asked);
            && |places| == |order|
            && (forall k :: 0 <= k < |places| ==>
                  && places[k].0 == i && places[k].1 < |blocks| && blocks[places[k].1].ToolResult?
                  && blocks[places[k].1].callId == order[k])
            && (forall k, l :: 0 <= k < l < |places| ==> places[k].1 < places[l].1)
    ensures forall at: (nat, nat) :: at in ResultsAt(blocks, asked, i)
                                     <==> && at.0 == i && at.1 < |blocks| && blocks[at.1].ToolResult?
                                          && blocks[at.1].callId in asked && !blocks[at.1].result.hasError
  {
    if blocks != [] {
      ResultsAtMean(blocks[..|blocks| - 1], asked, i);
    }
  }

  lemma {:induction false} PlacesListed(ms: seq<Message>, asked: Reads)
    ensures |Places(ms, asked)| == |OrderOf(ms, asked)|
    ensures forall k :: 0 <= k < |Places(ms, asked)| ==>
              && IsBlock(ms, Places(ms, asked)[k]) && BlockAt(ms, Places(ms, asked)[k]).ToolResult?
              && BlockAt(ms, Places(ms, asked)[k]).callId == OrderOf(ms, asked)[k]
    ensures forall k, l :: 0 <= k < l < |Places(ms, asked)| ==> Earlier(Places(ms, asked)[k], Places(ms, asked)[l])
  {
    if ms != [] {
      var i := |ms| - 1;
      PlacesListed(ms[..i], asked);
      ResultsAtMean(ms[i].content, asked, i);
      var before := Places(ms[..i], asked);
      assert forall k :: 0 <= k < |before| ==> IsBlock(ms[..i], before[k]) && BlockAt(ms, before[k]) == BlockAt(ms[..i], before[k]);
    }
  }

  lemma {:induction false} PlacesCount(ms: seq<Message>, asked: Reads, at: (nat, nat))
    ensures at in Places(ms, asked) <==> CountsAt(ms, asked, at)
  {
    if ms != [] {
      var i := |ms| - 1;
      PlacesCount(ms[..i], asked, at);
      ResultsAtMean(ms[i].content, asked, i);
      assert CountsAt(ms[..i], asked, at) <==> at.0 < i && CountsAt(ms, asked, at);
    }
  }

  lemma CountsMeans(ms: seq<Message>, at: (nat, nat), id: CallId, read: Read)
    ensures SucceedsAt(ms, at, id, read)
            <==> && CountsAt(ms, ReadsOf(ms), at) && BlockAt(ms, at).callId == id
                 && ReadsOf(ms)[id] == read
  {
    AskedMeans(ms, id, read);
  }

  /** A call is superseded exactly when a later read covers it. */
  lemma SupersededMeans(ms: seq<Message>, id: CallId)
    ensures id in Superseding(ms).0 <==> exists read :: ReadAgain(ms, id, read)
  {
    var asked := ReadsOf(ms);
    if id in Superseding(ms).0 {
      var at: nat :| at < |OrderOf(ms, asked)| && SupersededAt(OrderOf(ms, asked), asked, at) && OrderOf(ms, asked)[at] == id;
      SupersededIsReadAgain(ms, id, at);
    }
    if read :| ReadAgain(ms, id, read) {
      ReadAgainIsSuperseded(ms, id, read);
    }
  }

  lemma SupersededIsReadAgain(ms: seq<Message>, id: CallId, at: nat)
    requires at < |OrderOf(ms, ReadsOf(ms))| && OrderOf(ms, ReadsOf(ms))[at] == id
    requires SupersededAt(OrderOf(ms, ReadsOf(ms)), ReadsOf(ms), at)
    ensures ReadAgain(ms, id, ReadsOf(ms)[id])
  {
    var asked := ReadsOf(ms);
    var order, places := OrderOf(ms, asked), Places(ms, asked);
    PlacesListed(ms, asked);
    var later :| at < later < |order| && order[later] in asked && asked[order[later]].Supersedes(asked[id]);
    PlacesCount(ms, asked, places[at]);
    PlacesCount(ms, asked, places[later]);
    CountsMeans(ms, places[at], id, asked[id]);
    CountsMeans(ms, places[later], order[later], asked[order[later]]);
    assert SucceedsAt(ms, places[at], id, asked[id]) && SucceedsAt(ms, places[later], order[later], asked[order[later]]);
  }

  /** A successful read has its place in the order. */
  lemma PlaceOf(ms: seq<Message>, at: (nat, nat), id: CallId, read: Read) returns (k: nat)
    requires SucceedsAt(ms, at, id, read)
    ensures
      var asked := ReadsOf(ms);
      && k < |OrderOf(ms, asked)| == |Places(ms, asked)| && Places(ms, asked)[k] == at && OrderOf(ms, asked)[k] == id
      && id in asked && asked[id] == read
  {
    var asked := ReadsOf(ms);
    CountsMeans(ms, at, id, read);
    PlacesCount(ms, asked, at);
    PlacesListed(ms, asked);
    k :| 0 <= k < |Places(ms, asked)| && Places(ms, asked)[k] == at;
  }

  lemma PlacesInOrder(ms: seq<Message>, k: nat, l: nat)
    requires k < |Places(ms, ReadsOf(ms))| && l < |Places(ms, ReadsOf(ms))|
    requires Earlier(Places(ms, ReadsOf(ms))[k], Places(ms, ReadsOf(ms))[l])
    ensures k < l
  {
    PlacesListed(ms, ReadsOf(ms));
  }

  lemma ReadAgainIsSuperseded(ms: seq<Message>, id: CallId, read: Read)
    requires ReadAgain(ms, id, read)
    ensures id in Superseding(ms).0
  {
    var at: (nat, nat), later: (nat, nat), newer, again :|
      && SucceedsAt(ms, at, id, read) && SucceedsAt(ms, later, newer, again) && Earlier(at, later)
      && again.path == read.path && (again.scope == "" || again.scope == read.scope);
    var k := PlaceOf(ms, at, id, read);
    var l := PlaceOf(ms, later, newer, again);
    PlacesInOrder(ms, k, l);
    assert again.Supersedes(read);
    assert SupersededAt(OrderOf(ms, ReadsOf(ms)), ReadsOf(ms), k);
  }

  /** What is sent for a block: its stub where the read was covered later and no stub is there yet. */
  ghost predicate Rewritten(ms: seq<Message>, b: Block, out: Block) {
    if b.ToolResult? && !("[older read replaced:" <= b.result.outputPreview) && exists read :: ReadAgain(ms, b.callId, read) then
      exists read :: LastAsked(ms, b.callId, read)
                     && out == ToolResult(
                                 b.callId,
                                 ToolResultSummary(
                                   b.result.hasError,
                                   "[older read replaced: " + read.path + " was read again later; use that newer copy]"))
    else out == b
  }

  lemma StubTextMeans(read: Read)
    ensures StubText(read) == "[older read replaced: " + read.path + " was read again later; use that newer copy]"
  {
    assert STUB + " " == "[older read replaced: ";
  }

  lemma BlockRewritten(ms: seq<Message>, b: Block)
    ensures Rewritten(ms, b, StubBlock(b, Superseding(ms).0, Superseding(ms).1))
  {
    if b.ToolResult? {
      SupersededMeans(ms, b.callId);
      if read :| ReadAgain(ms, b.callId, read) {
        AskedMeans(ms, b.callId, read);
        StubTextMeans(read);
      }
    }
  }

  /** Rewriting a history changes nothing from its point on, and before it exactly the results of reads
      that a later read before the point covers. */
  lemma RewriteMeans(ms: seq<Message>, upto: nat)
    requires upto <= |ms|
    ensures |StubReads(ms, upto)| == |ms| && StubReads(ms, upto)[upto..] == ms[upto..]
    ensures forall i :: 0 <= i < upto ==>
              var out := StubReads(ms, upto)[i];
              && out.id == ms[i].id && out.role == ms[i].role && |out.content| == |ms[i].content|
              && forall j :: 0 <= j < |ms[i].content| ==> Rewritten(ms[..upto], ms[i].content[j], out.content[j])
  {
    var history := ms[..upto];
    var (superseded, asked) := Superseding(history);
    assert StubReads(ms, upto) == StubAll(history, superseded, asked) + ms[upto..];
    forall i, j | 0 <= i < upto && 0 <= j < |ms[i].content|
      ensures Rewritten(history, ms[i].content[j], StubReads(ms, upto)[i].content[j])
    {
      BlockRewritten(history, ms[i].content[j]);
    }
  }
}
