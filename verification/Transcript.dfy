/** The tool-call / tool-result discipline of a transcript (crates/agent-core/src/transcript.rs). */
module Transcript {
  import opened Common
  import opened Messages

  datatype TranscriptError =
    | DanglingToolCall(id: CallId)
    | OrphanToolResult(id: CallId)
    | OutOfOrderToolResult(id: CallId)
    | UnresolvedToolCall(id: CallId)

  // ----- the specification: which calls are open after which messages

  /** `open` without the first `id`. */
  function Remove(open: seq<CallId>, id: CallId): seq<CallId>
    requires id in open
  {
    if open[0] == id then open[1..] else [open[0]] + Remove(open[1..], id)
  }

  /** Answers the results one by one; refused when one answers nothing that is open. */
  function RemoveAll(open: seq<CallId>, ids: seq<CallId>): Option<seq<CallId>> {
    if ids == [] then Some(open)
    else
      match RemoveAll(open, ids[..|ids| - 1])
      case None => None
      case Some(rest) => if ids[|ids| - 1] in rest then Some(Remove(rest, ids[|ids| - 1])) else None
  }

  /** The open calls after one more message. */
  function Next(open: seq<CallId>, m: Message): Option<seq<CallId>> {
    match m.role
    case Assistant => Some(open + UseIds(m))
    case Tool => RemoveAll(open, ResultIds(m))
    case User => if open == [] then Some([]) else None
    case System => if open == [] then Some([]) else None
  }

  /** The open calls after some messages, if none of them breaks the discipline. */
  function Run(open: seq<CallId>, ms: seq<Message>): Option<seq<CallId>> {
    if ms == [] then Some(open)
    else
      match Run(open, ms[..|ms| - 1])
      case None => None
      case Some(now) => Next(now, ms[|ms| - 1])
  }

  /** A valid transcript: no message breaks the discipline and no call is left open. */
  predicate Accepts(ms: seq<Message>) {
    Run([], ms) == Some([])
  }

  lemma RunPush(open: seq<CallId>, ms: seq<Message>, m: Message)
    ensures Run(open, ms + [m]) == match Run(open, ms) case None => None case Some(now) => Next(now, m)
  {
    assert (ms + [m])[..|ms|] == ms;
  }

  lemma {:induction false} RunConcat(open: seq<CallId>, a: seq<Message>, b: seq<Message>)
    ensures Run(open, a + b) == match Run(open, a) case None => None case Some(now) => Run(now, b)
  {
    if b == [] {
      assert a + b == a;
    } else {
      RunConcat(open, a, b[..|b| - 1]);
      assert (a + b)[..|a + b| - 1] == a + b[..|b| - 1];
    }
  }

  /** A prefix of a transcript that breaks the discipline breaks it for good. */
  lemma RunPrefix(ms: seq<Message>, n: nat)
    requires n <= |ms| && Run([], ms).Some?
    ensures Run([], ms[..n]).Some?
  {
    var a, b := ms[..n], ms[n..];
    assert ms == a + b;
    RunConcat([], a, b);
  }

  // ----- the validator

  /** The validator accepts exactly the valid transcripts. Its error names the oldest open call where
      none may be open, or the first result that answers no open call. */
  method ValidateTranscript(ms: seq<Message>) returns (r: Result<(), TranscriptError>)
    ensures r.Ok? <==> Accepts(ms)
    ensures r.Err? ==> Explains(ms, r.error)
  {
    var declarations := LastOwner(UseRows(ms));
    var pending: seq<CallId> := [];
    for index := 0 to |ms|
      invariant Run([], ms[..index]) == Some(pending)
    {
      var step := ValidateMessage(ms, index, pending, declarations);
      if step.Err? {
        return Err(step.error);
      }
      pending := step.value;
    }
    assert ms[..|ms|] == ms;
    r := if pending == [] then Ok(()) else Err(UnresolvedToolCall(pending[0]));
  }

  /** One turn of the validator's loop. */
  method ValidateMessage(ms: seq<Message>, index: nat, pending: seq<CallId>, declarations: map<CallId, nat>)
    returns (r: Result<seq<CallId>, TranscriptError>)
    requires index < |ms| && Run([], ms[..index]) == Some(pending) && declarations == LastOwner(UseRows(ms))
    ensures r.Ok? ==> Run([], ms[..index + 1]) == Some(r.value)
    ensures r.Err? ==> !Accepts(ms) && Explains(ms, r.error)
  {
    var m := ms[index];
    RunPush([], ms[..index], m);
    assert ms[..index] + [m] == ms[..index + 1];
    if Next(pending, m).None? {
      RunBreaks(ms, index);
    }
    match m.role
    case Assistant =>
      r := Ok(pending + UseIds(m));
    case Tool =>
      var settled := SettleResults(pending, ResultIds(m));
      if settled.Ok? {
        return Ok(settled.value);
      }
      var id := settled.error;
      assert UnansweringAt(ms, index, id);
      MadeAfterByOwner(ms, index, id);
      if id in declarations && declarations[id] > index {
        r := Err(OutOfOrderToolResult(id));
      } else {
        r := Err(OrphanToolResult(id));
      }
    case User =>
      if pending != [] {
        assert OldestOpenAt(ms, index, pending[0]);
        return Err(DanglingToolCall(pending[0]));
      }
      r := Ok([]);
    case System =>
      if pending != [] {
        assert OldestOpenAt(ms, index, pending[0]);
        return Err(DanglingToolCall(pending[0]));
      }
      r := Ok([]);
  }

  lemma MadeAfterByOwner(ms: seq<Message>, i: nat, id: CallId)
    ensures var declared := LastOwner(UseRows(ms)); MadeAfter(ms, i, id) <==> id in declared && declared[id] > i
  {
    var rows := UseRows(ms);
    LastOwnerMeaning(rows);
    if MadeAfter(ms, i, id) {
      var j :| i < j < |ms| && id in UseIds(ms[j]);
      assert id in rows[j];
    }
  }

  method SettleResults(pending: seq<CallId>, ids: seq<CallId>) returns (r: Result<seq<CallId>, CallId>)
    ensures r.Ok? ==> RemoveAll(pending, ids) == Some(r.value)
    ensures r.Err? ==> RemoveAll(pending, ids) == None && exists k :: Unanswering(pending, ids, k, r.error)
  {
    var rest := pending;
    for i := 0 to |ids|
      invariant RemoveAll(pending, ids[..i]) == Some(rest)
    {
      assert ids[..i + 1][..i] == ids[..i];
      if ids[i] in rest {
        rest := Remove(rest, ids[i]);
      } else {
        RemoveAllBreaks(pending, ids, i + 1);
        assert Unanswering(pending, ids, i, ids[i]);
        return Err(ids[i]);
      }
    }
    assert ids[..|ids|] == ids;
    r := Ok(rest);
  }

  lemma {:induction false} RemoveAllBreaks(open: seq<CallId>, ids: seq<CallId>, n: nat)
    requires n <= |ids| && RemoveAll(open, ids[..n]) == None
    ensures RemoveAll(open, ids) == None
    decreases |ids|
  {
    if n == |ids| {
      assert ids[..n] == ids;
    } else {
      assert ids[..|ids| - 1][..n] == ids[..n];
      RemoveAllBreaks(open, ids[..|ids| - 1], n);
    }
  }

  lemma RunBreaks(ms: seq<Message>, n: nat)
    requires n < |ms| && Run([], ms[..n + 1]) == None
    ensures !Accepts(ms)
  {
    if Accepts(ms) {
      RunPrefix(ms, n + 1);
    }
  }

  /** What each error says about the transcript: the first message that breaks the discipline and the
      call it breaks it for, or the first call left open at the end. */
  ghost predicate Explains(ms: seq<Message>, error: TranscriptError) {
    match error
    case UnresolvedToolCall(id) => Run([], ms).Some? && Run([], ms).value != [] && Run([], ms).value[0] == id
    case DanglingToolCall(id) => exists i :: 0 <= i < |ms| && ms[i].role in {User, System} && OldestOpenAt(ms, i, id)
    case OutOfOrderToolResult(id) => exists i :: UnansweringAt(ms, i, id) && MadeAfter(ms, i, id)
    case OrphanToolResult(id) => exists i :: UnansweringAt(ms, i, id) && !MadeAfter(ms, i, id)
  }

  ghost predicate OpenAt(ms: seq<Message>, i: nat, id: CallId)
    requires i <= |ms|
  {
    Run([], ms[..i]).Some? && id in Run([], ms[..i]).value
  }

  /** Of the calls open before message `i`, `id` is the one made first. */
  ghost predicate OldestOpenAt(ms: seq<Message>, i: nat, id: CallId)
    requires i <= |ms|
  {
    Run([], ms[..i]).Some? && Run([], ms[..i]).value != [] && Run([], ms[..i]).value[0] == id
  }

  /** The messages before `i` keep the discipline, and `id` is the first result of message `i` that
      answers no call left open by the results before it. */
  ghost predicate UnansweringAt(ms: seq<Message>, i: nat, id: CallId) {
    && i < |ms| && ms[i].role == Tool && Run([], ms[..i]).Some?
    && exists k :: Unanswering(Run([], ms[..i]).value, ResultIds(ms[i]), k, id)
  }

  /** The results before position `k` each answer an open call, and the one there, for `id`, does not. */
  ghost predicate Unanswering(open: seq<CallId>, ids: seq<CallId>, k: nat, id: CallId) {
    && k < |ids| && ids[k] == id
    && RemoveAll(open, ids[..k]).Some? && id !in RemoveAll(open, ids[..k]).value
  }

  ghost predicate MadeAfter(ms: seq<Message>, i: nat, id: CallId) {
    exists j :: i < j < |ms| && id in UseIds(ms[j])
  }
}
