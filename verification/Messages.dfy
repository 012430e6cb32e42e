/** Provider-agnostic transcript messages (crates/protocol/src/messages.rs). */
module Messages {
  import opened Common

  datatype MessageId = MessageId(value: nat)
  datatype CallId = CallId(value: nat)

  datatype Role = System | User | Assistant | Tool

  /** A JSON value: its text when it is a string, and its serialized form. */
  datatype JsonValue = JsonValue(asText: Option<string>, rendered: string)

  /** The arguments of a call: the fields of an object in the order they are stored, or some other
      value; and the serialized form of the whole. */
  datatype Arguments = Arguments(fields: Option<seq<(string, JsonValue)>>, rendered: string)

  datatype ToolCall = ToolCall(id: CallId, name: string, arguments: Arguments)

  datatype ToolResultSummary = ToolResultSummary(hasError: bool, outputPreview: string)

  datatype Block =
    | Text(text: string)
    | ToolUse(call: ToolCall)
    | ToolResult(callId: CallId, result: ToolResultSummary)
    | Image(mimeType: string, data: seq<nat>)

  datatype Message = Message(id: MessageId, role: Role, content: seq<Block>)

  /** The ids of the calls made in some blocks, in order. */
  function UsesIn(blocks: seq<Block>): seq<CallId> {
    if blocks == [] then []
    else UsesIn(blocks[..|blocks| - 1]) + var b := blocks[|blocks| - 1]; if b.ToolUse? then [b.call.id] else []
  }

  /** The ids of the calls answered in some blocks, in order. */
  function ResultsIn(blocks: seq<Block>): seq<CallId> {
    if blocks == [] then []
    else ResultsIn(blocks[..|blocks| - 1]) + var b := blocks[|blocks| - 1]; if b.ToolResult? then [b.callId] else []
  }

  function UseIds(m: Message): seq<CallId> {
    UsesIn(m.content)
  }

  function ResultIds(m: Message): seq<CallId> {
    ResultsIn(m.content)
  }

  /** The ids of the calls made, and of those answered, message by message. */
  function UseRows(ms: seq<Message>): seq<seq<CallId>> {
    seq(|ms|, i requires 0 <= i < |ms| => UseIds(ms[i]))
  }

  function ResultRows(ms: seq<Message>): seq<seq<CallId>> {
    seq(|ms|, i requires 0 <= i < |ms| => ResultIds(ms[i]))
  }

  /** The last row that contains each id: what a map extended row by row holds. */
  function LastOwner(rows: seq<seq<CallId>>): map<CallId, nat> {
    if rows == [] then map[]
    else
      var n, row := |rows| - 1, rows[|rows| - 1];
      LastOwner(rows[..n]) + map id | id in row :: n
  }

  ghost predicate OwnerOf(rows: seq<seq<CallId>>, owner: map<CallId, nat>) {
    && (forall id <- owner :: owner[id] < |rows| && id in rows[owner[id]])
    && (forall i, id | 0 <= i < |rows| && id in rows[i] :: id in owner && i <= owner[id])
  }

  lemma {:induction false} LastOwnerMeaning(rows: seq<seq<CallId>>)
    ensures OwnerOf(rows, LastOwner(rows))
  {
    if rows != [] {
      LastOwnerMeaning(rows[..|rows| - 1]);
    }
  }
}
