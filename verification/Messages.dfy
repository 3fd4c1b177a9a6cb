/** Canonical messages, their buffer rows, and the items handed to the boundary
    detector (memory/models.py and the converters of service/_boundary.py). */
module Messages {
  import opened Common

  datatype Role = User | Assistant | Tool

  datatype Mode = ChatMode | AgentMode

  datatype ToolCall = ToolCall(id: string, kind: string, fn: map<string, string>)

  /** `contentItems` is a list of JSON values; each is kept as its encoded text. */
  datatype Msg = Msg(
    id: string,
    sessionId: string,
    senderId: string,
    senderName: Option<string>,
    role: Role,
    timestamp: int,
    contentItems: seq<string>,
    text: string,
    toolCalls: Option<seq<ToolCall>>,
    toolCallId: Option<string>)

  /** One `unprocessed_buffer` row. */
  datatype Row = Row(
    messageId: string,
    app: string,
    project: string,
    sessionId: string,
    senderId: string,
    senderName: Option<string>,
    role: Role,
    timestamp: int,
    contentItemsJson: seq<string>,
    text: string,
    toolCallsJson: Option<seq<ToolCall>>,
    toolCallId: Option<string>)

  datatype AlgoCall = AlgoCall(id: string, name: string, arguments: string)

  datatype Item =
    | ToolCallResult(toolCallId: string, content: string, timestamp: int)
    | ToolCallRequest(calls: seq<AlgoCall>, timestamp: int, note: Option<string>,
                      senderId: string, senderName: Option<string>)
    | ChatMessage(id: string, role: Role, senderId: string, senderName: Option<string>,
                  content: string, timestamp: int)

  /** Python truth of `m.tool_calls`: `None` and `[]` are both false. */
  predicate HasToolCalls(m: Msg) {
    m.toolCalls.Some? && m.toolCalls.value != []
  }

  predicate HasToolCallId(m: Msg) {
    m.toolCallId.Some? && m.toolCallId.value != ""
  }

  // ── Mode filter ─────────────────────────────────────────────────────────

  predicate Admitted(m: Msg, mode: Mode) {
    mode == AgentMode || (m.role != Tool && !HasToolCalls(m))
  }

  function FilterForMode(ms: seq<Msg>, mode: Mode): seq<Msg> {
    if ms == [] then []
    else if Admitted(ms[0], mode) then [ms[0]] + FilterForMode(ms[1..], mode)
    else FilterForMode(ms[1..], mode)
  }

  lemma {:induction false} FilterAppend(a: seq<Msg>, b: seq<Msg>, mode: Mode)
    ensures FilterForMode(a + b, mode) == FilterForMode(a, mode) + FilterForMode(b, mode)
  {
    if a == [] {
      assert a + b == b;
    } else {
      FilterAppend(a[1..], b, mode);
      assert (a + b)[1..] == a[1..] + b;
    }
  }

  /** In agent mode every message passes; in chat mode those of a user or assistant that carry
      no tool call. */
  predicate Passes(m: Msg, mode: Mode) {
    match mode
    case AgentMode => true
    case ChatMode => m.role != Tool && (m.toolCalls.None? || m.toolCalls.value == [])
  }

  /** Exactly what passes the filter is kept. */
  lemma {:induction false} FilterKeepsExactly(ms: seq<Msg>, mode: Mode)
    ensures mode == AgentMode ==> FilterForMode(ms, mode) == ms
    ensures forall m :: m in FilterForMode(ms, mode) <==> m in ms && Passes(m, mode)
  {
    if ms != [] {
      FilterKeepsExactly(ms[1..], mode);
      assert ms == [ms[0]] + ms[1..];
    }
  }

  lemma {:induction false} FilterSnoc(ms: seq<Msg>, m: Msg, mode: Mode)
    ensures FilterForMode(ms + [m], mode) ==
            if Passes(m, mode) then FilterForMode(ms, mode) + [m] else FilterForMode(ms, mode)
  {
    FilterAppend(ms, [m], mode);
    assert [m][1..] == [];
  }

  /** The filtered list is the passing messages at their places, in order, each as often as it
      occurs: `at` lists the places, ascending, and leaves out no place of a passing message. */
  lemma {:induction false} FilterPicksPlaces(ms: seq<Msg>, mode: Mode) returns (at: seq<int>)
    ensures |at| == |FilterForMode(ms, mode)|
    ensures forall k :: 0 <= k < |at| ==> 0 <= at[k] < |ms| && FilterForMode(ms, mode)[k] == ms[at[k]]
    ensures forall j, k :: 0 <= j < k < |at| ==> at[j] < at[k]
    ensures forall i :: 0 <= i < |ms| ==> (i in at <==> Passes(ms[i], mode))
    decreases |ms|
  {
    at := [];
    if ms != [] {
      var n := |ms| - 1;
      assert ms[..n] + [ms[n]] == ms;
      FilterSnoc(ms[..n], ms[n], mode);
      at := FilterPicksPlaces(ms[..n], mode);
      if Passes(ms[n], mode) {
        at := at + [n];
      }
    }
  }

  // ── Buffer rows ─────────────────────────────────────────────────────────

  function ToRow(m: Msg, app: string, project: string): Row {
    Row(m.id, app, project, m.sessionId, m.senderId, m.senderName, m.role, m.timestamp,
        m.contentItems, m.text,
        if HasToolCalls(m) then m.toolCalls else None,
        m.toolCallId)
  }

  function FromRow(r: Row): Msg {
    Msg(r.messageId, r.sessionId, r.senderId, r.senderName, r.role, r.timestamp,
        r.contentItemsJson, r.text, r.toolCallsJson, r.toolCallId)
  }

  /** What a message looks like once it has been through the buffer. */
  function Persisted(m: Msg, app: string, project: string): Msg {
    FromRow(ToRow(m, app, project))
  }

  function PersistAll(ms: seq<Msg>, app: string, project: string): seq<Msg> {
    seq(|ms|, i requires 0 <= i < |ms| => Persisted(ms[i], app, project))
  }

  // ── Detector items ──────────────────────────────────────────────────────

  function Get(m: map<string, string>, k: string): string {
    if k in m then m[k] else ""
  }

  function ToAlgoCall(c: ToolCall): AlgoCall {
    AlgoCall(c.id, Get(c.fn, "name"), Get(c.fn, "arguments"))
  }

  function ToAlgoCalls(cs: seq<ToolCall>): seq<AlgoCall> {
    seq(|cs|, i requires 0 <= i < |cs| => ToAlgoCall(cs[i]))
  }

  function ToChatMessage(m: Msg): Item {
    ChatMessage(m.id, m.role, m.senderId, m.senderName, m.text, m.timestamp)
  }

  /** `None` is the ValueError of the fall-through case. */
  function ToConversationItem(m: Msg): Option<Item> {
    if m.role == Tool && HasToolCallId(m) then
      Some(ToolCallResult(m.toolCallId.value, m.text, m.timestamp))
    else if m.role == Assistant && HasToolCalls(m) then
      Some(ToolCallRequest(ToAlgoCalls(m.toolCalls.value), m.timestamp,
                           if m.text == "" then None else Some(m.text),
                           m.senderId, m.senderName))
    else if m.role != Tool then
      Some(ToChatMessage(m))
    else None
  }

  function ToItem(m: Msg, mode: Mode): Option<Item> {
    if mode == ChatMode then Some(ToChatMessage(m)) else ToConversationItem(m)
  }

  /** A chat message item carries the message's own fields. */
  ghost predicate SaysChat(m: Msg, item: Item) {
    && item.ChatMessage?
    && item.id == m.id && item.role == m.role && item.senderId == m.senderId && item.senderName == m.senderName
    && item.content == m.text && item.timestamp == m.timestamp
  }

  /** A request item carries the calls one by one, in order, the text as a note unless it is
      empty, and the sender. */
  ghost predicate SaysRequest(m: Msg, item: Item) {
    && item.ToolCallRequest? && m.toolCalls.Some?
    && |item.calls| == |m.toolCalls.value|
    && (forall i :: 0 <= i < |item.calls| ==>
          var call, sent := m.toolCalls.value[i], item.calls[i];
          && sent.id == call.id
          && ("name" in call.fn ==> sent.name == call.fn["name"])
          && ("name" !in call.fn ==> sent.name == "")
          && ("arguments" in call.fn ==> sent.arguments == call.fn["arguments"])
          && ("arguments" !in call.fn ==> sent.arguments == ""))
    && item.timestamp == m.timestamp && item.senderId == m.senderId && item.senderName == m.senderName
    && (m.text == "" ==> item.note == None) && (m.text != "" ==> item.note == Some(m.text))
  }

  ghost predicate SaysResult(m: Msg, item: Item) {
    && item.ToolCallResult?
    && m.toolCallId == Some(item.toolCallId) && item.content == m.text && item.timestamp == m.timestamp
  }

  /** What the detector is told of a message, field by field. In agent mode a tool row with a
      call id is a result, an assistant's row with calls a request, any other row of a user or
      an assistant a chat message; in chat mode every row is a chat message. */
  lemma {:induction false} ItemSays(m: Msg, mode: Mode)
    ensures mode == ChatMode ==> ToItem(m, mode).Some? && SaysChat(m, ToItem(m, mode).value)
    ensures mode == AgentMode && m.role == Tool && m.toolCallId.Some? && m.toolCallId.value != "" ==>
      ToItem(m, mode).Some? && SaysResult(m, ToItem(m, mode).value)
    ensures mode == AgentMode && m.role == Tool && (m.toolCallId.None? || m.toolCallId.value == "") ==>
      ToItem(m, mode).None?
    ensures mode == AgentMode && m.role == Assistant && m.toolCalls.Some? && m.toolCalls.value != [] ==>
      ToItem(m, mode).Some? && SaysRequest(m, ToItem(m, mode).value)
    ensures mode == AgentMode && (m.role == User || (m.role == Assistant && (m.toolCalls.None? || m.toolCalls.value == []))) ==>
      ToItem(m, mode).Some? && SaysChat(m, ToItem(m, mode).value)
  {
  }

  /** A tool row without the id of the call it answers. */
  predicate Orphan(m: Msg) {
    m.role == Tool && !HasToolCallId(m)
  }

  /** The detector's input for a merged list; `None` when some row cannot be mapped. */
  function DetectorItems(ms: seq<Msg>, mode: Mode): (r: Option<seq<Item>>)
    ensures r.Some? ==> |r.value| == |ms|
    ensures r.Some? ==> forall i :: 0 <= i < |ms| ==> ToItem(ms[i], mode) == Some(r.value[i])
    ensures r.None? <==> mode == AgentMode && exists i :: 0 <= i < |ms| && Orphan(ms[i])
  {
    if ms == [] then Some([])
    else
      var head := ToItem(ms[0], mode);
      var rest := DetectorItems(ms[1..], mode);
      assert ms == [ms[0]] + ms[1..];
      assert mode == AgentMode && (exists i :: 0 <= i < |ms[1..]| && Orphan(ms[1..][i])) ==> exists i :: 0 <= i < |ms| && Orphan(ms[i]) by {
        if mode == AgentMode && (exists i :: 0 <= i < |ms[1..]| && Orphan(ms[1..][i])) {
          var i :| 0 <= i < |ms[1..]| && Orphan(ms[1..][i]);
          assert Orphan(ms[i + 1]);
        }
      }
      if head.None? || rest.None? then None else Some([head.value] + rest.value)
  }

  // ── Round trip ──────────────────────────────────────────────────────────

  /** A buffered message comes back unchanged exactly when it does not carry an
      empty tool-call list. */
  lemma RowRoundTrip(m: Msg, app: string, project: string)
    ensures FromRow(ToRow(m, app, project)) == m <==> m.toolCalls != Some([])
    ensures m.toolCalls == Some([]) ==> FromRow(ToRow(m, app, project)) == m.(toolCalls := None)
  {
  }

  /** Whatever the buffer changes is invisible downstream: order key, mode filter,
      anchor role and the detector's item are the same. */
  lemma PersistedLooksTheSame(m: Msg, app: string, project: string, mode: Mode)
    ensures Persisted(m, app, project).id == m.id
    ensures Persisted(m, app, project).timestamp == m.timestamp
    ensures Persisted(m, app, project).role == m.role
    ensures Admitted(Persisted(m, app, project), mode) == Admitted(m, mode)
    ensures ToItem(Persisted(m, app, project), mode) == ToItem(m, mode)
  {
  }

  lemma PersistedItems(ms: seq<Msg>, app: string, project: string, mode: Mode)
    ensures DetectorItems(PersistAll(ms, app, project), mode) == DetectorItems(ms, mode)
  {
    if ms != [] {
      PersistedLooksTheSame(ms[0], app, project, mode);
      assert PersistAll(ms, app, project)[1..] == PersistAll(ms[1..], app, project);
      PersistedItems(ms[1..], app, project, mode);
    }
  }
}
