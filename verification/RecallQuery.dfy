/** The recall query: the proposed prompt first, then recent history in what is left. */
module RecallQuery {
  import opened Common

  /** A user message with its blocks rendered; `direct` when a user wrote it. */
  datatype Message = Message(id: string, direct: bool, text: string)

  function ClipHead(text: string, maxChars: nat): string {
    if |text| <= maxChars then text else text[..maxChars]
  }

  function Direct(ms: seq<Message>): seq<Message> {
    if ms == [] then []
    else if ms[0].direct then [ms[0]] + Direct(ms[1..])
    else Direct(ms[1..])
  }

  predicate HasId(ms: seq<Message>, id: string) {
    exists i :: 0 <= i < |ms| && ms[i].id == id
  }

  function Others(ms: seq<Message>, current: seq<Message>): seq<Message> {
    if ms == [] then []
    else if HasId(current, ms[0].id) then Others(ms[1..], current)
    else [ms[0]] + Others(ms[1..], current)
  }

  function Texts(ms: seq<Message>): seq<string> {
    seq(|ms|, i requires 0 <= i < |ms| => ms[i].text)
  }

  function JoinTexts(ms: seq<Message>): string {
    Join(NonEmpty(Texts(ms)), "\n")
  }

  /** `ms.slice(-k)`: the last k, but all of them when k is zero, since -0 is 0. */
  function SliceLast<T>(ms: seq<T>, k: nat): seq<T> {
    if k == 0 || k >= |ms| then ms else ms[|ms| - k..]
  }

  /** The history messages that go into the query. */
  function Window(log: seq<Message>, proposed: seq<Message>, queryN: int): seq<Message> {
    var current := Direct(proposed);
    SliceLast(Others(Direct(log), current), Max(0, queryN - |current|))
  }

  function Current(proposed: seq<Message>, maxChars: nat): string {
    ClipHead(JoinTexts(Direct(proposed)), maxChars)
  }

  function BuildRecallQuery(log: seq<Message>, proposed: seq<Message>, queryN: int, maxChars: nat): string {
    var current := Current(proposed, maxChars);
    if current == "" then ""
    else
      var history := JoinTexts(Window(log, proposed, queryN));
      var remaining := maxChars - |current| - 1;
      if history == "" || remaining <= 0 then current
      else ClipHead(history, remaining) + "\n" + current
  }

  /** The prompt part: the beginning of the direct proposed messages' texts, one to a line and
      empty ones left out, up to the limit. */
  lemma {:induction false} PromptIs(proposed: seq<Message>, maxChars: nat)
    ensures var prompt := Join(NonEmpty(Texts(Direct(proposed))), "\n");
      && Current(proposed, maxChars) <= prompt
      && |Current(proposed, maxChars)| == Min(maxChars, |prompt|)
  {
  }

  /** The query keeps its budget and ends with the current prompt; it is empty exactly
      when the prompt is, and never spends the budget on history the prompt needs. */
  lemma {:induction false} QueryShape(log: seq<Message>, proposed: seq<Message>, queryN: int, maxChars: nat)
    ensures var q, current := BuildRecallQuery(log, proposed, queryN, maxChars), Current(proposed, maxChars);
      && |q| <= maxChars
      && |current| <= |q| && q[|q| - |current|..] == current
      && (q == "" <==> current == "")
      && (|JoinTexts(Direct(proposed))| >= maxChars ==> q == current)
  {
  }

  /** History is used whenever there is some and room is left: the query is as much of its
      beginning as fits, a line break, and the whole prompt. */
  lemma {:induction false} QueryUsesHistory(log: seq<Message>, proposed: seq<Message>, queryN: int, maxChars: nat)
    requires Current(proposed, maxChars) != "" && JoinTexts(Window(log, proposed, queryN)) != ""
    requires |Current(proposed, maxChars)| + 1 < maxChars
    ensures var q, current := BuildRecallQuery(log, proposed, queryN, maxChars), Current(proposed, maxChars);
            var history := JoinTexts(Window(log, proposed, queryN));
      exists k :: 0 < k <= |history| && q == history[..k] + "\n" + current
        && (k == |history| || |q| == maxChars)
  {
    var current, history := Current(proposed, maxChars), JoinTexts(Window(log, proposed, queryN));
    var k := Min(|history|, maxChars - |current| - 1);
    assert history[..|history|] == history;
    assert BuildRecallQuery(log, proposed, queryN, maxChars) == history[..k] + "\n" + current;
  }

  lemma {:induction false} DirectIs(ms: seq<Message>)
    ensures forall m :: m in Direct(ms) <==> m in ms && m.direct
  {
    if ms != [] {
      DirectIs(ms[1..]);
      assert ms == [ms[0]] + ms[1..];
    }
  }

  lemma {:induction false} OthersIs(ms: seq<Message>, current: seq<Message>)
    ensures forall m :: m in Others(ms, current) <==> m in ms && !HasId(current, m.id)
  {
    if ms != [] {
      OthersIs(ms[1..], current);
      assert ms == [ms[0]] + ms[1..];
    }
  }

  /** What history there is: every direct message of the log that was not proposed, of which
      the window is the last ones, as many as `queryN` leaves beside the prompt. */
  lemma {:induction false} WindowIsLastOfHistory(log: seq<Message>, proposed: seq<Message>, queryN: int)
    ensures var eligible := Others(Direct(log), Direct(proposed));
            var room := queryN - |Direct(proposed)|;
      && (forall m :: m in eligible <==> m in log && m.direct && !HasId(Direct(proposed), m.id))
      && (forall m :: m in Direct(proposed) <==> m in proposed && m.direct)
      && (room > 0 ==>
            && |Window(log, proposed, queryN)| == Min(room, |eligible|)
            && Window(log, proposed, queryN) == eligible[|eligible| - Min(room, |eligible|)..])
  {
    DirectIs(log);
    DirectIs(proposed);
    OthersIs(Direct(log), Direct(proposed));
  }

  /** No history message repeats a proposed one, and all of them are direct. */
  lemma {:induction false} WindowIsHistory(log: seq<Message>, proposed: seq<Message>, queryN: int, m: Message)
    requires m in Window(log, proposed, queryN)
    ensures m in log && m.direct && !HasId(Direct(proposed), m.id)
  {
    WindowIsLastOfHistory(log, proposed, queryN);
    OthersIs(Direct(log), Direct(proposed));
  }

  /** Current and history together stay within `queryN` messages exactly when the prompt
      leaves room for one more, or fills `queryN` exactly with no history to offer.
      Otherwise the whole history is used. */
  lemma {:induction false} WindowWithinQueryNIff(log: seq<Message>, proposed: seq<Message>, queryN: int)
    ensures var current := Direct(proposed);
            var eligible := Others(Direct(log), current);
      && (|current| + |Window(log, proposed, queryN)| <= queryN <==>
            queryN > |current| || (queryN == |current| && eligible == []))
      && (queryN <= |current| ==> Window(log, proposed, queryN) == eligible)
  {
  }
}
