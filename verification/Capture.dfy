/** Converting new session events into messages (`captureMessagesSince`) and what slicing
    an append-only log by sequence number guarantees. */
module Capture {
  import opened Common

  const TRUNCATED: string := "\n[truncated by everos-memory]"

  /** A session event, with its content blocks already rendered to text. */
  datatype Event =
    | UserMessage(seqNo: int, direct: bool, text: string)
    | AssistantMessage(seqNo: int, text: string, calls: seq<string>)
    | ToolResult(seqNo: int, callId: string, isError: bool, text: string)
    | OtherEvent(seqNo: int)

  datatype Sender = FromUser | FromAssistant | FromTool

  datatype Item = Item(sender: Sender, content: string, calls: seq<string>, toolCallId: string)

  datatype Captured = Captured(seqNo: int, item: Item)

  function ClipText(text: string, maxChars: nat): string {
    if |text| <= maxChars then text
    else text[..Max(0, maxChars - |TRUNCATED|)] + TRUNCATED
  }

  /** Clipping keeps to the limit exactly when nothing is cut or the limit has room for the
      marker; what is cut keeps a prefix of the text. */
  lemma {:induction false} ClipWithinIff(text: string, maxChars: nat)
    ensures |ClipText(text, maxChars)| <= maxChars <==> |text| <= maxChars || maxChars >= |TRUNCATED|
    ensures ClipText(text, maxChars) == text ||
            exists k :: 0 <= k < |text| && ClipText(text, maxChars) == text[..k] + TRUNCATED
  {
    if |text| > maxChars {
      var k := Max(0, maxChars - |TRUNCATED|);
      assert 0 <= k < |text| && ClipText(text, maxChars) == text[..k] + TRUNCATED;
    }
  }

  function TrimEnd(s: string): string {
    if s != "" && IsSpace(s[|s| - 1]) then TrimEnd(s[..|s| - 1]) else s
  }

  function Trim(s: string): string {
    if s != "" && IsSpace(s[0]) then Trim(s[1..]) else TrimEnd(s)
  }

  /** The message an event turns into, if any. */
  function Convert(e: Event, maxChars: nat): Option<Item> {
    match e
    case UserMessage(_, direct, text) =>
      if !direct || ClipText(text, maxChars) == "" then None
      else Some(Item(FromUser, ClipText(text, maxChars), [], ""))
    case AssistantMessage(_, text, calls) =>
      if ClipText(text, maxChars) == "" && calls == [] then None
      else Some(Item(FromAssistant, ClipText(text, maxChars), calls, ""))
    case ToolResult(_, callId, isError, text) =>
      var content := Trim(ClipText((if isError then "[tool error]\n" else "") + text, maxChars));
      Some(Item(FromTool, if content == "" then "[empty tool result]" else content, [], callId))
    case OtherEvent(_) => None
  }

  lemma {:induction false} TrimShortens(s: string)
    ensures |Trim(s)| <= |s|
  {
    if s != "" && IsSpace(s[0]) { TrimShortens(s[1..]); } else { TrimEndShortens(s); }
  }

  lemma {:induction false} TrimEndShortens(s: string)
    ensures |TrimEnd(s)| <= |s|
  {
    if s != "" && IsSpace(s[|s| - 1]) { TrimEndShortens(s[..|s| - 1]); }
  }

  // ── What a captured message holds ───────────────────────────────────────

  /** The text itself when it fits, else as much of its beginning as leaves room for the
      marker, and the marker. */
  ghost predicate IsClipOf(content: string, text: string, maxChars: nat) {
    && (|text| <= maxChars ==> content == text)
    && (|text| > maxChars ==>
          exists k :: 0 <= k < |text| && (k == maxChars - 29 || (k == 0 && maxChars < 29))
            && content == text[..k] + "\n[truncated by everos-memory]")
  }

  /** `part` is `whole` from a to b, with nothing but white space before and after, and none at
      its own ends. */
  ghost predicate TrimmedAt(part: string, whole: string, a: nat, b: nat) {
    && a <= b <= |whole| && part == whole[a..b]
    && (forall i :: 0 <= i < a ==> IsSpace(whole[i]))
    && (forall i :: b <= i < |whole| ==> IsSpace(whole[i]))
    && (a < b ==> !IsSpace(whole[a]) && !IsSpace(whole[b - 1]))
  }

  ghost predicate IsTrimOf(part: string, whole: string) {
    exists a, b :: TrimmedAt(part, whole, a, b)
  }

  /** What the message of an event holds, kind by kind. */
  ghost predicate SaysEvent(e: Event, item: Item, maxChars: nat) {
    match e
    case UserMessage(_, _, text) =>
      item.sender == FromUser && item.calls == [] && item.toolCallId == "" && IsClipOf(item.content, text, maxChars)
    case AssistantMessage(_, text, calls) =>
      item.sender == FromAssistant && item.calls == calls && item.toolCallId == "" && IsClipOf(item.content, text, maxChars)
    case ToolResult(_, callId, isError, text) =>
      && item.sender == FromTool && item.calls == [] && item.toolCallId == callId
      && exists clipped, trimmed ::
           && IsClipOf(clipped, if isError then "[tool error]\n" + text else text, maxChars)
           && IsTrimOf(trimmed, clipped)
           && (trimmed != "" ==> item.content == trimmed)
           && (trimmed == "" ==> item.content == "[empty tool result]")
    case OtherEvent(_) => false
  }

  lemma {:induction false} ClipIs(text: string, maxChars: nat)
    ensures IsClipOf(ClipText(text, maxChars), text, maxChars)
  {
    if |text| > maxChars {
      var k := Max(0, maxChars - |TRUNCATED|);
      assert |TRUNCATED| == 29;
      assert ClipText(text, maxChars) == text[..k] + TRUNCATED;
    }
  }

  lemma {:induction false} TrimEndIs(s: string) returns (b: nat)
    ensures b <= |s| && TrimEnd(s) == s[..b]
    ensures forall i :: b <= i < |s| ==> IsSpace(s[i])
    ensures b > 0 ==> !IsSpace(s[b - 1])
  {
    if s != "" && IsSpace(s[|s| - 1]) {
      b := TrimEndIs(s[..|s| - 1]);
    } else {
      b := |s|;
    }
  }

  lemma {:induction false} TrimBounds(s: string) returns (a: nat, b: nat)
    ensures TrimmedAt(Trim(s), s, a, b)
  {
    if s != "" && IsSpace(s[0]) {
      var t := s[1..];
      a, b := TrimBounds(t);
      OneFurther(Trim(t), s, a, b);
      a, b := a + 1, b + 1;
    } else {
      b := TrimEndIs(s);
      a := 0;
      assert s[..b] == s[0..b];
    }
  }

  lemma {:induction false} OneFurther(part: string, s: string, a: nat, b: nat)
    requires s != "" && IsSpace(s[0]) && TrimmedAt(part, s[1..], a, b)
    ensures TrimmedAt(part, s, a + 1, b + 1)
  {
    var t := s[1..];
    assert t[a..b] == s[a + 1..b + 1];
    forall i | 0 <= i < a + 1 ensures IsSpace(s[i]) {
      if i > 0 { assert t[i - 1] == s[i]; }
    }
    forall i | b + 1 <= i < |s| ensures IsSpace(s[i]) {
      assert t[i - 1] == s[i];
    }
  }

  lemma {:induction false} TrimIs(s: string)
    ensures IsTrimOf(Trim(s), s)
  {
    var a, b := TrimBounds(s);
  }

  /** Every captured message says what its event says: the right sender, the event's own text
      clipped, an assistant's calls as they are, a tool result's call id and its trimmed text
      under its error mark. */
  lemma {:induction false} CapturedSaysEvent(e: Event, maxChars: nat)
    requires Convert(e, maxChars).Some?
    ensures SaysEvent(e, Convert(e, maxChars).value, maxChars)
  {
    if e.ToolResult? {
      var whole := if e.isError then "[tool error]\n" + e.text else e.text;
      assert whole == (if e.isError then "[tool error]\n" else "") + e.text;
      ClipIs(whole, maxChars);
      TrimIs(ClipText(whole, maxChars));
    } else if !e.OtherEvent? {
      ClipIs(e.text, maxChars);
    }
  }

  /** The error mark survives whenever it fits beside the truncation marker. */
  lemma {:induction false} ErrorMarkStays(e: Event, maxChars: nat)
    requires e.ToolResult? && e.isError
    requires |"[tool error]\n" + e.text| <= maxChars || maxChars >= 12 + 29
    ensures "[tool error]" <= Convert(e, maxChars).value.content
  {
    var mark, whole := "[tool error]", "[tool error]\n" + e.text;
    var clipped := ClipText(whole, maxChars);
    assert |TRUNCATED| == 29 && whole[..12] == mark;
    assert |clipped| >= 12 && clipped[..12] == mark;
    MarkSurvivesTrim(clipped);
  }

  lemma {:induction false} MarkSurvivesTrim(s: string)
    requires |s| >= 12 && s[..12] == "[tool error]"
    ensures "[tool error]" <= Trim(s)
  {
    var mark := "[tool error]";
    assert s[0] == s[..12][0] == mark[0] && s[11] == s[..12][11] == mark[11];
    var b := TrimEndIs(s);
    assert b >= 12;
    assert s[..b][..12] == mark;
  }

  /** Clipping never decides what is captured: direct user messages with text, assistant
      messages with text or calls, and every tool result are, under any limit. A captured
      tool result is never blank, and no content outgrows the limit and the fixed markers. */
  lemma {:induction false} WhatIsCaptured(e: Event, maxChars: nat)
    ensures Convert(e, maxChars).Some? <==>
      || (e.UserMessage? && e.direct && e.text != "")
      || (e.AssistantMessage? && (e.text != "" || e.calls != []))
      || e.ToolResult?
    ensures e.ToolResult? ==>
      var item := Convert(e, maxChars).value;
      item.sender == FromTool && item.toolCallId == e.callId && item.content != ""
    ensures Convert(e, maxChars).Some? ==> |Convert(e, maxChars).value.content| <= Max(maxChars, |TRUNCATED|)
  {
    if e.ToolResult? {
      var whole := (if e.isError then "[tool error]\n" else "") + e.text;
      TrimShortens(ClipText(whole, maxChars));
    }
  }

  predicate Captures(e: Event, maxChars: nat) {
    Convert(e, maxChars).Some?
  }

  /** The messages of the events with a sequence number above `lo` and up to `hi`. */
  function Between(events: seq<Event>, lo: int, hi: int, maxChars: nat): seq<Captured> {
    if events == [] then []
    else
      var e := events[|events| - 1];
      var front := Between(events[..|events| - 1], lo, hi, maxChars);
      if lo < e.seqNo <= hi && Captures(e, maxChars)
      then front + [Captured(e.seqNo, Convert(e, maxChars).value)]
      else front
  }

  ghost predicate Increasing(events: seq<Event>) {
    forall i, j :: 0 <= i < j < |events| ==> events[i].seqNo < events[j].seqNo
  }

  /** The highest sequence number seen, starting from `least`. */
  function Highest(events: seq<Event>, least: int): int {
    if events == [] then least else Max(Highest(events[..|events| - 1], least), events[|events| - 1].seqNo)
  }

  lemma {:induction false} HighestBounds(events: seq<Event>, least: int)
    ensures least <= Highest(events, least)
    ensures forall i :: 0 <= i < |events| ==> events[i].seqNo <= Highest(events, least)
    ensures Highest(events, least) == least || exists i :: 0 <= i < |events| && events[i].seqNo == Highest(events, least)
  {
    if events != [] {
      var n := |events| - 1;
      HighestBounds(events[..n], least);
      var h := Highest(events[..n], least);
      if Highest(events, least) != h {
        assert events[n].seqNo == Highest(events, least);
      } else if h != least {
        var i :| 0 <= i < n && events[..n][i].seqNo == h;
        assert events[i].seqNo == h;
      }
    }
  }

  /** One captured message for each capturable event in range, saying what it says. */
  ghost predicate Covers(messages: seq<Captured>, events: seq<Event>, lo: int, hi: int, maxChars: nat) {
    && (forall i :: 0 <= i < |messages| ==> CameFrom(messages[i], events, lo, hi, maxChars))
    && (forall k :: 0 <= k < |events| && lo < events[k].seqNo <= hi && WorthCapturing(events[k]) ==>
          ArrivedIn(events[k], messages, maxChars))
  }

  ghost predicate CameFrom(m: Captured, events: seq<Event>, lo: int, hi: int, maxChars: nat) {
    exists k :: 0 <= k < |events| && lo < events[k].seqNo <= hi && IsImage(m, events[k], maxChars)
  }

  ghost predicate ArrivedIn(e: Event, messages: seq<Captured>, maxChars: nat) {
    exists i :: 0 <= i < |messages| && IsImage(messages[i], e, maxChars)
  }

  ghost predicate IsImage(m: Captured, e: Event, maxChars: nat) {
    m.seqNo == e.seqNo && SaysEvent(e, m.item, maxChars)
  }

  /** Direct user messages with text, assistant messages with text or calls, tool results. */
  predicate WorthCapturing(e: Event) {
    || (e.UserMessage? && e.direct && e.text != "")
    || (e.AssistantMessage? && (e.text != "" || e.calls != []))
    || e.ToolResult?
  }

  lemma {:induction false} BetweenCovers(events: seq<Event>, lo: int, hi: int, maxChars: nat)
    ensures Covers(Between(events, lo, hi, maxChars), events, lo, hi, maxChars)
  {
    if events != [] {
      var n := |events| - 1;
      BetweenCovers(events[..n], lo, hi, maxChars);
      CoversOneMore(Between(events[..n], lo, hi, maxChars), events, lo, hi, maxChars);
    }
  }

  lemma {:induction false} CoversOneMore(front: seq<Captured>, events: seq<Event>, lo: int, hi: int, maxChars: nat)
    requires events != [] && Covers(front, events[..|events| - 1], lo, hi, maxChars)
    ensures var e := events[|events| - 1];
            Covers(if lo < e.seqNo <= hi && Captures(e, maxChars)
                   then front + [Captured(e.seqNo, Convert(e, maxChars).value)] else front, events, lo, hi, maxChars)
  {
    var n := |events| - 1;
    var e := events[n];
    WhatIsCaptured(e, maxChars);
    if Captures(e, maxChars) { CapturedSaysEvent(e, maxChars); }
    var all := if lo < e.seqNo <= hi && Captures(e, maxChars)
               then front + [Captured(e.seqNo, Convert(e, maxChars).value)] else front;
    forall i | 0 <= i < |all| ensures CameFrom(all[i], events, lo, hi, maxChars) {
      if i < |front| {
        assert CameFrom(front[i], events[..n], lo, hi, maxChars);
        var k :| 0 <= k < n && lo < events[..n][k].seqNo <= hi && IsImage(front[i], events[..n][k], maxChars);
        assert IsImage(all[i], events[k], maxChars);
      } else {
        assert IsImage(all[i], events[n], maxChars);
      }
    }
    forall k | 0 <= k < |events| && lo < events[k].seqNo <= hi && WorthCapturing(events[k])
      ensures ArrivedIn(events[k], all, maxChars)
    {
      if k < n {
        assert events[..n][k] == events[k];
        assert ArrivedIn(events[k], front, maxChars);
        var i :| 0 <= i < |front| && IsImage(front[i], events[k], maxChars);
        assert IsImage(all[i], events[k], maxChars);
      } else {
        assert IsImage(all[|front|], e, maxChars);
      }
    }
  }

  /** The loop of `captureMessagesSince`. */
  method CaptureMessagesSince(events: seq<Event>, afterSeq: int, maxChars: nat)
    returns (messages: seq<Captured>, scannedThrough: int)
    ensures scannedThrough == Highest(events, afterSeq)
    ensures messages == Between(events, afterSeq, scannedThrough, maxChars)
    ensures Covers(messages, events, afterSeq, scannedThrough, maxChars)
    ensures forall k :: 0 <= k < |events| ==> events[k].seqNo <= scannedThrough
  {
    BetweenCovers(events, afterSeq, Highest(events, afterSeq), maxChars);
    HighestBounds(events, afterSeq);
    messages, scannedThrough := [], afterSeq;
    for i := 0 to |events|
      invariant scannedThrough == Highest(events[..i], afterSeq)
      invariant messages == Between(events[..i], afterSeq, Highest(events, afterSeq), maxChars)
    {
      HighestBounds(events, afterSeq);
      assert events[..i + 1][..i] == events[..i];
      var e := events[i];
      HighestBounds(events[..i], afterSeq);
      if e.seqNo <= afterSeq {
        continue;
      }
      scannedThrough := Max(scannedThrough, e.seqNo);
      var item := Convert(e, maxChars);
      if item.Some? {
        messages := messages + [Captured(e.seqNo, item.value)];
      }
    }
    assert events[..|events|] == events;
  }

  // ── Slices of an increasing log ─────────────────────────────────────────

  lemma {:induction false} NothingBetween(events: seq<Event>, lo: int, hi: int, maxChars: nat)
    requires forall i :: 0 <= i < |events| ==> events[i].seqNo <= lo || events[i].seqNo > hi
    ensures Between(events, lo, hi, maxChars) == []
  {
    if events != [] {
      NothingBetween(events[..|events| - 1], lo, hi, maxChars);
    }
  }

  /** Consecutive slices concatenate. */
  lemma {:induction false} BetweenSplits(events: seq<Event>, lo: int, mid: int, hi: int, maxChars: nat)
    requires Increasing(events) && lo <= mid <= hi
    ensures Between(events, lo, hi, maxChars) == Between(events, lo, mid, maxChars) + Between(events, mid, hi, maxChars)
  {
    if events != [] {
      var n := |events| - 1;
      var front, e := events[..n], events[n];
      BetweenSplits(front, lo, mid, hi, maxChars);
      if e.seqNo <= mid {
        NothingBetween(front, mid, hi, maxChars);
        NothingBetween(events, mid, hi, maxChars);
      } else if e.seqNo <= hi && Captures(e, maxChars) {
        var a, b := Between(front, lo, mid, maxChars), Between(front, mid, hi, maxChars);
        AppendAssociates(a, b, [Captured(e.seqNo, Convert(e, maxChars).value)]);
        assert Between(events, lo, mid, maxChars) == a;
      }
    }
  }

  predicate OccursIn(events: seq<Event>, q: int) {
    exists k :: 0 <= k < |events| && events[k].seqNo == q
  }

  ghost predicate InRange(ms: seq<Captured>, lo: int, hi: int) {
    && (forall i :: 0 <= i < |ms| ==> lo < ms[i].seqNo <= hi)
    && (forall i, j :: 0 <= i < j < |ms| ==> ms[i].seqNo < ms[j].seqNo)
  }

  lemma {:induction false} BetweenSeqs(events: seq<Event>, lo: int, hi: int, maxChars: nat)
    requires Increasing(events)
    ensures InRange(Between(events, lo, hi, maxChars), lo, hi)
    ensures forall m :: m in Between(events, lo, hi, maxChars) ==> OccursIn(events, m.seqNo)
  {
    if events != [] {
      var n := |events| - 1;
      BetweenSeqs(events[..n], lo, hi, maxChars);
      var front, ms := Between(events[..n], lo, hi, maxChars), Between(events, lo, hi, maxChars);
      forall m | m in ms ensures OccursIn(events, m.seqNo) {
        if m in front {
          assert OccursIn(events[..n], m.seqNo);
          var k :| 0 <= k < n && events[..n][k].seqNo == m.seqNo;
          assert events[k].seqNo == m.seqNo;
        } else {
          assert events[n].seqNo == m.seqNo;
        }
      }
      forall m | m in front ensures m.seqNo < events[n].seqNo {
        assert OccursIn(events[..n], m.seqNo);
        var k :| 0 <= k < n && events[..n][k].seqNo == m.seqNo;
        assert events[k].seqNo < events[n].seqNo;
      }
      forall i | 0 <= i < |front| ensures front[i].seqNo < events[n].seqNo {
        assert front[i] in front;
      }
    }
  }

  /** Cutting a slice after its k-th message is the slice up to that message. */
  lemma {:induction false} BetweenPrefix(events: seq<Event>, lo: int, hi: int, k: nat, maxChars: nat)
    requires Increasing(events) && 0 < k <= |Between(events, lo, hi, maxChars)|
    ensures Between(events, lo, Between(events, lo, hi, maxChars)[k - 1].seqNo, maxChars)
         == Between(events, lo, hi, maxChars)[..k]
  {
    var ms := Between(events, lo, hi, maxChars);
    var cut := ms[k - 1].seqNo;
    BetweenSeqs(events, lo, hi, maxChars);
    BetweenSplits(events, lo, cut, hi, maxChars);
    var a, b := Between(events, lo, cut, maxChars), Between(events, cut, hi, maxChars);
    BetweenSeqs(events, lo, cut, maxChars);
    BetweenSeqs(events, cut, hi, maxChars);
    assert ms == a + b;
    forall i | 0 <= i < |ms| ensures i < |a| <==> ms[i].seqNo <= cut {
      if i < |a| { assert ms[i] == a[i]; } else { assert ms[i] == b[i - |a|]; }
    }
    assert k - 1 < |a|;
    assert k < |ms| ==> ms[k].seqNo > cut;
  }

  /** Appending later events changes no earlier slice. */
  lemma {:induction false} BetweenAppend(events: seq<Event>, more: seq<Event>, lo: int, hi: int, maxChars: nat)
    requires forall i :: 0 <= i < |more| ==> more[i].seqNo <= lo || more[i].seqNo > hi
    ensures Between(events + more, lo, hi, maxChars) == Between(events, lo, hi, maxChars)
    decreases |more|
  {
    if more == [] {
      assert events + more == events;
    } else {
      var n := |more| - 1;
      assert (events + more)[..|events + more| - 1] == events + more[..n];
      BetweenAppend(events, more[..n], lo, hi, maxChars);
    }
  }
}
