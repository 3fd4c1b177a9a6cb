/** Capture and flush of one DSH session: the cursor over the event log, the messages the
    server has accepted, and the pending counters that drive flushes. The promise queue
    runs these operations one at a time. */
module MemoryRuntime {
  import opened Common
  import opened Capture

  const ADD_MAX_MESSAGES: nat := 500

  // ── Token estimate ──────────────────────────────────────────────────────

  function Serialized(item: Item): string {
    item.content + (if item.calls == [] then "" else "[" + Join(item.calls, ",") + "]") + item.toolCallId
  }

  predicate IsAscii(c: char) {
    c <= '\U{7F}'
  }

  function CountAscii(s: string): nat {
    if s == "" then 0 else CountAscii(s[..|s| - 1]) + if IsAscii(s[|s| - 1]) then 1 else 0
  }

  /** A quarter of the ASCII characters, rounded up, plus the others; at least one. */
  function Estimate(item: Item): nat {
    var ascii := CountAscii(Serialized(item));
    CountAsciiBound(Serialized(item));
    Max(1, (ascii + 3) / 4 + (|Serialized(item)| - ascii))
  }

  lemma {:induction false} CountAsciiBound(s: string)
    ensures CountAscii(s) <= |s|
  {
    if s != "" { CountAsciiBound(s[..|s| - 1]); }
  }

  /** The ASCII count is the number of places that hold a character up to U+007F. */
  lemma {:induction false} CountAsciiIs(s: string)
    ensures CountAscii(s) == |set i | 0 <= i < |s| && s[i] <= '\U{7F}'|
  {
    if s != "" {
      var n := |s| - 1;
      CountAsciiIs(s[..n]);
      var front, all := set i | 0 <= i < n && s[..n][i] <= '\U{7F}', set i | 0 <= i < |s| && s[i] <= '\U{7F}';
      assert all == if s[n] <= '\U{7F}' then front + {n} else front;
    }
  }

  lemma {:induction false} CountAsciiAppend(a: string, b: string)
    ensures CountAscii(a + b) == CountAscii(a) + CountAscii(b)
    decreases |b|
  {
    if b == "" {
      assert a + b == a;
    } else {
      var n := |b| - 1;
      assert (a + b)[..|a + b| - 1] == a + b[..n];
      CountAsciiAppend(a, b[..n]);
    }
  }

  /** The cost of a list of texts in quarters of a token: one for an ASCII character, four for
      any other. */
  function Quarters(s: string): nat {
    CountAsciiBound(s);
    CountAscii(s) + 4 * (|s| - CountAscii(s))
  }

  lemma {:induction false} QuartersAppend(a: string, b: string)
    ensures Quarters(a + b) == Quarters(a) + Quarters(b)
  {
    CountAsciiAppend(a, b);
    CountAsciiBound(a);
    CountAsciiBound(b);
    CountAsciiBound(a + b);
  }

  /** The estimate from the message's parts: their quarters added up, with the brackets and
      commas of the call list, and rounded up to whole tokens, at least one. */
  lemma {:induction false} EstimateFromParts(item: Item)
    ensures var q := Quarters(item.content) + Quarters(item.toolCallId)
                     + (if item.calls == [] then 0 else 2 + Quarters(Join(item.calls, ",")));
      && (q == 0 ==> Estimate(item) == 1)
      && (q > 0 ==> 4 * (Estimate(item) - 1) < q <= 4 * Estimate(item))
  {
    var calls := if item.calls == [] then "" else "[" + Join(item.calls, ",") + "]";
    assert Serialized(item) == item.content + calls + item.toolCallId;
    QuartersAppend(item.content + calls, item.toolCallId);
    QuartersAppend(item.content, calls);
    CountAsciiBound(Serialized(item));
    if item.calls != [] {
      QuartersAppend("[" + Join(item.calls, ","), "]");
      QuartersAppend("[", Join(item.calls, ","));
      BracketQuarters();
    }
  }

  lemma {:induction false} BracketQuarters()
    ensures Quarters("[") == 1 && Quarters("]") == 1
  {
    assert "["[..0] == "" && "]"[..0] == "";
  }

  method EstimateMessageTokens(item: Item) returns (tokens: nat)
    ensures tokens == Estimate(item) && tokens >= 1
  {
    var text := Serialized(item);
    var ascii, nonAscii := 0, 0;
    for i := 0 to |text|
      invariant ascii == CountAscii(text[..i]) && ascii + nonAscii == i
    {
      assert text[..i + 1][..i] == text[..i];
      if IsAscii(text[i]) {
        ascii := ascii + 1;
      } else {
        nonAscii := nonAscii + 1;
      }
    }
    assert text[..|text|] == text;
    tokens := Max(1, (ascii + 3) / 4 + nonAscii);
  }

  function TokenSum(ms: seq<Captured>): nat {
    if ms == [] then 0 else TokenSum(ms[..|ms| - 1]) + Estimate(ms[|ms| - 1].item)
  }

  lemma {:induction false} TokenSumAppend(a: seq<Captured>, b: seq<Captured>)
    ensures TokenSum(a + b) == TokenSum(a) + TokenSum(b)
    decreases |b|
  {
    if b == [] {
      assert a + b == a;
    } else {
      assert (a + b)[..|a + b| - 1] == a + b[..|b| - 1];
      TokenSumAppend(a, b[..|b| - 1]);
    }
  }

  lemma {:induction false} TokensAtLeastMessages(ms: seq<Captured>)
    ensures TokenSum(ms) >= |ms|
  {
    if ms != [] { TokensAtLeastMessages(ms[..|ms| - 1]); }
  }

  // ── One session ─────────────────────────────────────────────────────────

  /** `sent` is what the server accepted, in order; `flushed` how much of it had been sent
      at the last successful flush. */
  datatype Mem = Mem(cursor: int, pendingMessages: nat, pendingTokens: nat, firstPendingAt: Option<int>,
                     sent: seq<Captured>, flushed: nat)

  datatype Reason = Idle | Threshold | MaxDelay | SessionSwitch | SessionDisposed | Shutdown

  predicate Terminal(r: Reason) {
    r == Shutdown || r == SessionDisposed
  }

  /** How an operation fares: the first batch whose `add` fails, if any, and whether the
      flush request fails. A failed `add` is one the server did not take. */
  datatype Luck = Luck(failAt: Option<nat>, flushFails: bool)

  /** How many of `total` messages are in batches before the failing one. */
  function Accepted(total: nat, failAt: Option<nat>): nat {
    if failAt.None? || ADD_MAX_MESSAGES * failAt.value >= total then total else ADD_MAX_MESSAGES * failAt.value
  }

  lemma NothingYet(m: Mem, ms: seq<Captured>, now: int)
    ensures Add(m, ms[..0], now) == m
  {
    assert ms[..0] == [];
  }

  /** If a batch is reached and is not the failing one, it is accepted too. */
  lemma AcceptedNext(total: nat, failAt: Option<nat>, batches: nat)
    requires ADD_MAX_MESSAGES * batches < total && ADD_MAX_MESSAGES * batches <= Accepted(total, failAt)
    ensures failAt == Some(batches) ==> Accepted(total, failAt) == ADD_MAX_MESSAGES * batches
    ensures failAt != Some(batches) ==> Min(ADD_MAX_MESSAGES * batches + ADD_MAX_MESSAGES, total) <= Accepted(total, failAt)
  {
    assert ADD_MAX_MESSAGES == 500;
  }

  function NewMessages(m: Mem, events: seq<Event>, maxChars: nat): seq<Captured> {
    Between(events, m.cursor, Highest(events, m.cursor), maxChars)
  }

  function Add(m: Mem, ms: seq<Captured>, now: int): Mem {
    if ms == [] then m
    else Mem(ms[|ms| - 1].seqNo, m.pendingMessages + |ms|, m.pendingTokens + TokenSum(ms),
             if m.firstPendingAt.Some? then m.firstPendingAt else Some(now), m.sent + ms, m.flushed)
  }

  lemma {:induction false} AddMore(m: Mem, a: seq<Captured>, b: seq<Captured>, now: int)
    ensures Add(Add(m, a, now), b, now) == Add(m, a + b, now)
  {
    TokenSumAppend(a, b);
    if b == [] {
      assert a + b == a;
    } else if a == [] {
      assert a + b == b;
    } else {
      AppendAssociates(m.sent, a, b);
    }
  }

  lemma {:induction false} AddNext(base: Mem, ms: seq<Captured>, index: nat, stop: nat, now: int)
    requires index <= stop <= |ms|
    ensures Add(Add(base, ms[..index], now), ms[index..stop], now) == Add(base, ms[..stop], now)
  {
    AddMore(base, ms[..index], ms[index..stop], now);
    assert ms[..stop] == ms[..index] + ms[index..stop];
  }

  predicate CaptureGoes(m: Mem, events: seq<Event>, luck: Luck, maxChars: nat) {
    var ms := NewMessages(m, events, maxChars);
    Accepted(|ms|, luck.failAt) == |ms|
  }

  /** `captureNow`: the accepted batches are added, and the cursor ends at the last scanned
      event, or at the last accepted message when an `add` fails. */
  function CaptureNow(m: Mem, events: seq<Event>, luck: Luck, now: int, maxChars: nat): Mem {
    var ms := NewMessages(m, events, maxChars);
    var added := Add(m, ms[..Accepted(|ms|, luck.failAt)], now);
    if CaptureGoes(m, events, luck, maxChars)
    then added.(cursor := Max(added.cursor, Highest(events, m.cursor)))
    else added
  }

  /** `flush`, after its own capture went through. */
  function FlushRequest(m: Mem, reason: Reason, force: bool, fails: bool, now: int): Mem {
    if !force && m.pendingMessages == 0 then m
    else if fails then (if Terminal(reason) then m else m.(firstPendingAt := Some(now)))
    else m.(pendingMessages := 0, pendingTokens := 0, firstPendingAt := None, flushed := |m.sent|)
  }

  function Flush(m: Mem, events: seq<Event>, reason: Reason, force: bool, luck: Luck, now: int, maxChars: nat): Mem {
    var captured := CaptureNow(m, events, luck, now, maxChars);
    if CaptureGoes(m, events, luck, maxChars) then FlushRequest(captured, reason, force, luck.flushFails, now) else captured
  }

  /** `seal`: a forced flush; the session's state is retired exactly when it goes through. */
  predicate SealGoes(m: Mem, events: seq<Event>, luck: Luck, maxChars: nat) {
    CaptureGoes(m, events, luck, maxChars) && !luck.flushFails
  }

  predicate UnderThresholds(m: Mem, messageThreshold: nat, tokenThreshold: nat) {
    m.pendingMessages < messageThreshold && m.pendingTokens < tokenThreshold
  }

  /** No capture of a public `capture` call fails: not its own, which leads to `mid`, and not
      that of the threshold flush, if there is one. */
  predicate CapturesGo(m: Mem, mid: Mem, events: seq<Event>, later: seq<Event>, luck: Luck, flushLuck: Luck,
                       maxChars: nat, messageThreshold: nat, tokenThreshold: nat) {
    && CaptureGoes(m, events, luck, maxChars)
    && (UnderThresholds(mid, messageThreshold, tokenThreshold) || CaptureGoes(mid, later, flushLuck, maxChars))
  }

  class SessionMemory {
    var cursor: int
    var pendingMessages: nat
    var pendingTokens: nat
    var firstPendingAt: Option<int>
    var idleTimer: bool
    var maxTimer: bool
    /** The server's side of the session. */
    var sent: seq<Captured>
    var flushed: nat

    constructor (firstLiveSeq: int)
      ensures View() == Mem(firstLiveSeq - 1, 0, 0, None, [], 0) && !idleTimer && !maxTimer
    {
      cursor, pendingMessages, pendingTokens, firstPendingAt := firstLiveSeq - 1, 0, 0, None;
      idleTimer, maxTimer, sent, flushed := false, false, [], 0;
    }

    function View(): Mem
      reads this
    {
      Mem(cursor, pendingMessages, pendingTokens, firstPendingAt, sent, flushed)
    }

    method SumTokens(batch: seq<Captured>) returns (tokens: nat)
      ensures tokens == TokenSum(batch)
    {
      tokens := 0;
      for i := 0 to |batch|
        invariant tokens == TokenSum(batch[..i])
      {
        assert batch[..i + 1][..i] == batch[..i];
        var one := EstimateMessageTokens(batch[i].item);
        tokens := tokens + one;
      }
      assert batch[..|batch|] == batch;
    }

    /** One accepted batch. */
    method AddBatch(batch: seq<Captured>, now: int)
      requires batch != []
      modifies this`cursor, this`pendingMessages, this`pendingTokens, this`firstPendingAt, this`sent
      ensures View() == Add(old(View()), batch, now)
    {
      sent := sent + batch;
      cursor := batch[|batch| - 1].seqNo;
      if firstPendingAt.None? {
        firstPendingAt := Some(now);
      }
      var tokens := SumTokens(batch);
      pendingMessages := pendingMessages + |batch|;
      pendingTokens := pendingTokens + tokens;
    }

    /** The batch loop: how many messages were accepted, and whether all were. */
    method AddBatches(ms: seq<Captured>, failAt: Option<nat>, now: int) returns (index: nat)
      modifies this`cursor, this`pendingMessages, this`pendingTokens, this`firstPendingAt, this`sent
      ensures index == Accepted(|ms|, failAt) && index <= |ms|
      ensures View() == Add(old(View()), ms[..index], now)
    {
      ghost var was := View();
      var batches := 0;
      index := 0;
      NothingYet(was, ms, now);
      while index < |ms|
        invariant index <= |ms|
        invariant index == |ms| || index == ADD_MAX_MESSAGES * batches
        invariant index <= Accepted(|ms|, failAt) <= |ms|
        invariant View() == Add(was, ms[..index], now)
      {
        var stop := Min(index + ADD_MAX_MESSAGES, |ms|);
        AcceptedNext(|ms|, failAt, batches);
        if failAt == Some(batches) {
          return;
        }
        AddNext(was, ms, index, stop, now);
        AddBatch(ms[index..stop], now);
        index := stop;
        batches := batches + 1;
      }
    }

    method DoCapture(events: seq<Event>, luck: Luck, now: int, maxChars: nat) returns (ok: bool)
      modifies this`cursor, this`pendingMessages, this`pendingTokens, this`firstPendingAt, this`sent
      ensures View() == CaptureNow(old(View()), events, luck, now, maxChars)
      ensures ok == CaptureGoes(old(View()), events, luck, maxChars)
    {
      var ms, scannedThrough := CaptureMessagesSince(events, cursor, maxChars);
      var accepted := AddBatches(ms, luck.failAt, now);
      ok := accepted == |ms|;
      if ok {
        cursor := Max(cursor, scannedThrough);
      }
    }

    method ArmTimers()
      modifies this`idleTimer, this`maxTimer
      ensures idleTimer == (old(idleTimer) || pendingMessages > 0)
      ensures maxTimer == (old(maxTimer) || pendingMessages > 0)
    {
      if pendingMessages == 0 {
        return;
      }
      idleTimer := true;
      if !maxTimer {
        maxTimer := true;
      }
    }

    /** Returns whether it ended without raising. */
    method DoFlush(events: seq<Event>, reason: Reason, force: bool, luck: Luck, now: int, maxChars: nat)
      returns (ok: bool)
      modifies this
      ensures View() == Flush(old(View()), events, reason, force, luck, now, maxChars)
      ensures ok <==>
        && CaptureGoes(old(View()), events, luck, maxChars)
        && (luck.flushFails ==> !force && CaptureNow(old(View()), events, luck, now, maxChars).pendingMessages == 0)
      ensures ok ==> pendingMessages == 0 && !idleTimer && !maxTimer
      ensures !ok && (Terminal(reason) || !CaptureGoes(old(View()), events, luck, maxChars)) ==>
        (idleTimer ==> old(idleTimer)) && (maxTimer ==> old(maxTimer))
      ensures CaptureGoes(old(View()), events, luck, maxChars) && !ok ==>
        idleTimer == maxTimer == (!Terminal(reason) && pendingMessages > 0)
      ensures !CaptureGoes(old(View()), events, luck, maxChars) ==>
        idleTimer == old(idleTimer) && maxTimer == old(maxTimer)
    {
      var captured := DoCapture(events, luck, now, maxChars);
      if !captured {
        return false;
      }
      idleTimer, maxTimer := false, false;
      if !force && pendingMessages == 0 {
        return true;
      }
      if luck.flushFails {
        if !Terminal(reason) {
          firstPendingAt := Some(now);
          ArmTimers();
        }
        return false;
      }
      pendingMessages, pendingTokens, firstPendingAt := 0, 0, None;
      flushed := |sent|;
      ok := true;
    }

    /** `seal` for any reason. Afterwards a timer is armed only if the request failed for a
        reason that is not the end of the session, with work pending: no caller gives one. */
    method DoSeal(events: seq<Event>, reason: Reason, luck: Luck, now: int, maxChars: nat) returns (retired: bool)
      modifies this
      ensures View() == Flush(old(View()), events, reason, true, luck, now, maxChars)
      ensures retired == SealGoes(old(View()), events, luck, maxChars)
      ensures idleTimer == maxTimer
      ensures idleTimer <==>
        && !Terminal(reason) && luck.flushFails && pendingMessages > 0
        && CaptureGoes(old(View()), events, luck, maxChars)
    {
      idleTimer, maxTimer := false, false;
      retired := DoFlush(events, reason, true, luck, now, maxChars);
    }

    /** The public `capture` with nothing queued in between: `later` is what the log holds
        when a threshold flush follows. Returning normally means pending work is armed; in
        general it is armed exactly when the first capture goes through and the counters are
        under both thresholds or the capture of the threshold flush goes through too. The
        age timer alone may also survive from before. */
    method DoCaptureAndSchedule(events: seq<Event>, later: seq<Event>, luck: Luck, flushLuck: Luck, now: int,
                                maxChars: nat, messageThreshold: nat, tokenThreshold: nat)
      returns (ok: bool)
      modifies this
      ensures ok ==> pendingMessages == 0 || (idleTimer && maxTimer)
      ensures var mid := CaptureNow(old(View()), events, luck, now, maxChars);
        pendingMessages > 0 ==>
          && (idleTimer <==> CapturesGo(old(View()), mid, events, later, luck, flushLuck, maxChars, messageThreshold, tokenThreshold))
          && (maxTimer <==> idleTimer || old(maxTimer))
      ensures var mid := CaptureNow(old(View()), events, luck, now, maxChars);
        CaptureGoes(old(View()), events, luck, maxChars) ==>
          if mid.pendingMessages > 0 && (mid.pendingMessages >= messageThreshold || mid.pendingTokens >= tokenThreshold) then
            && View() == Flush(mid, later, Threshold, false, flushLuck, now, maxChars)
            && (ok <==> CaptureGoes(mid, later, flushLuck, maxChars) && !flushLuck.flushFails)
            && (ok ==> pendingMessages == 0 && flushed == |sent| && !idleTimer && !maxTimer)
          else ok && View() == mid
      ensures !CaptureGoes(old(View()), events, luck, maxChars) ==>
        && !ok && !idleTimer && maxTimer == old(maxTimer)
        && View() == CaptureNow(old(View()), events, luck, now, maxChars)
    {
      idleTimer := false;
      var captured := DoCapture(events, luck, now, maxChars);
      if !captured {
        return false;
      }
      if pendingMessages == 0 {
        return true;
      }
      if pendingMessages >= messageThreshold || pendingTokens >= tokenThreshold {
        ok := DoFlush(later, Threshold, false, flushLuck, now, maxChars);
        return;
      }
      ArmTimers();
      ok := true;
    }
  }

  /** Pending work does not imply an armed timer: a capture that fails after its first batch
      leaves five hundred messages pending and no timer at all. */
  method PendingWithoutTimer(mem: SessionMemory, events: seq<Event>, now: int, maxChars: nat) returns (ok: bool)
    requires !mem.maxTimer && mem.pendingMessages == 0
    requires |NewMessages(mem.View(), events, maxChars)| > ADD_MAX_MESSAGES
    modifies mem
    ensures !ok && mem.pendingMessages == ADD_MAX_MESSAGES && !mem.idleTimer && !mem.maxTimer
  {
    ok := mem.DoCaptureAndSchedule(events, events, Luck(Some(1), false), Luck(None, false), now, maxChars, 1, 1);
  }

  // ── Runs ────────────────────────────────────────────────────────────────

  /** An operation, and the events committed to the log before it starts. */
  datatype Op =
    | CaptureOp(more: seq<Event>, luck: Luck, now: int)
    | FlushOp(more: seq<Event>, reason: Reason, force: bool, luck: Luck, now: int)

  function Apply(m: Mem, events: seq<Event>, op: Op, maxChars: nat): Mem {
    match op
    case CaptureOp(_, luck, now) => CaptureNow(m, events, luck, now, maxChars)
    case FlushOp(_, reason, force, luck, now) => Flush(m, events, reason, force, luck, now, maxChars)
  }

  function LogAfter(events: seq<Event>, ops: seq<Op>): seq<Event>
    decreases |ops|
  {
    if ops == [] then events else LogAfter(events + ops[0].more, ops[1..])
  }

  function RunOps(m: Mem, events: seq<Event>, ops: seq<Op>, maxChars: nat): Mem
    decreases |ops|
  {
    if ops == [] then m
    else
      var log := events + ops[0].more;
      RunOps(Apply(m, log, ops[0], maxChars), log, ops[1..], maxChars)
  }

  /** Exactly the messages of the log from `lo` up to the cursor have been sent, in order. */
  ghost predicate SentExactly(m: Mem, events: seq<Event>, lo: int, maxChars: nat) {
    && lo <= m.cursor <= Highest(events, lo)
    && m.sent == Between(events, lo, m.cursor, maxChars)
  }

  ghost predicate Accounted(m: Mem) {
    && m.flushed <= |m.sent|
    && m.pendingMessages == |m.sent| - m.flushed
    && m.pendingTokens == TokenSum(m.sent[m.flushed..])
  }

  predicate FirstOk(m: Mem) {
    m.firstPendingAt.Some? <==> m.pendingMessages > 0
  }

  lemma {:induction false} GrowKeepsSent(m: Mem, events: seq<Event>, more: seq<Event>, lo: int, maxChars: nat)
    requires SentExactly(m, events, lo, maxChars) && Increasing(events + more)
    ensures SentExactly(m, events + more, lo, maxChars)
  {
    var all := events + more;
    HighestBounds(events, lo);
    HighestBounds(all, lo);
    assert Highest(events, lo) <= Highest(all, lo) by {
      if Highest(events, lo) != lo {
        var i :| 0 <= i < |events| && events[i].seqNo == Highest(events, lo);
        assert all[i].seqNo <= Highest(all, lo);
      }
    }
    forall k | 0 <= k < |more| ensures more[k].seqNo <= lo || more[k].seqNo > m.cursor {
      if m.cursor > lo {
        var i :| 0 <= i < |events| && events[i].seqNo == Highest(events, lo);
        assert all[i].seqNo < all[|events| + k].seqNo;
      }
    }
    BetweenAppend(events, more, lo, m.cursor, maxChars);
  }

  lemma {:induction false} HighestFrom(events: seq<Event>, lo: int, c: int)
    requires lo <= c <= Highest(events, lo)
    ensures Highest(events, c) == Highest(events, lo)
  {
    if events != [] {
      var n := |events| - 1;
      if c <= Highest(events[..n], lo) {
        HighestFrom(events[..n], lo, c);
      } else {
        HighestBounds(events[..n], lo);
        HighestBounds(events[..n], c);
      }
    }
  }

  lemma {:induction false} CaptureSends(m: Mem, events: seq<Event>, luck: Luck, now: int, lo: int, maxChars: nat)
    requires SentExactly(m, events, lo, maxChars) && Increasing(events)
    ensures var m' := CaptureNow(m, events, luck, now, maxChars);
      && SentExactly(m', events, lo, maxChars)
      && m.cursor <= m'.cursor
      && m.sent <= m'.sent
      && (CaptureGoes(m, events, luck, maxChars) ==> m'.cursor == Highest(events, lo))
  {
    var top := Highest(events, m.cursor);
    HighestBounds(events, m.cursor);
    HighestFrom(events, lo, m.cursor);
    var ms := NewMessages(m, events, maxChars);
    var n := Accepted(|ms|, luck.failAt);
    var m' := CaptureNow(m, events, luck, now, maxChars);
    BetweenSeqs(events, m.cursor, top, maxChars);
    if CaptureGoes(m, events, luck, maxChars) {
      assert ms[..n] == ms;
      BetweenSplits(events, lo, m.cursor, top, maxChars);
    } else if n > 0 {
      BetweenPrefix(events, m.cursor, top, n, maxChars);
      BetweenSplits(events, lo, m.cursor, ms[n - 1].seqNo, maxChars);
      assert ms[..n][n - 1] == ms[n - 1];
    } else {
      assert ms[..0] == [];
    }
  }

  lemma {:induction false} FlushSends(m: Mem, events: seq<Event>, op: Op, lo: int, maxChars: nat)
    requires SentExactly(m, events, lo, maxChars) && Increasing(events)
    ensures var m' := Apply(m, events, op, maxChars);
      && SentExactly(m', events, lo, maxChars)
      && m.cursor <= m'.cursor && m.sent <= m'.sent
      && (CaptureGoes(m, events, op.luck, maxChars) ==> m'.cursor == Highest(events, lo))
  {
    CaptureSends(m, events, op.luck, op.now, lo, maxChars);
  }

  lemma {:induction false} RunSends(m: Mem, events: seq<Event>, ops: seq<Op>, lo: int, maxChars: nat)
    requires SentExactly(m, events, lo, maxChars) && Increasing(LogAfter(events, ops))
    ensures SentExactly(RunOps(m, events, ops, maxChars), LogAfter(events, ops), lo, maxChars)
    ensures m.cursor <= RunOps(m, events, ops, maxChars).cursor
    ensures m.sent <= RunOps(m, events, ops, maxChars).sent
    decreases |ops|
  {
    if ops != [] {
      var log := events + ops[0].more;
      LogGrows(log, ops[1..]);
      GrowKeepsSent(m, events, ops[0].more, lo, maxChars);
      FlushSends(m, log, ops[0], lo, maxChars);
      RunSends(Apply(m, log, ops[0], maxChars), log, ops[1..], lo, maxChars);
    }
  }

  lemma {:induction false} LogGrows(events: seq<Event>, ops: seq<Op>)
    requires Increasing(LogAfter(events, ops))
    ensures Increasing(events)
    ensures events <= LogAfter(events, ops)
    decreases |ops|
  {
    if ops != [] {
      var log := events + ops[0].more;
      LogGrows(log, ops[1..]);
      forall i, j | 0 <= i < j < |events| ensures events[i].seqNo < events[j].seqNo {
        assert log[i].seqNo < log[j].seqNo;
      }
    }
  }

  /** Exactly-once capture: over any run in which `add` requests may fail cleanly between
      batches, the accepted batches concatenate to exactly the capturable messages from
      `firstLiveSeq` up to the cursor, in order, without gap or repeat, each saying what its
      event says. */
  lemma {:induction false} ExactlyOnceCapture(firstLiveSeq: int, seed: seq<Event>, ops: seq<Op>, maxChars: nat)
    requires Increasing(LogAfter(seed, ops))
    ensures var m := RunOps(Mem(firstLiveSeq - 1, 0, 0, None, [], 0), seed, ops, maxChars);
      && m.sent == Between(LogAfter(seed, ops), firstLiveSeq - 1, m.cursor, maxChars)
      && Covers(m.sent, LogAfter(seed, ops), firstLiveSeq - 1, m.cursor, maxChars)
      && InRange(m.sent, firstLiveSeq - 1, m.cursor)
  {
    var m := Mem(firstLiveSeq - 1, 0, 0, None, [], 0);
    HighestBounds(seed, firstLiveSeq - 1);
    NothingBetween(seed, firstLiveSeq - 1, firstLiveSeq - 1, maxChars);
    RunSends(m, seed, ops, firstLiveSeq - 1, maxChars);
    BetweenCovers(LogAfter(seed, ops), firstLiveSeq - 1, RunOps(m, seed, ops, maxChars).cursor, maxChars);
    BetweenSeqs(LogAfter(seed, ops), firstLiveSeq - 1, RunOps(m, seed, ops, maxChars).cursor, maxChars);
  }

  /** The cursor never moves back, and an operation whose adds all went through has sent
      the whole log. */
  lemma {:induction false} CursorAdvances(firstLiveSeq: int, seed: seq<Event>, ops: seq<Op>, op: Op, maxChars: nat)
    requires Increasing(LogAfter(seed, ops + [op]))
    ensures var lo := firstLiveSeq - 1;
            var m := RunOps(Mem(lo, 0, 0, None, [], 0), seed, ops, maxChars);
            var log := LogAfter(seed, ops) + op.more;
            var m' := Apply(m, log, op, maxChars);
      && m.cursor <= m'.cursor && m.sent <= m'.sent
      && (CaptureGoes(m, log, op.luck, maxChars) ==> m'.sent == Between(log, lo, Highest(log, lo), maxChars))
  {
    var lo := firstLiveSeq - 1;
    var m0 := Mem(lo, 0, 0, None, [], 0);
    LogSnoc(seed, ops, op);
    HighestBounds(seed, lo);
    NothingBetween(seed, lo, lo, maxChars);
    var before := LogAfter(seed, ops);
    forall i, j | 0 <= i < j < |before| ensures before[i].seqNo < before[j].seqNo {
      assert (before + op.more)[i].seqNo < (before + op.more)[j].seqNo;
    }
    RunSends(m0, seed, ops, lo, maxChars);
    var m := RunOps(m0, seed, ops, maxChars);
    GrowKeepsSent(m, before, op.more, lo, maxChars);
    FlushSends(m, before + op.more, op, lo, maxChars);
  }

  lemma {:induction false} LogSnoc(events: seq<Event>, ops: seq<Op>, op: Op)
    ensures LogAfter(events, ops + [op]) == LogAfter(events, ops) + op.more
    decreases |ops|
  {
    if ops == [] {
      assert [op][1..] == [];
    } else {
      assert (ops + [op])[1..] == ops[1..] + [op];
      LogSnoc(events + ops[0].more, ops[1..], op);
    }
  }

  // ── Pending accounting ──────────────────────────────────────────────────

  lemma {:induction false} AddAccounted(m: Mem, ms: seq<Captured>, now: int)
    requires Accounted(m)
    ensures Accounted(Add(m, ms, now))
    ensures FirstOk(m) ==> FirstOk(Add(m, ms, now))
  {
    if ms != [] {
      assert (m.sent + ms)[m.flushed..] == m.sent[m.flushed..] + ms;
      TokenSumAppend(m.sent[m.flushed..], ms);
    }
  }

  lemma {:induction false} CaptureAccounted(m: Mem, events: seq<Event>, luck: Luck, now: int, maxChars: nat)
    requires Accounted(m)
    ensures Accounted(CaptureNow(m, events, luck, now, maxChars))
  {
    var ms := NewMessages(m, events, maxChars);
    AddAccounted(m, ms[..Accepted(|ms|, luck.failAt)], now);
  }

  lemma {:induction false} RequestAccounted(m: Mem, reason: Reason, force: bool, fails: bool, now: int)
    requires Accounted(m)
    ensures Accounted(FlushRequest(m, reason, force, fails, now))
  {
    assert m.sent[|m.sent|..] == [];
  }

  lemma {:induction false} ApplyAccounted(m: Mem, events: seq<Event>, op: Op, maxChars: nat)
    requires Accounted(m)
    ensures Accounted(Apply(m, events, op, maxChars))
  {
    CaptureAccounted(m, events, op.luck, op.now, maxChars);
    if op.FlushOp? {
      RequestAccounted(CaptureNow(m, events, op.luck, op.now, maxChars), op.reason, op.force, op.luck.flushFails, op.now);
    }
  }

  lemma {:induction false} RunAccounted(m: Mem, events: seq<Event>, ops: seq<Op>, maxChars: nat)
    requires Accounted(m)
    ensures Accounted(RunOps(m, events, ops, maxChars))
    decreases |ops|
  {
    if ops != [] {
      var log := events + ops[0].more;
      ApplyAccounted(m, log, ops[0], maxChars);
      RunAccounted(Apply(m, log, ops[0], maxChars), log, ops[1..], maxChars);
    }
  }

  /** Between operations the counters are the number, and the token total, of the messages
      accepted since the last successful flush, whatever failed; and never fewer tokens
      than messages. */
  lemma {:induction false} PendingIsExact(firstLiveSeq: int, seed: seq<Event>, ops: seq<Op>, maxChars: nat)
    ensures var m := RunOps(Mem(firstLiveSeq - 1, 0, 0, None, [], 0), seed, ops, maxChars);
      && m.flushed <= |m.sent|
      && m.pendingMessages == |m.sent[m.flushed..]|
      && m.pendingTokens == TokenSum(m.sent[m.flushed..])
      && m.pendingTokens >= m.pendingMessages
  {
    RunAccounted(Mem(firstLiveSeq - 1, 0, 0, None, [], 0), seed, ops, maxChars);
    var m := RunOps(Mem(firstLiveSeq - 1, 0, 0, None, [], 0), seed, ops, maxChars);
    TokensAtLeastMessages(m.sent[m.flushed..]);
  }

  /** A forced flush with nothing pending, whose request fails for a reason that is not
      the end of the session. */
  predicate Stray(m: Mem, events: seq<Event>, op: Op, maxChars: nat) {
    && op.FlushOp? && op.force && op.luck.flushFails && !Terminal(op.reason)
    && CaptureGoes(m, events, op.luck, maxChars)
    && CaptureNow(m, events, op.luck, op.now, maxChars).pendingMessages == 0
  }

  /** The age stamp is set exactly while work is pending, unless the operation is a stray
      forced flush: that one, and only that one, stamps an empty session. */
  lemma {:induction false} FirstPendingIff(m: Mem, events: seq<Event>, op: Op, maxChars: nat)
    requires Accounted(m) && FirstOk(m)
    ensures FirstOk(Apply(m, events, op, maxChars)) <==> !Stray(m, events, op, maxChars)
  {
    var ms := NewMessages(m, events, maxChars);
    AddAccounted(m, ms[..Accepted(|ms|, op.luck.failAt)], op.now);
  }

  /** No operation along the run is a stray forced flush. */
  predicate NoStray(m: Mem, events: seq<Event>, ops: seq<Op>, maxChars: nat)
    decreases |ops|
  {
    ops == [] ||
    var log := events + ops[0].more;
    !Stray(m, log, ops[0], maxChars) && NoStray(Apply(m, log, ops[0], maxChars), log, ops[1..], maxChars)
  }

  lemma {:induction false} RunFirstOk(m: Mem, events: seq<Event>, ops: seq<Op>, maxChars: nat)
    requires Accounted(m) && FirstOk(m) && NoStray(m, events, ops, maxChars)
    ensures FirstOk(RunOps(m, events, ops, maxChars))
    decreases |ops|
  {
    if ops != [] {
      var log := events + ops[0].more;
      FirstPendingIff(m, log, ops[0], maxChars);
      ApplyAccounted(m, log, ops[0], maxChars);
      RunFirstOk(Apply(m, log, ops[0], maxChars), log, ops[1..], maxChars);
    }
  }

  /** Every forced flush of the run ends the session, as the runtime's own callers see to. */
  predicate ForcedAreTerminal(ops: seq<Op>) {
    forall i :: 0 <= i < |ops| && ops[i].FlushOp? && ops[i].force ==> Terminal(ops[i].reason)
  }

  lemma {:induction false} TerminalIsNoStray(m: Mem, events: seq<Event>, ops: seq<Op>, maxChars: nat)
    requires ForcedAreTerminal(ops)
    ensures NoStray(m, events, ops, maxChars)
    decreases |ops|
  {
    if ops != [] {
      var log := events + ops[0].more;
      assert forall i :: 0 <= i < |ops[1..]| ==> ops[1..][i] == ops[i + 1];
      TerminalIsNoStray(Apply(m, log, ops[0], maxChars), log, ops[1..], maxChars);
    }
  }

  /** Between the operations of any run without a stray forced flush, and so of any run whose
      forced flushes end the session, the age stamp is set exactly while work is pending,
      whatever captures and requests fail. */
  lemma {:induction false} FirstPendingRun(firstLiveSeq: int, seed: seq<Event>, ops: seq<Op>, maxChars: nat)
    ensures var start := Mem(firstLiveSeq - 1, 0, 0, None, [], 0);
            var m := RunOps(start, seed, ops, maxChars);
      (NoStray(start, seed, ops, maxChars) || ForcedAreTerminal(ops)) ==>
        (m.firstPendingAt.Some? <==> m.pendingMessages > 0)
  {
    var start := Mem(firstLiveSeq - 1, 0, 0, None, [], 0);
    if ForcedAreTerminal(ops) { TerminalIsNoStray(start, seed, ops, maxChars); }
    if NoStray(start, seed, ops, maxChars) { RunFirstOk(start, seed, ops, maxChars); }
  }

  // ── Seal ────────────────────────────────────────────────────────────────

  /** A seal that goes through has sent and flushed the whole log; one that does not keeps
      the session's account right, so it can be tried again. */
  lemma {:induction false} SealDrains(m: Mem, events: seq<Event>, reason: Reason, luck: Luck, now: int, lo: int, maxChars: nat)
    requires SentExactly(m, events, lo, maxChars) && Accounted(m) && Increasing(events)
    ensures var m' := Flush(m, events, reason, true, luck, now, maxChars);
      && SentExactly(m', events, lo, maxChars) && Accounted(m') && m.sent <= m'.sent
      && (SealGoes(m, events, luck, maxChars) ==>
            m'.sent == Between(events, lo, Highest(events, lo), maxChars) && m'.flushed == |m'.sent|)
      && (!SealGoes(m, events, luck, maxChars) ==> m'.flushed == m.flushed)
  {
    FlushSends(m, events, FlushOp([], reason, true, luck, now), lo, maxChars);
    ApplyAccounted(m, events, FlushOp([], reason, true, luck, now), maxChars);
  }

  /** Retiring deletes the cursor. A session used again starts over, and its next capture
      sends everything a second time: harmless exactly when there was nothing to send. */
  lemma {:induction false} UseAfterSealRepeats(m: Mem, events: seq<Event>, now: int, firstLiveSeq: int, maxChars: nat)
    requires m.sent == Between(events, firstLiveSeq - 1, Highest(events, firstLiveSeq - 1), maxChars)
    ensures var again := CaptureNow(Mem(firstLiveSeq - 1, 0, 0, None, m.sent, |m.sent|), events, Luck(None, false), now, maxChars);
      && again.sent == m.sent + m.sent
      && (again.sent == m.sent <==> m.sent == [])
  {
    var restarted := Mem(firstLiveSeq - 1, 0, 0, None, m.sent, |m.sent|);
    var ms := NewMessages(restarted, events, maxChars);
    assert ms[..|ms|] == ms == m.sent;
    assert |m.sent + m.sent| == 2 * |m.sent|;
  }
}
