/** What the step system of CaptureSteps promises in every state of every run. */
module CaptureAwaits {
  import opened Common
  import opened Capture
  import opened MemoryRuntime
  import opened CaptureSteps

  /** Whatever the interleaving of submissions, log appends, adds and requests, between
      operations the session is where the finished operations, run one after the other, leave
      it; each saw the log as it was when it began; and the jobs finished, running and queued
      are the submitted ones in submission order, each once. */
  lemma {:induction false} StepsAreOperations(firstLiveSeq: int, seed: seq<Event>, ls: seq<Label>, maxChars: nat)
    requires Increasing(seed) && Legal(Start(firstLiveSeq, seed), ls, maxChars)
    ensures var s := Exec(Start(firstLiveSeq, seed), ls, maxChars);
      && s.submitted == JobsOf(s.done) + Running(s.current) + s.queue
      && LogAfter(seed, s.done) <= s.log
      && (s.current.Resting? ==> s.mem == RunOps(Start(firstLiveSeq, seed).mem, seed, s.done, maxChars))
  {
    InvHolds(firstLiveSeq, seed, ls, maxChars);
  }

  /** Adding any number of the new messages keeps the account of what was sent. */
  lemma {:induction false} PartSends(base: Mem, events: seq<Event>, k: nat, now: int, lo: int, maxChars: nat)
    requires SentExactly(base, events, lo, maxChars) && Increasing(events)
    requires k <= |NewMessages(base, events, maxChars)|
    ensures SentExactly(Add(base, NewMessages(base, events, maxChars)[..k], now), events, lo, maxChars)
  {
    var ms, top := NewMessages(base, events, maxChars), Highest(events, base.cursor);
    HighestFrom(events, lo, base.cursor);
    BetweenSeqs(events, base.cursor, top, maxChars);
    if k > 0 {
      BetweenPrefix(events, base.cursor, top, k, maxChars);
      BetweenSplits(events, lo, base.cursor, ms[k - 1].seqNo, maxChars);
      assert ms[..k][k - 1] == ms[k - 1];
    } else {
      assert ms[..0] == [];
    }
  }

  lemma {:induction false} BaseSends(s: St, start: Mem, seed: seq<Event>, lo: int, maxChars: nat)
    requires Inv(s, start, seed, maxChars) && SentExactly(start, seed, lo, maxChars)
    ensures Increasing(s.log[..s.seen])
    ensures SentExactly(RunOps(start, seed, s.done, maxChars), s.log[..s.seen], lo, maxChars)
  {
    IncreasingPrefix(s.log, s.fromLog);
    IncreasingPrefix(s.log, s.seen);
    RunSends(start, seed, s.done, lo, maxChars);
    assert s.log[..s.seen][..s.fromLog] == s.log[..s.fromLog];
    LogBeyond(RunOps(start, seed, s.done, maxChars), s.log[..s.seen], s.fromLog, lo, maxChars);
  }

  lemma {:induction false} CurrentSends(base: Mem, s: St, lo: int, maxChars: nat)
    requires s.seen <= |s.log| && CurrentOk(base, s, maxChars) && Increasing(s.log[..s.seen])
    requires SentExactly(base, s.log[..s.seen], lo, maxChars)
    ensures SentExactly(s.mem, s.log[..s.seen], lo, maxChars)
  {
    match s.current {
      case Resting =>
      case Adding(job, _, _, index, _) => PartSends(base, s.log[..s.seen], index, job.now, lo, maxChars);
      case Requesting(job) => CaptureSends(base, s.log[..s.seen], Luck(None, false), job.now, lo, maxChars);
    }
  }

  lemma {:induction false} SessionSends(s: St, start: Mem, seed: seq<Event>, lo: int, maxChars: nat)
    requires Inv(s, start, seed, maxChars) && SentExactly(start, seed, lo, maxChars)
    ensures SentExactly(s.mem, s.log, lo, maxChars)
  {
    BaseSends(s, start, seed, lo, maxChars);
    CurrentSends(RunOps(start, seed, s.done, maxChars), s, lo, maxChars);
    LogBeyond(s.mem, s.log, s.seen, lo, maxChars);
  }

  lemma {:induction false} LogBeyond(m: Mem, log: seq<Event>, seen: nat, lo: int, maxChars: nat)
    requires seen <= |log| && Increasing(log) && SentExactly(m, log[..seen], lo, maxChars)
    ensures SentExactly(m, log, lo, maxChars)
  {
    assert log[..seen] + log[seen..] == log;
    GrowKeepsSent(m, log[..seen], log[seen..], lo, maxChars);
  }

  lemma {:induction false} IncreasingPrefix(log: seq<Event>, n: nat)
    requires Increasing(log) && n <= |log|
    ensures Increasing(log[..n])
  {
  }

  lemma {:induction false} SessionAccounted(s: St, start: Mem, seed: seq<Event>, maxChars: nat)
    requires Inv(s, start, seed, maxChars) && Accounted(start)
    ensures Accounted(s.mem)
  {
    var base := RunOps(start, seed, s.done, maxChars);
    RunAccounted(start, seed, s.done, maxChars);
    match s.current {
      case Resting =>
      case Adding(job, ms, _, index, _) => AddAccounted(base, ms[..index], job.now);
      case Requesting(job) => CaptureAccounted(base, s.log[..s.seen], Luck(None, false), job.now, maxChars);
    }
  }

  /** Exactly once and exactly counted at every await: in every state of every such run, also
      between two adds of one operation, what the server has accepted is exactly the capturable
      messages of the log from `firstLiveSeq` up to the cursor, and the pending counters are
      the number and the tokens of those accepted since the last successful flush. */
  lemma {:induction false} ExactAtEveryAwait(firstLiveSeq: int, seed: seq<Event>, ls: seq<Label>, maxChars: nat)
    requires Increasing(seed) && Legal(Start(firstLiveSeq, seed), ls, maxChars)
    ensures var s := Exec(Start(firstLiveSeq, seed), ls, maxChars);
      && s.mem.sent == Between(s.log, firstLiveSeq - 1, s.mem.cursor, maxChars)
      && s.mem.flushed <= |s.mem.sent|
      && s.mem.pendingMessages == |s.mem.sent| - s.mem.flushed
      && s.mem.pendingTokens == TokenSum(s.mem.sent[s.mem.flushed..])
      && s.mem.pendingTokens >= s.mem.pendingMessages
  {
    var start, s := Start(firstLiveSeq, seed).mem, Exec(Start(firstLiveSeq, seed), ls, maxChars);
    InvHolds(firstLiveSeq, seed, ls, maxChars);
    HighestBounds(seed, firstLiveSeq - 1);
    NothingBetween(seed, firstLiveSeq - 1, firstLiveSeq - 1, maxChars);
    SessionSends(s, start, seed, firstLiveSeq - 1, maxChars);
    SessionAccounted(s, start, seed, maxChars);
    TokensAtLeastMessages(s.mem.sent[s.mem.flushed..]);
  }

  /** And what it has accepted says what the events say: a message for each capturable event
      up to the cursor, and none besides. */
  lemma {:induction false} AcceptedSaysEvents(firstLiveSeq: int, seed: seq<Event>, ls: seq<Label>, maxChars: nat)
    requires Increasing(seed) && Legal(Start(firstLiveSeq, seed), ls, maxChars)
    ensures var s := Exec(Start(firstLiveSeq, seed), ls, maxChars);
            Covers(s.mem.sent, s.log, firstLiveSeq - 1, s.mem.cursor, maxChars)
  {
    ExactAtEveryAwait(firstLiveSeq, seed, ls, maxChars);
    var s := Exec(Start(firstLiveSeq, seed), ls, maxChars);
    BetweenCovers(s.log, firstLiveSeq - 1, s.mem.cursor, maxChars);
  }

  /** The next batch ends beyond the cursor. */
  lemma {:induction false} NextBatchIsAhead(base: Mem, ms: seq<Captured>, hi: int, index: nat, stop: nat, now: int)
    requires InRange(ms, base.cursor, hi) && index < stop <= |ms|
    ensures Add(base, ms[..index], now).cursor < ms[index..stop][stop - index - 1].seqNo
  {
    assert ms[index..stop][stop - index - 1] == ms[stop - 1];
    if index > 0 { assert ms[..index][index - 1] == ms[index - 1]; }
  }

  /** No step moves the cursor back or takes back a message. */
  lemma {:induction false} StepsOnlyAdvance(firstLiveSeq: int, seed: seq<Event>, ls: seq<Label>, l: Label, maxChars: nat)
    requires Increasing(seed) && Legal(Start(firstLiveSeq, seed), ls, maxChars)
    requires Enabled(Exec(Start(firstLiveSeq, seed), ls, maxChars), l)
    ensures var s := Exec(Start(firstLiveSeq, seed), ls, maxChars);
      && s.mem.cursor <= Step(s, l, maxChars).mem.cursor
      && s.mem.sent <= Step(s, l, maxChars).mem.sent
  {
    InvHolds(firstLiveSeq, seed, ls, maxChars);
    StepAdvances(Exec(Start(firstLiveSeq, seed), ls, maxChars), Start(firstLiveSeq, seed).mem, seed, l, maxChars);
  }

  lemma {:induction false} StepAdvances(s: St, start: Mem, seed: seq<Event>, l: Label, maxChars: nat)
    requires Inv(s, start, seed, maxChars) && Enabled(s, l)
    ensures s.mem.cursor <= Step(s, l, maxChars).mem.cursor
    ensures s.mem.sent <= Step(s, l, maxChars).mem.sent
  {
    if l.AddGoes? {
      var c, base := s.current, RunOps(start, seed, s.done, maxChars);
      IncreasingPrefix(s.log, s.seen);
      BetweenSeqs(s.log[..s.seen], base.cursor, c.top, maxChars);
      NextBatchIsAhead(base, c.ms, c.top, c.index, Min(c.index + ADD_MAX_MESSAGES, |c.ms|), c.job.now);
    }
  }
}
