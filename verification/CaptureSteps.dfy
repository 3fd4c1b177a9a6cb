/** The capture runtime of one session with every await visible: operations are submitted at
    any time, the log grows at any time, each `add` and each flush request is a step of its
    own. The runs of whole operations in MemoryRuntime are what this amounts to. */
module CaptureSteps {
  import opened Common
  import opened Capture
  import opened MemoryRuntime

  /** A queued operation; an operation reads the clock once. */
  datatype Job = CaptureJob(now: int) | FlushJob(reason: Reason, force: bool, now: int)

  function ReasonOf(job: Job): Reason {
    if job.FlushJob? then job.reason else Idle
  }

  /** What the running operation is doing: adding the messages it has sliced, batch by batch,
      or waiting for its flush request. */
  datatype Current =
    | Resting
    | Adding(job: Job, ms: seq<Captured>, batches: nat, index: nat, top: int)
    | Requesting(job: Job)

  /** `seen` is how much of the log the last begun operation saw, `fromLog` the last finished
      one; `done` records the finished operations, `submitted` all jobs in submission order. */
  datatype St = St(mem: Mem, log: seq<Event>, seen: nat, current: Current, queue: seq<Job>,
                   done: seq<Op>, submitted: seq<Job>, fromLog: nat)

  datatype Label =
    | Append(events: seq<Event>)
    | Submit(job: Job)
    | Begin
    | AddGoes
    | AddFails
    | CaptureEnds
    | RequestGoes
    | RequestFails

  function Start(firstLiveSeq: int, seed: seq<Event>): St {
    St(Mem(firstLiveSeq - 1, 0, 0, None, [], 0), seed, |seed|, Resting, [], [], [], |seed|)
  }

  ghost predicate Enabled(s: St, l: Label) {
    match l
    case Append(events) => Increasing(s.log + events)
    case Submit(_) => true
    case Begin => s.current.Resting? && s.queue != []
    case AddGoes => s.current.Adding? && s.current.index < |s.current.ms|
    case AddFails => s.current.Adding? && s.current.index < |s.current.ms|
    case CaptureEnds => s.current.Adding? && s.current.index >= |s.current.ms|
    case RequestGoes => s.current.Requesting?
    case RequestFails => s.current.Requesting?
  }

  function OpOf(job: Job, more: seq<Event>, luck: Luck): Op {
    match job
    case CaptureJob(now) => CaptureOp(more, luck, now)
    case FlushJob(reason, force, now) => FlushOp(more, reason, force, luck, now)
  }

  /** The events from one log position to a later one. */
  function Slice(log: seq<Event>, from: nat, to: nat): seq<Event> {
    if from <= to <= |log| then log[from..to] else []
  }

  /** The operation ends: it is on record with the events it saw beyond the ones before it. */
  function End(s: St, job: Job, mem: Mem, luck: Luck): St {
    s.(mem := mem, current := Resting, done := s.done + [OpOf(job, Slice(s.log, s.fromLog, s.seen), luck)], fromLog := s.seen)
  }

  function BeginNext(s: St, maxChars: nat): St {
    if s.queue == [] then s
    else
      s.(current := Adding(s.queue[0], NewMessages(s.mem, s.log, maxChars), 0, 0, Highest(s.log, s.mem.cursor)),
         queue := s.queue[1..], seen := |s.log|)
  }

  function AddBatch(s: St): St {
    if !s.current.Adding? || s.current.index > |s.current.ms| then s
    else
      var c := s.current;
      var stop := Min(c.index + ADD_MAX_MESSAGES, |c.ms|);
      s.(mem := Add(s.mem, c.ms[c.index..stop], c.job.now), current := c.(batches := c.batches + 1, index := stop))
  }

  function EndCapture(s: St): St {
    if !s.current.Adding? then s
    else
      var c := s.current;
      var mem := s.mem.(cursor := Max(s.mem.cursor, c.top));
      if c.job.CaptureJob? || (!c.job.force && mem.pendingMessages == 0) then End(s, c.job, mem, Luck(None, false))
      else s.(mem := mem, current := Requesting(c.job))
  }

  function EndRequest(s: St, fails: bool): St {
    if !s.current.Requesting? then s
    else
      var job := s.current.job;
      End(s, job, FlushRequest(s.mem, ReasonOf(job), true, fails, job.now), Luck(None, fails))
  }

  function Step(s: St, l: Label, maxChars: nat): St {
    match l
    case Append(events) => s.(log := s.log + events)
    case Submit(job) => s.(queue := s.queue + [job], submitted := s.submitted + [job])
    case Begin => BeginNext(s, maxChars)
    case AddGoes => AddBatch(s)
    case AddFails =>
      if s.current.Adding? then End(s, s.current.job, s.mem, Luck(Some(s.current.batches), false)) else s
    case CaptureEnds => EndCapture(s)
    case RequestGoes => EndRequest(s, false)
    case RequestFails => EndRequest(s, true)
  }

  ghost predicate Legal(s: St, ls: seq<Label>, maxChars: nat)
    decreases |ls|
  {
    ls == [] || (Enabled(s, ls[0]) && Legal(Step(s, ls[0], maxChars), ls[1..], maxChars))
  }

  function Exec(s: St, ls: seq<Label>, maxChars: nat): St
    decreases |ls|
  {
    if ls == [] then s else Exec(Step(s, ls[0], maxChars), ls[1..], maxChars)
  }

  // ── What each state amounts to ──────────────────────────────────────────

  /** The state of the session in terms of `base`, its state when the running operation began. */
  ghost predicate CurrentOk(base: Mem, s: St, maxChars: nat)
    requires s.seen <= |s.log|
  {
    match s.current
    case Resting => s.mem == base && s.seen == s.fromLog
    case Adding(job, ms, batches, index, top) =>
      && ms == NewMessages(base, s.log[..s.seen], maxChars)
      && top == Highest(s.log[..s.seen], base.cursor)
      && index <= |ms| && (index == |ms| || index == ADD_MAX_MESSAGES * batches)
      && s.mem == Add(base, ms[..index], job.now)
    case Requesting(job) =>
      && job.FlushJob? && (job.force || s.mem.pendingMessages > 0)
      && s.mem == CaptureNow(base, s.log[..s.seen], Luck(None, false), job.now, maxChars)
  }

  function JobOf(op: Op): Job {
    match op
    case CaptureOp(_, _, now) => CaptureJob(now)
    case FlushOp(_, reason, force, _, now) => FlushJob(reason, force, now)
  }

  function JobsOf(ops: seq<Op>): seq<Job> {
    seq(|ops|, i requires 0 <= i < |ops| => JobOf(ops[i]))
  }

  function Running(c: Current): seq<Job> {
    if c.Resting? then [] else [c.job]
  }

  ghost predicate Inv(s: St, start: Mem, seed: seq<Event>, maxChars: nat) {
    && s.fromLog <= s.seen <= |s.log|
    && Increasing(s.log)
    && LogAfter(seed, s.done) == s.log[..s.fromLog]
    && CurrentOk(RunOps(start, seed, s.done, maxChars), s, maxChars)
    && s.submitted == JobsOf(s.done) + Running(s.current) + s.queue
  }

  lemma {:induction false} RunSnoc(m: Mem, events: seq<Event>, ops: seq<Op>, op: Op, maxChars: nat)
    ensures RunOps(m, events, ops + [op], maxChars) ==
            Apply(RunOps(m, events, ops, maxChars), LogAfter(events, ops) + op.more, op, maxChars)
    decreases |ops|
  {
    if ops == [] {
      assert [op][1..] == [];
    } else {
      var log := events + ops[0].more;
      assert (ops + [op])[1..] == ops[1..] + [op];
      RunSnoc(Apply(m, log, ops[0], maxChars), log, ops[1..], op, maxChars);
    }
  }

  lemma {:induction false} JobDone(done: seq<Op>, op: Op, queue: seq<Job>)
    ensures JobsOf(done) + [JobOf(op)] + queue == JobsOf(done + [op]) + [] + queue
  {
    assert JobsOf(done + [op]) == JobsOf(done) + [JobOf(op)];
    assert JobsOf(done + [op]) + [] == JobsOf(done + [op]);
  }

  lemma {:induction false} DoneLog(seed: seq<Event>, done: seq<Op>, op: Op, log: seq<Event>, from: nat, to: nat)
    requires from <= to <= |log| && LogAfter(seed, done) == log[..from] && op.more == log[from..to]
    ensures LogAfter(seed, done + [op]) == log[..to]
  {
    LogSnoc(seed, done, op);
    assert log[..from] + log[from..to] == log[..to];
  }

  lemma {:induction false} DoneMem(start: Mem, seed: seq<Event>, done: seq<Op>, op: Op, log: seq<Event>, from: nat, to: nat, maxChars: nat)
    requires from <= to <= |log| && LogAfter(seed, done) == log[..from] && op.more == log[from..to]
    ensures RunOps(start, seed, done + [op], maxChars) == Apply(RunOps(start, seed, done, maxChars), log[..to], op, maxChars)
  {
    RunSnoc(start, seed, done, op, maxChars);
    assert log[..from] + log[from..to] == log[..to];
  }

  lemma {:induction false} EndKeeps(s: St, start: Mem, seed: seq<Event>, job: Job, mem: Mem, luck: Luck, maxChars: nat)
    requires Inv(s, start, seed, maxChars) && !s.current.Resting? && job == s.current.job
    requires mem == Apply(RunOps(start, seed, s.done, maxChars), s.log[..s.seen],
                          OpOf(job, Slice(s.log, s.fromLog, s.seen), luck), maxChars)
    ensures Inv(End(s, job, mem, luck), start, seed, maxChars)
  {
    var op := OpOf(job, Slice(s.log, s.fromLog, s.seen), luck);
    DoneMem(start, seed, s.done, op, s.log, s.fromLog, s.seen, maxChars);
    DoneLog(seed, s.done, op, s.log, s.fromLog, s.seen);
    JobDone(s.done, op, s.queue);
  }

  lemma {:induction false} AppendStep(s: St, start: Mem, seed: seq<Event>, events: seq<Event>, maxChars: nat)
    requires Inv(s, start, seed, maxChars) && Increasing(s.log + events)
    ensures Inv(Step(s, Append(events), maxChars), start, seed, maxChars)
  {
    var log := s.log + events;
    assert log[..s.fromLog] == s.log[..s.fromLog] && log[..s.seen] == s.log[..s.seen];
  }

  lemma {:induction false} SubmitStep(s: St, start: Mem, seed: seq<Event>, job: Job, maxChars: nat)
    requires Inv(s, start, seed, maxChars)
    ensures Inv(Step(s, Submit(job), maxChars), start, seed, maxChars)
  {
    AppendAssociates(JobsOf(s.done) + Running(s.current), s.queue, [job]);
  }

  lemma {:induction false} JobBegins(finished: seq<Job>, queue: seq<Job>)
    requires queue != []
    ensures finished + [] + queue == finished + [queue[0]] + queue[1..]
  {
  }

  lemma {:induction false} NothingAdded(base: Mem, ms: seq<Captured>, now: int)
    ensures Add(base, ms[..0], now) == base
  {
    assert ms[..0] == [];
  }

  lemma {:induction false} BeginStep(s: St, start: Mem, seed: seq<Event>, maxChars: nat)
    requires Inv(s, start, seed, maxChars) && Enabled(s, Begin)
    ensures Inv(Step(s, Begin, maxChars), start, seed, maxChars)
  {
    JobBegins(JobsOf(s.done), s.queue);
    NothingAdded(s.mem, NewMessages(s.mem, s.log, maxChars), s.queue[0].now);
    assert s.log[..|s.log|] == s.log;
  }

  lemma {:induction false} AddStep(s: St, start: Mem, seed: seq<Event>, maxChars: nat)
    requires Inv(s, start, seed, maxChars) && Enabled(s, AddGoes)
    ensures Inv(Step(s, AddGoes, maxChars), start, seed, maxChars)
  {
    var c := s.current;
    AddNext(RunOps(start, seed, s.done, maxChars), c.ms, c.index, Min(c.index + ADD_MAX_MESSAGES, |c.ms|), c.job.now);
  }

  lemma {:induction false} AddFailsStep(s: St, start: Mem, seed: seq<Event>, maxChars: nat)
    requires Inv(s, start, seed, maxChars) && Enabled(s, AddFails)
    ensures Inv(Step(s, AddFails, maxChars), start, seed, maxChars)
  {
    EndKeeps(s, start, seed, s.current.job, s.mem, Luck(Some(s.current.batches), false), maxChars);
  }

  lemma {:induction false} CaptureEndsStep(s: St, start: Mem, seed: seq<Event>, maxChars: nat)
    requires Inv(s, start, seed, maxChars) && Enabled(s, CaptureEnds)
    ensures Inv(Step(s, CaptureEnds, maxChars), start, seed, maxChars)
  {
    var c, base := s.current, RunOps(start, seed, s.done, maxChars);
    var mem := s.mem.(cursor := Max(s.mem.cursor, c.top));
    assert c.ms[..|c.ms|] == c.ms;
    assert mem == CaptureNow(base, s.log[..s.seen], Luck(None, false), c.job.now, maxChars);
    if c.job.CaptureJob? || (!c.job.force && mem.pendingMessages == 0) {
      EndKeeps(s, start, seed, c.job, mem, Luck(None, false), maxChars);
    }
  }

  lemma {:induction false} RequestStep(s: St, start: Mem, seed: seq<Event>, l: Label, maxChars: nat)
    requires Inv(s, start, seed, maxChars) && Enabled(s, l) && (l.RequestGoes? || l.RequestFails?)
    ensures Inv(Step(s, l, maxChars), start, seed, maxChars)
  {
    var job := s.current.job;
    var mem := FlushRequest(s.mem, ReasonOf(job), true, l.RequestFails?, job.now);
    EndKeeps(s, start, seed, job, mem, Luck(None, l.RequestFails?), maxChars);
  }

  lemma {:induction false} InvStep(s: St, start: Mem, seed: seq<Event>, l: Label, maxChars: nat)
    requires Inv(s, start, seed, maxChars) && Enabled(s, l)
    ensures Inv(Step(s, l, maxChars), start, seed, maxChars)
  {
    match l
    case Append(events) => AppendStep(s, start, seed, events, maxChars);
    case Submit(job) => SubmitStep(s, start, seed, job, maxChars);
    case Begin => BeginStep(s, start, seed, maxChars);
    case AddGoes => AddStep(s, start, seed, maxChars);
    case AddFails => AddFailsStep(s, start, seed, maxChars);
    case CaptureEnds => CaptureEndsStep(s, start, seed, maxChars);
    case RequestGoes => RequestStep(s, start, seed, l, maxChars);
    case RequestFails => RequestStep(s, start, seed, l, maxChars);
  }

  lemma {:induction false} InvRun(s: St, start: Mem, seed: seq<Event>, ls: seq<Label>, maxChars: nat)
    requires Inv(s, start, seed, maxChars) && Legal(s, ls, maxChars)
    ensures Inv(Exec(s, ls, maxChars), start, seed, maxChars)
    decreases |ls|
  {
    if ls != [] {
      InvStep(s, start, seed, ls[0], maxChars);
      InvRun(Step(s, ls[0], maxChars), start, seed, ls[1..], maxChars);
    }
  }

  lemma {:induction false} InvHolds(firstLiveSeq: int, seed: seq<Event>, ls: seq<Label>, maxChars: nat)
    requires Increasing(seed) && Legal(Start(firstLiveSeq, seed), ls, maxChars)
    ensures Inv(Exec(Start(firstLiveSeq, seed), ls, maxChars), Start(firstLiveSeq, seed).mem, seed, maxChars)
  {
    assert seed[..|seed|] == seed;
    InvRun(Start(firstLiveSeq, seed), Start(firstLiveSeq, seed).mem, seed, ls, maxChars);
  }
}
