/** In-flight run accounting of the offline engine: the counter, the idle event, chain
    emits from running strategies, waiters, and what a restart does to the count. */
module OmeRuns {
  import opened Common

  // ── Counter and event ───────────────────────────────────────────────────

  /** `_active_runs` and whether `_idle_event` is set; `underflow` records that the
      guarded branch of `_on_run_completed` was ever taken. */
  datatype Gauge = Gauge(active: nat, idle: bool, underflow: bool)

  /** `_on_run_enqueued`. */
  function Bump(g: Gauge): Gauge {
    g.(active := g.active + 1, idle := false)
  }

  /** `_on_run_completed`. */
  function Drop(g: Gauge): Gauge {
    if g.active == 0 then Gauge(0, true, true)
    else Gauge(g.active - 1, g.active == 1 || g.idle, g.underflow)
  }

  /** What happens to the gauge while a start or a rollback awaits: a run is added, be it a
      stale one enqueued again or one a running strategy emits, or a run ends. */
  datatype Meanwhile = RunAdded | RunEnded

  function Play(g: Gauge, moves: seq<Meanwhile>): Gauge {
    if moves == [] then g
    else
      var before := Play(g, moves[..|moves| - 1]);
      if moves[|moves| - 1] == RunAdded then Bump(before) else Drop(before)
  }

  /** Whatever happens, the event is set exactly when the count is zero; and when no run ends,
      the count has grown by the runs added. */
  lemma {:induction false} PlayInSync(g: Gauge, moves: seq<Meanwhile>)
    requires g.idle <==> g.active == 0
    ensures Play(g, moves).idle <==> Play(g, moves).active == 0
    ensures RunEnded !in moves ==> Play(g, moves).active == g.active + |moves|
  {
    if moves != [] { PlayInSync(g, moves[..|moves| - 1]); }
  }

  function Count(moves: seq<Meanwhile>, kind: Meanwhile): nat {
    if moves == [] then 0 else Count(moves[..|moves| - 1], kind) + if moves[|moves| - 1] == kind then 1 else 0
  }

  /** More runs have ended than there ever were. */
  predicate BelowZero(g: Gauge, moves: seq<Meanwhile>) {
    g.active + Count(moves, RunAdded) < Count(moves, RunEnded)
  }

  predicate EverBelowZero(g: Gauge, moves: seq<Meanwhile>) {
    BelowZero(g, moves) || (moves != [] && EverBelowZero(g, moves[..|moves| - 1]))
  }

  /** Unless the underflow branch is taken, the count ends at what it was plus the runs added
      minus the runs ended; it is taken exactly when some moment would go below zero. */
  lemma {:induction false} PlayCounts(g: Gauge, moves: seq<Meanwhile>)
    requires !g.underflow
    ensures !Play(g, moves).underflow ==> Play(g, moves).active == g.active + Count(moves, RunAdded) - Count(moves, RunEnded)
    ensures Play(g, moves).underflow <==> EverBelowZero(g, moves)
  {
    if moves != [] { PlayCounts(g, moves[..|moves| - 1]); }
  }

  // ── Runs ────────────────────────────────────────────────────────────────

  /** `Rejected` is a run whose `add_job` raised. */
  datatype Phase = Queued | Running | Settled | Rejected

  /** `parent` is the running strategy that chain-emitted the run, if any. */
  datatype Run = Run(parent: Option<nat>, phase: Phase)

  datatype Waiter = NotWaiting | Blocked | Woken

  datatype St = St(gauge: Gauge, runs: map<nat, Run>, waiter: Waiter)

  datatype Label =
    | Enqueue(run: nat, parent: Option<nat>, added: bool)
    | Dispatch(run: nat)
    | Settle(run: nat)
    | BeginWait
    | EndWait
    | Restart

  predicate Live(p: Phase) {
    p == Queued || p == Running
  }

  function InFlight(s: St): set<nat> {
    set r | r in s.runs && Live(s.runs[r].phase)
  }

  predicate Enabled(s: St, l: Label) {
    match l
    case Enqueue(r, parent, _) =>
      r !in s.runs && (parent.Some? ==> parent.value in s.runs && s.runs[parent.value].phase == Running)
    case Dispatch(r) => r in s.runs && s.runs[r].phase == Queued
    case Settle(r) => r in s.runs && s.runs[r].phase == Running
    case BeginWait => s.waiter == NotWaiting
    case EndWait => s.waiter == Woken
    case Restart => true
  }

  /** A waiter blocked on the event wakes the moment the event is set. */
  function Notify(w: Waiter, g: Gauge): Waiter {
    if w == Blocked && g.idle then Woken else w
  }

  /** `Restart` is a stop followed by a start of the same engine: counter and event begin
      anew, while runs the stop did not wait for are still out there. */
  function Step(s: St, l: Label): St {
    match l
    case Enqueue(r, parent, added) =>
      var g := if added then Bump(s.gauge) else Drop(Bump(s.gauge));
      St(g, s.runs[r := Run(parent, if added then Queued else Rejected)], Notify(s.waiter, g))
    case Dispatch(r) =>
      if r in s.runs then s.(runs := s.runs[r := s.runs[r].(phase := Running)]) else s
    case Settle(r) =>
      if r in s.runs then
        var g := Drop(s.gauge);
        St(g, s.runs[r := s.runs[r].(phase := Settled)], Notify(s.waiter, g))
      else s
    case BeginWait => s.(waiter := if s.gauge.idle then Woken else Blocked)
    case EndWait => s.(waiter := NotWaiting)
    case Restart => s.(gauge := Gauge(0, true, s.gauge.underflow))
  }

  predicate Legal(s: St, ls: seq<Label>)
    decreases |ls|
  {
    ls == [] || (Enabled(s, ls[0]) && Legal(Step(s, ls[0]), ls[1..]))
  }

  function Exec(s: St, ls: seq<Label>): St
    decreases |ls|
  {
    if ls == [] then s else Exec(Step(s, ls[0]), ls[1..])
  }

  const FRESH: St := St(Gauge(0, true, false), map[], NotWaiting)

  // ── The accounting invariant ────────────────────────────────────────────

  ghost predicate Inv(s: St) {
    && s.gauge.active == |InFlight(s)|
    && (s.gauge.idle <==> s.gauge.active == 0)
    && !s.gauge.underflow
    && (s.waiter == Blocked ==> !s.gauge.idle)
  }

  lemma {:induction false} EnqueueStep(s: St, l: Label)
    requires Inv(s) && Enabled(s, l) && l.Enqueue?
    ensures Inv(Step(s, l))
  {
    var s' := Step(s, l);
    if l.added {
      assert InFlight(s') == InFlight(s) + {l.run};
    } else {
      assert InFlight(s') == InFlight(s);
    }
  }

  lemma {:induction false} SettleStep(s: St, l: Label)
    requires Inv(s) && Enabled(s, l) && l.Settle?
    ensures Inv(Step(s, l))
  {
    assert l.run in InFlight(s);
    assert InFlight(Step(s, l)) == InFlight(s) - {l.run};
  }

  lemma {:induction false} DispatchStep(s: St, l: Label)
    requires Inv(s) && Enabled(s, l) && l.Dispatch?
    ensures Inv(Step(s, l))
  {
    assert InFlight(Step(s, l)) == InFlight(s);
  }

  /** A restart keeps the account right exactly when nothing was in flight. */
  lemma {:induction false} RestartKeepsIff(s: St)
    requires Inv(s)
    ensures Inv(Step(s, Restart)) <==> s.gauge.active == 0
  {
    assert InFlight(Step(s, Restart)) == InFlight(s);
  }

  /** Every restart along the run found the engine drained. */
  predicate Drained(s: St, ls: seq<Label>)
    decreases |ls|
  {
    ls == [] || ((ls[0].Restart? ==> s.gauge.active == 0) && Drained(Step(s, ls[0]), ls[1..]))
  }

  lemma {:induction false} InvStep(s: St, l: Label)
    requires Inv(s) && Enabled(s, l) && (l.Restart? ==> s.gauge.active == 0)
    ensures Inv(Step(s, l))
  {
    match l
    case Enqueue(_, _, _) => EnqueueStep(s, l);
    case Dispatch(_) => DispatchStep(s, l);
    case Settle(_) => SettleStep(s, l);
    case BeginWait => assert InFlight(Step(s, l)) == InFlight(s);
    case EndWait => assert InFlight(Step(s, l)) == InFlight(s);
    case Restart => RestartKeepsIff(s);
  }

  lemma {:induction false} InvRun(s: St, ls: seq<Label>)
    requires Inv(s) && Legal(s, ls) && Drained(s, ls)
    ensures Inv(Exec(s, ls))
    decreases |ls|
  {
    if ls != [] {
      InvStep(s, ls[0]);
      InvRun(Step(s, ls[0]), ls[1..]);
    }
  }

  /** In every reachable state of drained sessions the count is the runs enqueued and not
      completed, the event is set exactly when there are none, and the underflow branch
      has never been taken, whether runs succeed, fail or have `add_job` rolled back. */
  lemma {:induction false} CountIsExact(ls: seq<Label>)
    requires Legal(FRESH, ls) && Drained(FRESH, ls)
    ensures var s := Exec(FRESH, ls);
      && s.gauge.active == |InFlight(s)|
      && (s.gauge.idle <==> InFlight(s) == {})
      && !s.gauge.underflow
  {
    assert InFlight(FRESH) == {};
    InvRun(FRESH, ls);
  }

  // ── Causal trees ────────────────────────────────────────────────────────

  lemma {:induction false} LegalAppend(s: St, a: seq<Label>, b: seq<Label>)
    requires Legal(s, a + b)
    ensures Legal(s, a) && Legal(Exec(s, a), b)
    ensures Exec(Exec(s, a), b) == Exec(s, a + b)
    ensures Drained(s, a + b) ==> Drained(s, a) && Drained(Exec(s, a), b)
    decreases |a|
  {
    if a == [] {
      assert a + b == b;
    } else {
      assert (a + b)[0] == a[0] && (a + b)[1..] == a[1..] + b;
      LegalAppend(Step(s, a[0]), a[1..], b);
    }
  }

  predicate Finished(s: St, r: nat) {
    r in s.runs && !Live(s.runs[r].phase)
  }

  /** Later states keep every run and its parent, keep finished runs finished, and a new
      run never has a parent that was already finished. */
  ghost predicate Extends(s: St, s': St) {
    && (forall r :: r in s.runs ==> r in s'.runs && s'.runs[r].parent == s.runs[r].parent)
    && (forall r :: r in s.runs && Finished(s, r) ==> Finished(s', r))
    && (forall r :: r in s'.runs && r !in s.runs && s'.runs[r].parent.Some? ==> !Finished(s, s'.runs[r].parent.value))
  }

  lemma {:induction false} ExtendsStep(s: St, l: Label)
    requires Enabled(s, l)
    ensures Extends(s, Step(s, l))
  {
  }

  lemma {:induction false} ExtendsTransitive(s: St, t: St, u: St)
    requires Extends(s, t) && Extends(t, u)
    ensures Extends(s, u)
  {
  }

  lemma {:induction false} ExtendsRun(s: St, ls: seq<Label>)
    requires Legal(s, ls)
    ensures Extends(s, Exec(s, ls))
    decreases |ls|
  {
    if ls != [] {
      var t := Step(s, ls[0]);
      ExtendsStep(s, ls[0]);
      ExtendsRun(t, ls[1..]);
      ExtendsTransitive(s, t, Exec(s, ls));
    }
  }

  /** `path` leads from its first run down to its last through parent links. */
  ghost predicate Descends(s: St, path: seq<nat>) {
    && path != []
    && (forall i :: 0 <= i < |path| ==> path[i] in s.runs)
    && (forall i :: 0 < i < |path| ==> s.runs[path[i]].parent == Some(path[i - 1]))
  }

  lemma {:induction false} NoLateDescendant(s: St, s': St, path: seq<nat>, k: nat)
    requires Extends(s, s') && Descends(s', path) && k < |path|
    requires path[0] in s.runs && (forall r :: r in s.runs ==> Finished(s, r))
    ensures path[k] in s.runs
  {
    if k > 0 {
      NoLateDescendant(s, s', path, k - 1);
      assert Finished(s, path[k - 1]);
    }
  }

  /** The idle event is set only once whole causal trees have settled. If the event is set
      at some moment of a run, every run that will ever descend, through any number of chain
      emits, from a run known at that moment is already known and finished. */
  lemma {:induction false} IdleMeansTreesSettled(a: seq<Label>, b: seq<Label>, path: seq<nat>)
    requires Legal(FRESH, a + b) && Drained(FRESH, a + b)
    requires Exec(FRESH, a).gauge.idle
    requires Descends(Exec(FRESH, a + b), path) && path[0] in Exec(FRESH, a).runs
    ensures forall k :: 0 <= k < |path| ==> Finished(Exec(FRESH, a), path[k])
  {
    LegalAppend(FRESH, a, b);
    CountIsExact(a);
    var s := Exec(FRESH, a);
    forall r | r in s.runs ensures Finished(s, r) {
      assert r !in InFlight(s);
    }
    ExtendsRun(s, b);
    forall k | 0 <= k < |path| ensures Finished(s, path[k]) {
      NoLateDescendant(s, Exec(FRESH, a + b), path, k);
    }
  }

  // ── Waiters ─────────────────────────────────────────────────────────────

  /** A waiter that has been woken saw the event set at some moment since it began. */
  ghost predicate SawIdle(s: St, ls: seq<Label>, from: nat) {
    exists k :: from <= k <= |ls| && Exec(s, ls[..k]).gauge.idle
  }

  lemma {:induction false} ExecSnoc(s: St, ls: seq<Label>, l: Label)
    ensures Exec(s, ls + [l]) == Step(Exec(s, ls), l)
    decreases |ls|
  {
    if ls == [] {
      assert [l][1..] == [];
    } else {
      ExecSnoc(Step(s, ls[0]), ls[1..], l);
      assert (ls + [l])[1..] == ls[1..] + [l];
    }
  }

  /** `wait_idle` returning True: whatever happens between the start of the wait (after
      `a`, with no new wait in `b`) and the return, the engine was idle at some moment
      in between. */
  lemma {:induction false} WokenSawIdle(a: seq<Label>, b: seq<Label>)
    requires Legal(FRESH, a + [BeginWait] + b) && Drained(FRESH, a + [BeginWait] + b)
    requires forall i :: 0 <= i < |b| ==> !b[i].BeginWait?
    requires Exec(FRESH, a + [BeginWait] + b).waiter == Woken
    ensures SawIdle(FRESH, a + [BeginWait] + b, |a| + 1)
    decreases |b|
  {
    var ls := a + [BeginWait] + b;
    assert ls[..|ls|] == ls;
    if b == [] {
      assert a + [BeginWait] + b == a + [BeginWait];
      ExecSnoc(FRESH, a, BeginWait);
      assert Exec(FRESH, ls[..|a| + 1]).gauge.idle;
    } else {
      var front, last := b[..|b| - 1], b[|b| - 1];
      var before := a + [BeginWait] + front;
      assert ls == before + [last];
      LegalAppend(FRESH, before, [last]);
      ExecSnoc(FRESH, before, last);
      var s, s' := Exec(FRESH, before), Exec(FRESH, ls);
      assert Enabled(s, last);
      if s.waiter == Woken {
        WokenSawIdle(a, front);
        var k :| |a| + 1 <= k <= |before| && Exec(FRESH, before[..k]).gauge.idle;
        assert ls[..k] == before[..k];
        assert Exec(FRESH, ls[..k]).gauge.idle;
      } else {
        assert s'.gauge.idle;
        assert Exec(FRESH, ls[..|ls|]).gauge.idle;
      }
    }
  }

  predicate EnqueuedIn(ls: seq<Label>, r: nat) {
    exists i :: 0 <= i < |ls| && ls[i].Enqueue? && ls[i].run == r
  }

  lemma {:induction false} RunsKnown(s: St, ls: seq<Label>, r: nat)
    requires Legal(s, ls)
    ensures r in Exec(s, ls).runs <==> r in s.runs || EnqueuedIn(ls, r)
    decreases |ls|
  {
    if ls != [] {
      RunsKnown(Step(s, ls[0]), ls[1..], r);
      if EnqueuedIn(ls[1..], r) {
        var i :| 0 <= i < |ls[1..]| && ls[1..][i].Enqueue? && ls[1..][i].run == r;
        assert ls[i + 1].Enqueue? && ls[i + 1].run == r;
      }
      if EnqueuedIn(ls, r) && !(ls[0].Enqueue? && ls[0].run == r) {
        var i :| 0 <= i < |ls| && ls[i].Enqueue? && ls[i].run == r;
        assert ls[1..][i - 1].Enqueue? && ls[1..][i - 1].run == r;
      }
    }
  }

  lemma {:induction false} NothingStarts(s: St, ls: seq<Label>)
    requires Legal(s, ls) && InFlight(s) == {}
    requires forall i :: 0 <= i < |ls| && ls[i].Enqueue? ==> !ls[i].added
    ensures InFlight(Exec(s, ls)) == {}
    decreases |ls|
  {
    if ls != [] {
      forall r | r in s.runs ensures !Live(s.runs[r].phase) {
        assert r !in InFlight(s);
      }
      assert InFlight(Step(s, ls[0])) == {};
      NothingStarts(Step(s, ls[0]), ls[1..]);
    }
  }

  /** When idleness lasts: from a moment the event is set, it is set at a later moment exactly
      when every run enqueued in between has finished; so it lasts when nothing is accepted
      in between. */
  lemma {:induction false} StillIdleIff(a: seq<Label>, b: seq<Label>)
    requires Legal(FRESH, a + b) && Drained(FRESH, a + b)
    requires Exec(FRESH, a).gauge.idle
    ensures Exec(FRESH, a + b).gauge.idle <==> forall r :: EnqueuedIn(b, r) ==> Finished(Exec(FRESH, a + b), r)
    ensures (forall i :: 0 <= i < |b| && b[i].Enqueue? ==> !b[i].added) ==> Exec(FRESH, a + b).gauge.idle
  {
    LegalAppend(FRESH, a, b);
    CountIsExact(a);
    CountIsExact(a + b);
    var s, s' := Exec(FRESH, a), Exec(FRESH, a + b);
    ExtendsRun(s, b);
    if forall r :: EnqueuedIn(b, r) ==> Finished(s', r) {
      forall r ensures r !in InFlight(s') {
        RunsKnown(s, b, r);
        if r in s.runs {
          assert r !in InFlight(s);
          assert Finished(s, r);
        }
      }
      assert InFlight(s') == {};
    }
    if s'.gauge.idle {
      forall r | EnqueuedIn(b, r) ensures Finished(s', r) {
        RunsKnown(s, b, r);
        assert r !in InFlight(s');
      }
    }
    if forall i :: 0 <= i < |b| && b[i].Enqueue? ==> !b[i].added {
      NothingStarts(s, b);
    }
  }

  /** So what a True from `wait_idle` says on return: the event was set at some moment of the
      wait, and it still is exactly when every run enqueued since then has finished. */
  lemma {:induction false} WokenIsIdleIff(a: seq<Label>, b: seq<Label>) returns (k: nat)
    requires Legal(FRESH, a + [BeginWait] + b) && Drained(FRESH, a + [BeginWait] + b)
    requires forall i :: 0 <= i < |b| ==> !b[i].BeginWait?
    requires Exec(FRESH, a + [BeginWait] + b).waiter == Woken
    ensures var ls := a + [BeginWait] + b;
      && |a| < k <= |ls| && Exec(FRESH, ls[..k]).gauge.idle
      && (Exec(FRESH, ls).gauge.idle <==> forall r :: EnqueuedIn(ls[k..], r) ==> Finished(Exec(FRESH, ls), r))
  {
    var ls := a + [BeginWait] + b;
    WokenSawIdle(a, b);
    k :| |a| + 1 <= k <= |ls| && Exec(FRESH, ls[..k]).gauge.idle;
    assert ls[..k] + ls[k..] == ls;
    StillIdleIff(ls[..k], ls[k..]);
  }

  /** It does not mean the engine is idle on return: a run enqueued after the wake-up and
      before the waiter resumes is in flight when `wait_idle` reports True. */
  lemma {:induction false} WokenMayBeBusy()
    ensures var ls := [Enqueue(1, None, true), Dispatch(1), BeginWait, Settle(1), Enqueue(2, None, true)];
      Legal(FRESH, ls) && Exec(FRESH, ls).waiter == Woken && InFlight(Exec(FRESH, ls)) == {2}
  {
    var s1 := Step(FRESH, Enqueue(1, None, true));
    var s2 := Step(s1, Dispatch(1));
    var s3 := Step(s2, BeginWait);
    var s4 := Step(s3, Settle(1));
    var s5 := Step(s4, Enqueue(2, None, true));
    var l5 := [Enqueue(2, None, true)];
    var l4 := [Settle(1)] + l5;
    var l3 := [BeginWait] + l4;
    var l2 := [Dispatch(1)] + l3;
    var l1 := [Enqueue(1, None, true)] + l2;
    assert Legal(s4, l5) && Exec(s4, l5) == s5 by { assert l5[1..] == []; }
    assert Legal(s3, l4) && Exec(s3, l4) == s5 by { assert l4[1..] == l5; }
    assert Legal(s2, l3) && Exec(s2, l3) == s5 by { assert l3[1..] == l4; }
    assert Legal(s1, l2) && Exec(s1, l2) == s5 by { assert l2[1..] == l3; }
    assert Legal(FRESH, l1) && Exec(FRESH, l1) == s5 by { assert l1[1..] == l2; }
    assert l1 == [Enqueue(1, None, true), Dispatch(1), BeginWait, Settle(1), Enqueue(2, None, true)];
  }

  /** After a stop that timed out, the new session's event can be set with one of its own
      runs still in flight: a left-over run of the old session paid for it. */
  lemma {:induction false} UndrainedRestartIdlesEarly(s: St, left: nat, young: nat)
    requires Inv(s) && left in s.runs && s.runs[left].phase == Running && young !in s.runs
    ensures var ls := [Restart, Enqueue(young, None, true), Settle(left)];
      && Legal(s, ls)
      && Exec(s, ls).gauge.idle && young in InFlight(Exec(s, ls))
  {
    var s1 := Step(s, Restart);
    var s2 := Step(s1, Enqueue(young, None, true));
    var s3 := Step(s2, Settle(left));
    var l3 := [Settle(left)];
    var l2 := [Enqueue(young, None, true)] + l3;
    var l1 := [Restart] + l2;
    assert Legal(s2, l3) && Exec(s2, l3) == s3 by { assert l3[1..] == []; }
    assert Legal(s1, l2) && Exec(s1, l2) == s3 by { assert l2[1..] == l3; }
    assert Legal(s, l1) && Exec(s, l1) == s3 by { assert l1[1..] == l2; }
    assert l1 == [Restart, Enqueue(young, None, true), Settle(left)];
  }
}
