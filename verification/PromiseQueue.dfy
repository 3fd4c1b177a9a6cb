/** The per-session promise queues of the DSH memory runtime (`exclusive`): one map from
    session id to the latest promise, shared by all sessions. */
module PromiseQueue {
  import opened Common

  /** Fulfilled and rejected are both settled. */
  datatype Status = Waiting | Running | Fulfilled | Rejected

  /** One queued operation and its promise; `prior` is the promise it was chained on, `None`
      being an already resolved one. */
  datatype Op = Op(session: string, prior: Option<nat>, status: Status)

  /** All operations in submission order, the map, and the order operations began. */
  datatype St = St(ops: seq<Op>, queues: map<string, nat>, begun: seq<nat>)

  datatype Label = Submit(session: string) | Begin(op: nat) | Finish(op: nat, ok: bool) | Cleanup(op: nat)

  predicate SettledStatus(s: Status) {
    s == Fulfilled || s == Rejected
  }

  predicate Settled(s: St, i: nat) {
    i < |s.ops| && SettledStatus(s.ops[i].status)
  }

  function Entry(queues: map<string, nat>, session: string): Option<nat> {
    if session in queues then Some(queues[session]) else None
  }

  /** An operation begins once the promise it was chained on has settled, either way; it
      finishes by fulfilling or rejecting; its cleanup runs some time after that. */
  predicate Enabled(s: St, l: Label) {
    match l
    case Submit(_) => true
    case Begin(i) =>
      i < |s.ops| && s.ops[i].status == Waiting && (s.ops[i].prior.Some? ==> Settled(s, s.ops[i].prior.value))
    case Finish(i, _) => i < |s.ops| && s.ops[i].status == Running
    case Cleanup(i) => Settled(s, i)
  }

  function Step(s: St, l: Label): St
    requires Enabled(s, l)
  {
    match l
    case Submit(session) =>
      s.(ops := s.ops + [Op(session, Entry(s.queues, session), Waiting)], queues := s.queues[session := |s.ops|])
    case Begin(i) => s.(ops := s.ops[i := s.ops[i].(status := Running)], begun := s.begun + [i])
    case Finish(i, ok) => s.(ops := s.ops[i := s.ops[i].(status := if ok then Fulfilled else Rejected)])
    case Cleanup(i) => s.(queues := WithoutEntry(s.queues, s.ops[i].session, i))
  }

  /** The entry is deleted only if it still is this promise. */
  function WithoutEntry(queues: map<string, nat>, session: string, i: nat): map<string, nat> {
    if Entry(queues, session) == Some(i) then queues - {session} else queues
  }

  predicate Legal(s: St, ls: seq<Label>)
    decreases |ls|
  {
    ls == [] || (Enabled(s, ls[0]) && Legal(Step(s, ls[0]), ls[1..]))
  }

  function Exec(s: St, ls: seq<Label>): St
    requires Legal(s, ls)
    decreases |ls|
  {
    if ls == [] then s else Exec(Step(s, ls[0]), ls[1..])
  }

  const EMPTY: St := St([], map[], [])

  // ── The invariant ───────────────────────────────────────────────────────

  /** The operations of the session submitted before the n-th have settled. */
  ghost predicate SettledBelow(ops: seq<Op>, session: string, n: nat) {
    forall j :: 0 <= j < n && j < |ops| && ops[j].session == session ==> SettledStatus(ops[j].status)
  }

  ghost predicate NoneBetween(ops: seq<Op>, session: string, from: nat, to: nat) {
    forall j :: from < j < to && j < |ops| ==> ops[j].session != session
  }

  /** An operation is chained on its session's previous one, or on nothing when all the
      earlier ones had settled. */
  ghost predicate ChainOk(ops: seq<Op>, i: nat)
    requires i < |ops|
  {
    var op := ops[i];
    if op.prior.Some? then
      op.prior.value < i && ops[op.prior.value].session == op.session && NoneBetween(ops, op.session, op.prior.value, i)
    else SettledBelow(ops, op.session, i)
  }

  /** An entry is its session's latest operation; without one the session has no unfinished
      work. */
  ghost predicate EntryOk(ops: seq<Op>, queues: map<string, nat>, session: string) {
    if session in queues then
      queues[session] < |ops| && ops[queues[session]].session == session
      && NoneBetween(ops, session, queues[session], |ops|)
    else SettledBelow(ops, session, |ops|)
  }

  ghost predicate Inv(s: St) {
    && (forall i :: 0 <= i < |s.ops| ==> ChainOk(s.ops, i))
    && (forall i :: 0 <= i < |s.ops| && s.ops[i].status != Waiting ==> SettledBelow(s.ops, s.ops[i].session, i))
    && (forall session :: EntryOk(s.ops, s.queues, session))
    && BegunOk(s)
  }

  ghost predicate BegunOk(s: St) {
    && (forall k :: 0 <= k < |s.begun| ==> s.begun[k] < |s.ops| && s.ops[s.begun[k]].status != Waiting)
    && (forall i :: 0 <= i < |s.ops| && s.ops[i].status != Waiting ==> i in s.begun)
    && (forall j, k :: 0 <= j < k < |s.begun| && s.ops[s.begun[j]].session == s.ops[s.begun[k]].session ==>
          s.begun[j] < s.begun[k])
  }

  lemma {:induction false} SubmitStep(s: St, session: string)
    requires Inv(s)
    ensures Inv(Step(s, Submit(session)))
  {
    var s' := Step(s, Submit(session));
    assert EntryOk(s.ops, s.queues, session);
    forall i | 0 <= i < |s'.ops| ensures ChainOk(s'.ops, i) {
      if i < |s.ops| { assert ChainOk(s.ops, i); }
    }
    forall i | 0 <= i < |s'.ops| && s'.ops[i].status != Waiting ensures SettledBelow(s'.ops, s'.ops[i].session, i) {
      assert SettledBelow(s.ops, s.ops[i].session, i);
    }
    forall t ensures EntryOk(s'.ops, s'.queues, t) {
      assert EntryOk(s.ops, s.queues, t);
    }
  }

  /** When an operation can begin, all earlier ones of its session have settled. */
  lemma {:induction false} EarlierSettled(s: St, i: nat)
    requires Inv(s) && Enabled(s, Begin(i))
    ensures SettledBelow(s.ops, s.ops[i].session, i)
  {
    assert ChainOk(s.ops, i);
    if s.ops[i].prior.Some? {
      var p := s.ops[i].prior.value;
      assert SettledBelow(s.ops, s.ops[p].session, p);
    }
  }

  ghost predicate SameShape(a: seq<Op>, b: seq<Op>) {
    && |a| == |b|
    && forall i :: 0 <= i < |a| ==> a[i].session == b[i].session && a[i].prior == b[i].prior
  }

  /** Settling more operations keeps chains and entries in order. */
  lemma {:induction false} ShapeKeeps(s: St, ops: seq<Op>)
    requires Inv(s) && SameShape(s.ops, ops)
    requires forall i :: 0 <= i < |ops| && SettledStatus(s.ops[i].status) ==> SettledStatus(ops[i].status)
    ensures forall i :: 0 <= i < |ops| ==> ChainOk(ops, i)
    ensures forall session :: EntryOk(ops, s.queues, session)
  {
    forall i | 0 <= i < |ops| ensures ChainOk(ops, i) {
      assert ChainOk(s.ops, i);
    }
    forall session ensures EntryOk(ops, s.queues, session) {
      assert EntryOk(s.ops, s.queues, session);
    }
  }

  lemma {:induction false} BeginStep(s: St, i: nat)
    requires Inv(s) && Enabled(s, Begin(i))
    ensures Inv(Step(s, Begin(i)))
  {
    var s' := Step(s, Begin(i));
    EarlierSettled(s, i);
    ShapeKeeps(s, s'.ops);
    forall j | 0 <= j < |s'.ops| && s'.ops[j].status != Waiting ensures SettledBelow(s'.ops, s'.ops[j].session, j) {
      if j != i { assert SettledBelow(s.ops, s.ops[j].session, j); }
    }
    BeginOrder(s, i);
  }

  lemma {:induction false} BeginOrder(s: St, i: nat)
    requires Inv(s) && Enabled(s, Begin(i))
    ensures BegunOk(Step(s, Begin(i)))
  {
    var s' := Step(s, Begin(i));
    forall k | 0 <= k < |s.begun| && s.ops[s.begun[k]].session == s.ops[i].session ensures s.begun[k] < i {
      assert s.ops[s.begun[k]].status != Waiting;
      assert SettledBelow(s.ops, s.ops[s.begun[k]].session, s.begun[k]);
    }
    forall j | 0 <= j < |s'.ops| && s'.ops[j].status != Waiting ensures j in s'.begun {
      if j == i { assert s'.begun[|s.begun|] == i; }
    }
  }

  lemma {:induction false} FinishStep(s: St, i: nat, ok: bool)
    requires Inv(s) && Enabled(s, Finish(i, ok))
    ensures Inv(Step(s, Finish(i, ok)))
  {
    var s' := Step(s, Finish(i, ok));
    ShapeKeeps(s, s'.ops);
    forall j | 0 <= j < |s'.ops| && s'.ops[j].status != Waiting ensures SettledBelow(s'.ops, s'.ops[j].session, j) {
      assert SettledBelow(s.ops, s.ops[j].session, j);
    }
  }

  lemma {:induction false} CleanupStep(s: St, i: nat)
    requires Inv(s) && Enabled(s, Cleanup(i))
    ensures Inv(Step(s, Cleanup(i)))
  {
    var s' := Step(s, Cleanup(i));
    assert SettledBelow(s.ops, s.ops[i].session, i);
    forall t ensures EntryOk(s'.ops, s'.queues, t) {
      assert EntryOk(s.ops, s.queues, t);
    }
  }

  lemma {:induction false} InvStep(s: St, l: Label)
    requires Inv(s) && Enabled(s, l)
    ensures Inv(Step(s, l))
  {
    match l
    case Submit(session) => SubmitStep(s, session);
    case Begin(i) => BeginStep(s, i);
    case Finish(i, ok) => FinishStep(s, i, ok);
    case Cleanup(i) => CleanupStep(s, i);
  }

  lemma {:induction false} InvRun(s: St, ls: seq<Label>)
    requires Inv(s) && Legal(s, ls)
    ensures Inv(Exec(s, ls))
    decreases |ls|
  {
    if ls != [] {
      InvStep(s, ls[0]);
      InvRun(Step(s, ls[0]), ls[1..]);
    }
  }

  predicate BothRun(a: Op, b: Op) {
    a.session == b.session && a.status == Running && b.status == Running
  }

  // ── Main results ────────────────────────────────────────────────────────

  /** For every interleaving of submissions, starts, outcomes and cleanups over any sessions:
      at most one operation of a session runs; its operations begin in submission order, each
      after all earlier ones have settled; and its entry is missing from the map only when it
      has no unfinished work. */
  lemma {:induction false} OneAtATimeInOrder(ls: seq<Label>)
    requires Legal(EMPTY, ls)
    ensures var s := Exec(EMPTY, ls);
      && (forall i, j :: 0 <= i < |s.ops| && 0 <= j < |s.ops| && BothRun(s.ops[i], s.ops[j]) ==> i == j)
      && (forall i, j :: 0 <= j < i < |s.ops| && s.ops[i].session == s.ops[j].session && s.ops[i].status != Waiting ==>
            SettledStatus(s.ops[j].status))
      && BegunOk(s)
      && (forall i :: 0 <= i < |s.ops| && !SettledStatus(s.ops[i].status) ==> s.ops[i].session in s.queues)
      && (forall t :: t in s.queues ==>
            && s.queues[t] < |s.ops| && s.ops[s.queues[t]].session == t
            && NoneBetween(s.ops, t, s.queues[t], |s.ops|))
  {
    InvRun(EMPTY, ls);
    var s := Exec(EMPTY, ls);
    forall i, j | 0 <= j < i < |s.ops| && s.ops[i].session == s.ops[j].session && s.ops[i].status != Waiting
      ensures SettledStatus(s.ops[j].status)
    {
      assert SettledBelow(s.ops, s.ops[i].session, i);
    }
    forall i | 0 <= i < |s.ops| && !SettledStatus(s.ops[i].status) ensures s.ops[i].session in s.queues {
      assert EntryOk(s.ops, s.queues, s.ops[i].session);
    }
    forall t | t in s.queues
      ensures s.queues[t] < |s.ops| && s.ops[s.queues[t]].session == t && NoneBetween(s.ops, t, s.queues[t], |s.ops|)
    {
      assert EntryOk(s.ops, s.queues, t);
    }
  }

  ghost predicate FirstUnsettled(s: St, i: nat) {
    i < |s.ops| && !SettledStatus(s.ops[i].status) && SettledBelow(s.ops, s.ops[i].session, i)
  }

  /** A failed operation never blocks the next: a session's first unsettled operation is either
      running or can begin, whatever the outcome of those before it and whatever other
      sessions do. */
  lemma {:induction false} NeverBlocked(ls: seq<Label>, i: nat)
    requires Legal(EMPTY, ls) && FirstUnsettled(Exec(EMPTY, ls), i)
    ensures var s := Exec(EMPTY, ls);
      s.ops[i].status == Running || Enabled(s, Begin(i))
  {
    InvRun(EMPTY, ls);
    assert ChainOk(Exec(EMPTY, ls).ops, i);
  }

  lemma {:induction false} SomeFirstUnsettled(s: St, n: nat) returns (i: nat)
    requires n < |s.ops| && !SettledStatus(s.ops[n].status)
    ensures FirstUnsettled(s, i) && i <= n && s.ops[i].session == s.ops[n].session
    decreases n
  {
    if j :| 0 <= j < n && s.ops[j].session == s.ops[n].session && !SettledStatus(s.ops[j].status) {
      i := SomeFirstUnsettled(s, j);
    } else {
      i := n;
    }
  }

  /** The queues never stall: whenever an operation is unsettled, it or an earlier one of its
      own session is running or can begin. */
  lemma {:induction false} NeverStalls(ls: seq<Label>, n: nat)
    requires Legal(EMPTY, ls)
    requires n < |Exec(EMPTY, ls).ops| && !SettledStatus(Exec(EMPTY, ls).ops[n].status)
    ensures var s := Exec(EMPTY, ls);
      exists i :: 0 <= i <= n && s.ops[i].session == s.ops[n].session
        && (s.ops[i].status == Running || Enabled(s, Begin(i)))
  {
    var i := SomeFirstUnsettled(Exec(EMPTY, ls), n);
    NeverBlocked(ls, i);
  }

  /** Sessions are independent: a step on behalf of one session chains on no promise of
      another and leaves every other session's entry as it was. */
  lemma {:induction false} SessionsDoNotMix(ls: seq<Label>, l: Label)
    requires Legal(EMPTY, ls) && Enabled(Exec(EMPTY, ls), l)
    ensures var s := Exec(EMPTY, ls);
            var s' := Step(s, l);
            var mine := if l.Submit? then l.session else s.ops[l.op].session;
      && (forall t :: t != mine ==> Entry(s'.queues, t) == Entry(s.queues, t))
      && (forall i :: 0 <= i < |s'.ops| && s'.ops[i].prior.Some? ==>
            s'.ops[i].prior.value < i && s'.ops[s'.ops[i].prior.value].session == s'.ops[i].session)
  {
    InvRun(EMPTY, ls);
    InvStep(Exec(EMPTY, ls), l);
    var s' := Step(Exec(EMPTY, ls), l);
    forall i | 0 <= i < |s'.ops| && s'.ops[i].prior.Some?
      ensures s'.ops[i].prior.value < i && s'.ops[s'.ops[i].prior.value].session == s'.ops[i].session
    {
      assert ChainOk(s'.ops, i);
    }
  }

  // ── The runtime's map ───────────────────────────────────────────────────

  /** The `queues` map of the runtime and the promises made so far. What promises do after
      they are made (begin, settle) is the environment's. */
  class Runtime {
    var queues: map<string, nat>
    var ops: seq<Op>
    ghost var begun: seq<nat>

    constructor ()
      ensures View() == EMPTY && Inv(View())
    {
      queues, ops, begun := map[], [], [];
    }

    ghost function View(): St
      reads this
    {
      St(ops, queues, begun)
    }

    /** The synchronous part of `exclusive`. The new operation comes after every operation of
        its session that has not settled, and of no other; the session's entry is the new
        promise and other entries stay. */
    method Exclusive(session: string) returns (current: nat)
      requires Inv(View())
      modifies this`queues, this`ops
      ensures Inv(View()) && View() == Step(old(View()), Submit(session))
      ensures current == |old(ops)| && ops[current].session == session && ops[current].status == Waiting
      ensures ops[current].prior.Some? ==>
        ops[current].prior.value < current && ops[ops[current].prior.value].session == session
      ensures Enabled(View(), Begin(current)) <==> SettledBelow(ops, session, current)
      ensures Entry(queues, session) == Some(current)
      ensures forall t :: t != session ==> Entry(queues, t) == Entry(old(queues), t)
    {
      SubmitStep(View(), session);
      var prior := Entry(queues, session);
      current := |ops|;
      ops := ops + [Op(session, prior, Waiting)];
      queues := queues[session := current];
      assert ChainOk(ops, current);
      if Enabled(View(), Begin(current)) { EarlierSettled(View(), current); }
    }

    /** The callback of a settled promise. Its own entry is gone afterwards; an entry of a later
        operation stays, and what is deleted has no unfinished work behind it. */
    method CleanUp(i: nat)
      requires Inv(View()) && Settled(View(), i)
      modifies this`queues
      ensures Inv(View()) && View() == Step(old(View()), Cleanup(i))
      ensures Entry(queues, ops[i].session) != Some(i)
      ensures ops[i].session in old(queues) && ops[i].session !in queues ==>
        NoneBetween(ops, ops[i].session, i, |ops|) && SettledBelow(ops, ops[i].session, |ops|)
      ensures !NoneBetween(ops, ops[i].session, i, |ops|) ==> queues == old(queues)
      ensures forall t :: t != ops[i].session ==> Entry(queues, t) == Entry(old(queues), t)
    {
      CleanupStep(View(), i);
      assert EntryOk(ops, queues, ops[i].session);
      queues := WithoutEntry(queues, ops[i].session, i);
      assert EntryOk(ops, queues, ops[i].session);
    }
  }
}
