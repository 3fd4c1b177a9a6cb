/** The same calls without the session lock: the lost update the lock is there to prevent. */
module Unlocked {
  import opened Common
  import opened Messages
  import opened Merging
  import opened Boundary
  import opened Memorize

  import opened Conservation

  lemma {:induction false} LegalSnoc(s: St, ls: seq<Label>, l: Label, mode: Mode, locked: bool)
    requires Legal(s, ls, mode, locked) && Enabled(Exec(s, ls, mode), l, mode, locked)
    ensures Legal(s, ls + [l], mode, locked)
    ensures Exec(s, ls + [l], mode) == Step(Exec(s, ls, mode), l, mode)
    decreases |ls|
  {
    if ls == [] {
      assert [l][1..] == [];
    } else {
      LegalSnoc(Step(s, ls[0], mode), ls[1..], l, mode, locked);
      assert (ls + [l])[1..] == ls[1..] + [l];
    }
  }

  lemma FilterOne(m: Msg, mode: Mode)
    requires PlainUser(m)
    ensures FilterForMode([m], mode) == [m]
  {
    assert [m][1..] == [];
  }

  predicate PlainUser(m: Msg) {
    m.role == User && m.toolCalls == None
  }

  function Add(key: Key, m: Msg): Req {
    Req(key, [m], false, true)
  }

  /** Two deferred adds that both read before either writes. */
  function Racer(key: Key, m: Msg, n: Msg, k: nat): Label
    requires k < 10
  {
    if k == 0 then Arrive(1, Add(key, m))
    else if k == 1 then Arrive(2, Add(key, n))
    else if k == 2 then Grant(1)
    else if k == 3 then Grant(2)
    else if k == 4 then Read(1, [], false)
    else if k == 5 then Read(2, [], false)
    else if k == 6 then Replace(1)
    else if k == 7 then Replace(2)
    else if k == 8 then Return(1)
    else Return(2)
  }

  function Racers(key: Key, m: Msg, n: Msg, k: nat): seq<Label>
    requires k <= 10
  {
    if k == 0 then [] else Racers(key, m, n, k - 1) + [Racer(key, m, n, k - 1)]
  }

  function RacerCall(req: Req, m: Msg, phase: nat): Call {
    if phase <= 0 then Call(req, Queued, Plan(false, Broken, BeforeWrites))
    else if phase == 1 then Call(req, Holding, Plan(false, Broken, BeforeWrites))
    else if phase == 2 then Call(req, Keeping(Merge([], [m])), Plan(false, Broken, BeforeWrites))
    else if phase == 3 then Call(req, Finishing, Plan(false, Broken, Completed))
    else Call(req, Done, Plan(false, Broken, Completed))
  }

  ghost predicate RaceAt(s: St, key: Key, m: Msg, n: Msg, k: nat) {
    && s.calls.Keys == (if k >= 2 then {1, 2} else if k == 1 then {1} else {})
    && (k >= 1 ==> s.calls[1] == RacerCall(Add(key, m), m, (k - 1) / 2))
    && (k >= 2 ==> s.calls[2] == RacerCall(Add(key, n), n, (k - 2) / 2))
    && At(s.store, key) ==
         Space(if k < 7 then [] else PersistAll(Merge([], [if k == 7 then m else n]), key.app, key.project), [])
  }

  lemma RaceStarts(s: St, key: Key, m: Msg, n: Msg, mode: Mode, k: nat)
    requires PlainUser(m) && PlainUser(n) && k < 4
    requires RaceAt(s, key, m, n, k)
    ensures Enabled(s, Racer(key, m, n, k), mode, false)
    ensures RaceAt(Step(s, Racer(key, m, n, k), mode), key, m, n, k + 1)
  {
  }

  lemma RaceReads(s: St, key: Key, m: Msg, n: Msg, mode: Mode, k: nat)
    requires PlainUser(m) && PlainUser(n) && 4 <= k < 6
    requires RaceAt(s, key, m, n, k)
    ensures Enabled(s, Racer(key, m, n, k), mode, false)
    ensures RaceAt(Step(s, Racer(key, m, n, k), mode), key, m, n, k + 1)
  {
    FilterOne(m, mode);
    FilterOne(n, mode);
  }

  lemma RaceWrites(s: St, key: Key, m: Msg, n: Msg, mode: Mode, k: nat)
    requires PlainUser(m) && PlainUser(n) && 6 <= k < 10
    requires RaceAt(s, key, m, n, k)
    ensures Enabled(s, Racer(key, m, n, k), mode, false)
    ensures RaceAt(Step(s, Racer(key, m, n, k), mode), key, m, n, k + 1)
  {
  }

  lemma {:induction false} RaceRun(key: Key, m: Msg, n: Msg, mode: Mode, k: nat)
    requires PlainUser(m) && PlainUser(n) && k <= 10
    ensures Legal(Start(map[]), Racers(key, m, n, k), mode, false)
    ensures RaceAt(Exec(Start(map[]), Racers(key, m, n, k), mode), key, m, n, k)
  {
    if k > 0 {
      RaceRun(key, m, n, mode, k - 1);
      var ls := Racers(key, m, n, k - 1);
      var s := Exec(Start(map[]), ls, mode);
      if k <= 4 { RaceStarts(s, key, m, n, mode, k - 1); }
      else if k <= 6 { RaceReads(s, key, m, n, mode, k - 1); }
      else { RaceWrites(s, key, m, n, mode, k - 1); }
      LegalSnoc(Start(map[]), ls, Racer(key, m, n, k - 1), mode, false);
    }
  }

  /** Without the lock, for any two plain user messages with different ids: both adds
      return, and the first one's message is neither buffered nor in any memcell. */
  lemma UnlockedLosesMessage(key: Key, m: Msg, n: Msg, mode: Mode)
    requires PlainUser(m) && PlainUser(n) && m.id != n.id
    ensures Legal(Start(map[]), Racers(key, m, n, 10), mode, false)
    ensures var s := Exec(Start(map[]), Racers(key, m, n, 10), mode);
      && 1 in s.calls && s.calls[1].pc == Done && s.calls[1].plan.stop == Completed
      && m.id in IncomingIds(s.calls[1].req, mode)
      && m.id !in AllIds(At(s.store, key))
  {
    RaceRun(key, m, n, mode, 10);
    var s := Exec(Start(map[]), Racers(key, m, n, 10), mode);
    MergedIds([], [n], m.id);
    PersistedIds(Merge([], [n]), key);
    FilterOne(m, mode);
    assert IdSeq([m])[0] == m.id;
    assert IdSeq([n]) == [n.id];
  }

  /** Under the lock that schedule stops at the second grant. */
  lemma LockForbidsTheRace(key: Key, m: Msg, n: Msg, mode: Mode)
    requires PlainUser(m) && PlainUser(n)
    ensures !Legal(Start(map[]), Racers(key, m, n, 4), mode, true)
  {
    if Legal(Start(map[]), Racers(key, m, n, 4), mode, true) {
      InvRun(Start(map[]), map[], Racers(key, m, n, 4), mode);
      RaceRun(key, m, n, mode, 4);
    }
  }
}
