/** What the serialised runs of Memorize keep: no stored id is ever lost, and after clean
    runs each accepted id is stored exactly once. */
module Conservation {
  import opened Common
  import opened Messages
  import opened Merging
  import opened Boundary
  import opened Memorize

  // ── Conservation ────────────────────────────────────────────────────────

  function LedgerIds(ledger: seq<Memcell>): seq<string> {
    if ledger == [] then [] else ledger[0].messageIds + LedgerIds(ledger[1..])
  }

  /** Every message id stored in a space: extracted ones first, then buffered ones. */
  function AllIds(sp: Space): seq<string> {
    LedgerIds(sp.ledger) + IdSeq(sp.buffer)
  }

  function IncomingIds(req: Req, mode: Mode): seq<string> {
    IdSeq(FilterForMode(req.msgs, mode))
  }

  lemma {:induction false} LedgerIdsAppend(a: seq<Memcell>, b: seq<Memcell>)
    ensures LedgerIds(a + b) == LedgerIds(a) + LedgerIds(b)
  {
    if a == [] {
      assert a + b == b;
    } else {
      LedgerIdsAppend(a[1..], b);
      assert (a + b)[1..] == a[1..] + b && (a + b)[0] == a[0];
      assert LedgerIds(a + b) == a[0].messageIds + (LedgerIds(a[1..]) + LedgerIds(b));
    }
  }

  lemma {:induction false} CellRowIds(ids: seq<seq<string>>, cells: seq<Cell>)
    requires |ids| == |cells|
    ensures LedgerIds(CellRows(ids, cells)) == Concat(ids)
  {
    if ids != [] {
      CellRowIds(ids[1..], cells[1..]);
      assert CellRows(ids, cells)[1..] == CellRows(ids[1..], cells[1..]);
    }
  }

  lemma IdMembers(ms: seq<Msg>, id: string)
    ensures id in IdSeq(ms) <==> HasId(ms, id)
  {
    if HasId(ms, id) {
      var i :| 0 <= i < |ms| && ms[i].id == id;
      assert IdSeq(ms)[i] == id;
    }
    if id in IdSeq(ms) {
      var i :| 0 <= i < |ms| && IdSeq(ms)[i] == id;
      assert ms[i].id == id;
    }
  }

  lemma MergedIds(b: seq<Msg>, x: seq<Msg>, id: string)
    ensures id in IdSeq(Merge(b, x)) <==> id in IdSeq(b) || id in IdSeq(x)
  {
    MergeIsMerge(b, x);
    IdMembers(Merge(b, x), id);
    IdMembers(b, id);
    IdMembers(x, id);
  }

  /** An honest extraction moves a prefix of the merged ids into the ledger and leaves the
      rest in the buffer. */
  lemma ExtractionIds(sp: Space, req: Req, mode: Mode, plan: Plan)
    requires SpaceOk(sp) && Honest(sp, req, mode, plan) && plan.stop != BeforeWrites
    requires Route(sp.buffer, req, mode, plan.llm).RunDetector? && plan.reply.cells != []
    ensures var m := Merge(sp.buffer, FilterForMode(req.msgs, mode));
            var c := Covered(plan.reply.cells);
      && c <= |m|
      && LedgerIds(Solo(sp, req, mode, plan).ledger) == LedgerIds(sp.ledger) + IdSeq(m[..c])
      && (plan.stop == Completed ==> IdSeq(Solo(sp, req, mode, plan).buffer) == IdSeq(m[c..]))
      && (plan.stop == AfterInsert ==> Solo(sp, req, mode, plan).buffer == sp.buffer)
  {
    var m := Merge(sp.buffer, FilterForMode(req.msgs, mode));
    var c := Covered(plan.reply.cells);
    MergeIsMerge(sp.buffer, FilterForMode(req.msgs, mode));
    ContractPartitions(m, mode, plan.reply);
    SplitCoversPrefix(m, plan.reply.cells);
    var rows := CellRows(SplitIds(m, plan.reply.cells).value, plan.reply.cells);
    CellRowIds(SplitIds(m, plan.reply.cells).value, plan.reply.cells);
    LedgerIdsAppend(sp.ledger, rows);
    PersistedIds(m[c..], req.key);
  }

  lemma PersistedIds(ms: seq<Msg>, key: Key)
    ensures IdSeq(PersistAll(ms, key.app, key.project)) == IdSeq(ms)
  {
  }

  /** The ids a lone call leaves behind: never fewer, never invented, and all of its own
      once it completes. */
  lemma SoloIds(sp: Space, req: Req, mode: Mode, plan: Plan, id: string)
    requires SpaceOk(sp) && Honest(sp, req, mode, plan)
    ensures id in AllIds(sp) ==> id in AllIds(Solo(sp, req, mode, plan))
    ensures id in AllIds(Solo(sp, req, mode, plan)) ==> id in AllIds(sp) || id in IncomingIds(req, mode)
    ensures plan.stop == Completed && id in IncomingIds(req, mode) ==> id in AllIds(Solo(sp, req, mode, plan))
  {
    if plan.stop != BeforeWrites {
      var x := FilterForMode(req.msgs, mode);
      var m := Merge(sp.buffer, x);
      MergedIds(sp.buffer, x, id);
      if Route(sp.buffer, req, mode, plan.llm).RunDetector? && plan.reply.cells != [] {
        ExtractionIds(sp, req, mode, plan);
        IdSeqSplit(m, Covered(plan.reply.cells));
      } else {
        PersistedIds(m, req.key);
      }
    }
  }

  lemma SoloAdvances(sp: Space, req: Req, mode: Mode, p: Plan, q: Plan, id: string)
    requires SpaceOk(sp) && Honest(sp, req, mode, p) && Honest(sp, req, mode, q)
    requires p == q || p.stop == BeforeWrites || (q == p.(stop := Completed))
    requires id in AllIds(Solo(sp, req, mode, p))
    ensures id in AllIds(Solo(sp, req, mode, q))
  {
    SoloIds(sp, req, mode, p, id);
    SoloIds(sp, req, mode, q, id);
  }

  lemma StepConserves(s: St, init: Store, l: Label, mode: Mode, key: Key, id: string)
    requires Inv(s, init, mode) && Enabled(s, l, mode, true)
    requires id in AllIds(At(s.store, key))
    ensures id in AllIds(At(Step(s, l, mode).store, key))
  {
    var s' := Step(s, l, mode);
    if l.InsertMany? || l.Replace? {
      var c := s.calls[l.call];
      if c.req.key == key {
        InvStep(s, init, l, mode);
        assert s.owner == Some(l.call) && s'.owner == Some(l.call) && s'.log == s.log;
        var c' := s'.calls[l.call];
        var base := Replay(init, s.log, mode);
        ReplayKeepsStoreOk(init, s.log, mode);
        PcHonest(At(base, key), c, mode);
        PcHonest(At(base, key), c', mode);
        assert At(s.store, key) == At(ApplyTurn(base, Turn(l.call, c.req, c.plan), mode), key);
        assert At(s'.store, key) == At(ApplyTurn(base, Turn(l.call, c'.req, c'.plan), mode), key);
        SoloAdvances(At(base, key), c.req, mode, c.plan, c'.plan, id);
      }
    }
  }

  lemma PcHonest(base: Space, c: Call, mode: Mode)
    requires PcOk(base, c, mode) && Critical(c.pc)
    ensures Honest(base, c.req, mode, c.plan)
  {
  }

  lemma {:induction false} RunConserves(s: St, init: Store, ls: seq<Label>, mode: Mode, key: Key, id: string)
    requires Inv(s, init, mode) && Legal(s, ls, mode, true)
    requires id in AllIds(At(s.store, key))
    ensures id in AllIds(At(Exec(s, ls, mode).store, key))
    decreases |ls|
  {
    if ls != [] {
      InvStep(s, init, ls[0], mode);
      StepConserves(s, init, ls[0], mode, key, id);
      RunConserves(Step(s, ls[0], mode), init, ls[1..], mode, key, id);
    }
  }

  lemma {:induction false} LegalAppend(s: St, a: seq<Label>, b: seq<Label>, mode: Mode, locked: bool)
    requires Legal(s, a + b, mode, locked)
    ensures Legal(s, a, mode, locked)
    ensures Legal(Exec(s, a, mode), b, mode, locked)
    ensures Exec(Exec(s, a, mode), b, mode) == Exec(s, a + b, mode)
    decreases |a|
  {
    if a == [] {
      assert a + b == b;
    } else {
      assert (a + b)[0] == a[0] && (a + b)[1..] == a[1..] + b;
      LegalAppend(Step(s, a[0], mode), a[1..], b, mode, locked);
    }
  }

  /** Conservation at every await point: an id stored at any moment of a run, in the
      buffer or in a memcell, is stored at every later moment, whatever was cancelled. */
  lemma NothingIsLost(init: Store, a: seq<Label>, b: seq<Label>, mode: Mode, key: Key, id: string)
    requires StoreOk(init) && Legal(Start(init), a + b, mode, true)
    requires id in AllIds(At(Exec(Start(init), a, mode).store, key))
    ensures id in AllIds(At(Exec(Start(init), a + b, mode).store, key))
  {
    LegalAppend(Start(init), a, b, mode, true);
    InvRun(Start(init), init, a, mode);
    RunConserves(Exec(Start(init), a, mode), init, b, mode, key, id);
  }

  // ── Exactly the accepted ids, once each ─────────────────────────────────

  ghost predicate AcceptedBy(log: seq<Turn>, key: Key, mode: Mode, id: string, stops: set<Stop>) {
    exists i :: 0 <= i < |log| && log[i].req.key == key && log[i].plan.stop in stops
      && id in IncomingIds(log[i].req, mode)
  }

  lemma AcceptedSnoc(log: seq<Turn>, t: Turn, key: Key, mode: Mode, id: string, stops: set<Stop>)
    ensures AcceptedBy(log + [t], key, mode, id, stops) <==>
            AcceptedBy(log, key, mode, id, stops)
            || (t.req.key == key && t.plan.stop in stops && id in IncomingIds(t.req, mode))
  {
    var all := log + [t];
    if AcceptedBy(log, key, mode, id, stops) {
      var i :| 0 <= i < |log| && log[i].req.key == key && log[i].plan.stop in stops && id in IncomingIds(log[i].req, mode);
      assert all[i] == log[i];
    }
    if t.req.key == key && t.plan.stop in stops && id in IncomingIds(t.req, mode) {
      assert all[|log|] == t;
    }
  }

  lemma {:induction false} ReplayIds(init: Store, log: seq<Turn>, mode: Mode, key: Key, id: string)
    requires StoreOk(init) && HonestLog(init, log, mode)
    ensures (id in AllIds(At(init, key)) || AcceptedBy(log, key, mode, id, {Completed})) ==>
      id in AllIds(At(Replay(init, log, mode), key))
    ensures id in AllIds(At(Replay(init, log, mode), key)) ==>
      id in AllIds(At(init, key)) || AcceptedBy(log, key, mode, id, {Completed, AfterInsert})
  {
    if log != [] {
      var front, t := log[..|log| - 1], log[|log| - 1];
      ReplayIds(init, front, mode, key, id);
      ReplayKeepsStoreOk(init, front, mode);
      assert front + [t] == log;
      AcceptedSnoc(front, t, key, mode, id, {Completed});
      AcceptedSnoc(front, t, key, mode, id, {Completed, AfterInsert});
      var before := At(Replay(init, front, mode), key);
      var after := At(Replay(init, log, mode), key);
      if t.req.key == key {
        assert after == Solo(before, t.req, mode, t.plan);
        SoloIds(before, t.req, mode, t.plan, id);
      } else {
        assert after == before;
      }
    }
  }

  // ── Calls that returned ─────────────────────────────────────────────────

  /** A call that returned had this id among its admitted messages. */
  ghost predicate ReturnedWith(s: St, key: Key, mode: Mode, id: string) {
    exists c :: c in s.calls && s.calls[c].pc.Done? && s.calls[c].req.key == key && id in IncomingIds(s.calls[c].req, mode)
  }

  /** The same of a call that was cancelled after it had begun to write. */
  ghost predicate CutOffWith(s: St, key: Key, mode: Mode, id: string) {
    exists c :: c in s.calls && s.calls[c].pc.Aborted? && s.calls[c].plan.stop != BeforeWrites
      && s.calls[c].req.key == key && id in IncomingIds(s.calls[c].req, mode)
  }

  /** A call whose route writes nothing had no admitted messages. */
  lemma NoWriteIsEmpty(sp: Space, req: Req, mode: Mode, llm: bool, id: string)
    requires Route(sp.buffer, req, mode, llm).NoWrite?
    ensures id !in IncomingIds(req, mode)
  {
    MergedIds(sp.buffer, FilterForMode(req.msgs, mode), id);
  }

  lemma {:induction false} TurnIsKept(init: Store, log: seq<Turn>, i: nat, mode: Mode, id: string)
    requires StoreOk(init) && HonestLog(init, log, mode)
    requires i < |log| && CompleteTurn(init, log, i, mode) && id in IncomingIds(log[i].req, mode)
    ensures id in AllIds(At(Replay(init, log, mode), log[i].req.key))
    decreases |log|
  {
    var front, t := log[..|log| - 1], log[|log| - 1];
    var before := At(Replay(init, front, mode), t.req.key);
    ReplayKeepsStoreOk(init, front, mode);
    SoloIds(before, t.req, mode, t.plan, id);
    if i < |log| - 1 {
      assert front[..i] == log[..i] && front[i] == log[i];
      TurnIsKept(init, front, i, mode, id);
    } else if t.plan.stop == BeforeWrites {
      NoWriteIsEmpty(before, t.req, mode, t.plan.llm, id);
    }
  }

  /** A call that returned has stored its messages: in every state of every run, each admitted
      id of each returned call is in the buffer or in a memcell. */
  lemma ReturnedIsStored(init: Store, ls: seq<Label>, mode: Mode, call: nat, id: string)
    requires StoreOk(init) && Legal(Start(init), ls, mode, true)
    requires call in Exec(Start(init), ls, mode).calls && Exec(Start(init), ls, mode).calls[call].pc.Done?
    requires id in IncomingIds(Exec(Start(init), ls, mode).calls[call].req, mode)
    ensures var s := Exec(Start(init), ls, mode);
            id in AllIds(At(s.store, s.calls[call].req.key))
  {
    var s := Exec(Start(init), ls, mode);
    InvRun(Start(init), init, ls, mode);
    ReturnRun(Start(init), init, ls, mode);
    assert HasTurn(s.log, call, s.calls[call]);
    var i :| 0 <= i < |s.log| && s.log[i] == Turn(call, s.calls[call].req, s.calls[call].plan);
    TurnIsKept(init, s.log, i, mode, id);
    HolderKeeps(s, init, mode, s.calls[call].req.key, id);
  }

  /** The holder's progress loses nothing that the finished turns stored. */
  lemma HolderKeeps(s: St, init: Store, mode: Mode, key: Key, id: string)
    requires Inv(s, init, mode) && id in AllIds(At(Replay(init, s.log, mode), key))
    ensures id in AllIds(At(s.store, key))
  {
    var base := Replay(init, s.log, mode);
    if s.owner.Some? {
      var c := s.calls[s.owner.value];
      assert At(s.store, key) == At(ApplyTurn(base, Turn(s.owner.value, c.req, c.plan), mode), key);
      if c.req.key == key {
        ReplayKeepsStoreOk(init, s.log, mode);
        PcHonest(At(base, key), c, mode);
        SoloIds(At(base, key), c.req, mode, c.plan, id);
      }
    } else {
      assert At(s.store, key) == At(base, key);
    }
  }

  lemma AcceptedByCalls(s: St, key: Key, mode: Mode, id: string)
    requires TurnsMatch(s) && AcceptedBy(s.log, key, mode, id, {Completed, AfterInsert})
    ensures ReturnedWith(s, key, mode, id) || CutOffWith(s, key, mode, id)
  {
    var i :| 0 <= i < |s.log| && s.log[i].req.key == key && s.log[i].plan.stop in {Completed, AfterInsert}
      && id in IncomingIds(s.log[i].req, mode);
    assert IsRecord(s.log[i], s.calls);
    var c := s.calls[s.log[i].call];
    assert c.pc.Done? || c.pc.Aborted?;
  }

  /** With nobody inside, what is stored is what was there plus the admitted messages of
      every call that returned; a call cut off after it began to write is the only other
      source, and one cut off after its last write is stored too. */
  lemma StoredIsAccepted(init: Store, ls: seq<Label>, mode: Mode, key: Key, id: string)
    requires StoreOk(init) && Legal(Start(init), ls, mode, true)
    requires Exec(Start(init), ls, mode).owner.None?
    ensures var s := Exec(Start(init), ls, mode);
      && ((id in AllIds(At(init, key)) || AcceptedBy(s.log, key, mode, id, {Completed})) ==>
            id in AllIds(At(s.store, key)))
      && (id in AllIds(At(s.store, key)) ==>
            id in AllIds(At(init, key)) || AcceptedBy(s.log, key, mode, id, {Completed, AfterInsert}))
      && (ReturnedWith(s, key, mode, id) ==> id in AllIds(At(s.store, key)))
      && (id in AllIds(At(s.store, key)) ==>
            id in AllIds(At(init, key)) || ReturnedWith(s, key, mode, id) || CutOffWith(s, key, mode, id))
  {
    var s := Exec(Start(init), ls, mode);
    InvRun(Start(init), init, ls, mode);
    ReturnRun(Start(init), init, ls, mode);
    ReplayIds(init, s.log, mode, key, id);
    if ReturnedWith(s, key, mode, id) {
      var c :| c in s.calls && s.calls[c].pc.Done? && s.calls[c].req.key == key && id in IncomingIds(s.calls[c].req, mode);
      ReturnedIsStored(init, ls, mode, c, id);
    }
    if AcceptedBy(s.log, key, mode, id, {Completed, AfterInsert}) {
      AcceptedByCalls(s, key, mode, id);
    }
  }

  ghost predicate NoRepeats(ids: seq<string>) {
    forall i, j :: 0 <= i < j < |ids| ==> ids[i] != ids[j]
  }

  /** No id of this call has been extracted before. */
  ghost predicate NotExtracted(sp: Space, req: Req, mode: Mode) {
    forall id :: id in IncomingIds(req, mode) ==> id !in LedgerIds(sp.ledger)
  }

  lemma NoRepeatsAppend(a: seq<string>, b: seq<string>)
    ensures NoRepeats(a + b) <==> NoRepeats(a) && NoRepeats(b) && forall x :: x in a ==> x !in b
  {
    var c := a + b;
    if NoRepeats(c) {
      forall i, j | 0 <= i < j < |a| ensures a[i] != a[j] { assert c[i] != c[j]; }
      forall i, j | 0 <= i < j < |b| ensures b[i] != b[j] { assert c[|a| + i] != c[|a| + j]; }
      forall i, j | 0 <= i < |a| && 0 <= j < |b| ensures a[i] != b[j] {
        assert c[i] != c[|a| + j];
      }
    }
    if NoRepeats(a) && NoRepeats(b) && forall x :: x in a ==> x !in b {
      forall i, j | 0 <= i < j < |c| ensures c[i] != c[j] {
        if i < |a| <= j {
          assert a[i] in a && b[j - |a|] in b;
        }
      }
    }
  }

  lemma CompletedIds(sp: Space, req: Req, mode: Mode, plan: Plan)
    requires SpaceOk(sp) && Honest(sp, req, mode, plan) && plan.stop == Completed
    ensures AllIds(Solo(sp, req, mode, plan)) ==
            LedgerIds(sp.ledger) + IdSeq(Merge(sp.buffer, FilterForMode(req.msgs, mode)))
  {
    var m := Merge(sp.buffer, FilterForMode(req.msgs, mode));
    if Route(sp.buffer, req, mode, plan.llm).RunDetector? && plan.reply.cells != [] {
      ExtractionIds(sp, req, mode, plan);
      var c := Covered(plan.reply.cells);
      IdSeqSplit(m, c);
      AppendAssociates(LedgerIds(sp.ledger), IdSeq(m[..c]), IdSeq(m[c..]));
    } else {
      PersistedIds(m, req.key);
    }
  }

  /** A completed call keeps every stored id single exactly when it re-sends no id that
      was already extracted. */
  lemma CompletedOnceIff(sp: Space, req: Req, mode: Mode, plan: Plan)
    requires SpaceOk(sp) && Honest(sp, req, mode, plan) && plan.stop == Completed
    requires NoRepeats(AllIds(sp))
    ensures NoRepeats(AllIds(Solo(sp, req, mode, plan))) <==> NotExtracted(sp, req, mode)
  {
    var x := FilterForMode(req.msgs, mode);
    var m := Merge(sp.buffer, x);
    CompletedIds(sp, req, mode, plan);
    MergeIsMerge(sp.buffer, x);
    assert NoRepeats(IdSeq(m));
    NoRepeatsAppend(LedgerIds(sp.ledger), IdSeq(sp.buffer));
    NoRepeatsAppend(LedgerIds(sp.ledger), IdSeq(m));
    forall id ensures id in IdSeq(m) <==> id in IdSeq(sp.buffer) || id in IdSeq(x) {
      MergedIds(sp.buffer, x, id);
    }
  }

  /** A call cut off between ledger insert and buffer replace keeps every stored id single
      exactly when no id of the extracted prefix was stored before, in a memcell or still in
      the buffer: the buffered ones among them are the ones it duplicates. */
  lemma CutCallOnceIff(sp: Space, req: Req, mode: Mode, plan: Plan)
    requires SpaceOk(sp) && Honest(sp, req, mode, plan) && plan.stop == AfterInsert
    requires NoRepeats(AllIds(sp))
    ensures var m := Merge(sp.buffer, FilterForMode(req.msgs, mode));
      && Route(sp.buffer, req, mode, plan.llm).RunDetector? && plan.reply.Answer? && Covered(plan.reply.cells) <= |m|
      && (NoRepeats(AllIds(Solo(sp, req, mode, plan))) <==>
            forall id :: id in IdSeq(m[..Covered(plan.reply.cells)]) ==>
              id !in LedgerIds(sp.ledger) && id !in IdSeq(sp.buffer))
  {
    ExtractionIds(sp, req, mode, plan);
    var m := Merge(sp.buffer, FilterForMode(req.msgs, mode));
    var taken, before, held := IdSeq(m[..Covered(plan.reply.cells)]), LedgerIds(sp.ledger), IdSeq(sp.buffer);
    MergeIsMerge(sp.buffer, FilterForMode(req.msgs, mode));
    assert NoRepeats(taken);
    NoRepeatsAppend(before, held);
    NoRepeatsAppend(before, taken);
    NoRepeatsAppend(before + taken, held);
  }

  /** Every turn either wrote nothing or completed without re-sending an extracted id. */
  ghost predicate CleanLog(init: Store, log: seq<Turn>, mode: Mode) {
    log == [] ||
    var front, t := log[..|log| - 1], log[|log| - 1];
    && CleanLog(init, front, mode)
    && t.plan.stop != AfterInsert
    && (t.plan.stop == Completed ==> NotExtracted(At(Replay(init, front, mode), t.req.key), t.req, mode))
  }

  lemma {:induction false} CleanReplay(init: Store, log: seq<Turn>, mode: Mode, key: Key)
    requires StoreOk(init) && HonestLog(init, log, mode) && CleanLog(init, log, mode)
    requires NoRepeats(AllIds(At(init, key)))
    ensures NoRepeats(AllIds(At(Replay(init, log, mode), key)))
  {
    if log != [] {
      var front, t := log[..|log| - 1], log[|log| - 1];
      CleanReplay(init, front, mode, key);
      ReplayKeepsStoreOk(init, front, mode);
      if t.req.key == key && t.plan.stop == Completed {
        CompletedOnceIff(At(Replay(init, front, mode), key), t.req, mode, t.plan);
      }
    }
  }

  /** In a clean run a call cut off after it began to write had written everything. */
  lemma CutOffIsStored(init: Store, s: St, mode: Mode, key: Key, id: string)
    requires TurnsMatch(s) && CleanLog(init, s.log, mode) && CutOffWith(s, key, mode, id)
    ensures AcceptedBy(s.log, key, mode, id, {Completed})
  {
    CleanStops(init, s.log, mode);
    var c :| c in s.calls && s.calls[c].pc.Aborted? && s.calls[c].plan.stop != BeforeWrites
      && s.calls[c].req.key == key && id in IncomingIds(s.calls[c].req, mode);
    assert HasTurn(s.log, c, s.calls[c]);
  }

  /** Exactly once: after a clean run none is stored twice, and what is stored is what was
      there plus the admitted ids of the calls that returned and of those cancelled only
      after their last write; so when nobody was cancelled after beginning to write, exactly
      the ids of the calls that returned. */
  lemma ExactlyOnce(init: Store, ls: seq<Label>, mode: Mode, key: Key)
    requires StoreOk(init) && Legal(Start(init), ls, mode, true)
    requires NoRepeats(AllIds(At(init, key)))
    requires Exec(Start(init), ls, mode).owner.None?
    requires CleanLog(init, Exec(Start(init), ls, mode).log, mode)
    ensures var s := Exec(Start(init), ls, mode);
      && NoRepeats(AllIds(At(s.store, key)))
      && (forall id :: id in AllIds(At(s.store, key)) <==>
            id in AllIds(At(init, key)) || AcceptedBy(s.log, key, mode, id, {Completed}))
      && (forall id :: id in AllIds(At(s.store, key)) <==>
            id in AllIds(At(init, key)) || ReturnedWith(s, key, mode, id) || CutOffWith(s, key, mode, id))
      && ((forall c :: c in s.calls && s.calls[c].pc.Aborted? ==> s.calls[c].plan.stop == BeforeWrites) ==>
            forall id :: id in AllIds(At(s.store, key)) <==>
              id in AllIds(At(init, key)) || ReturnedWith(s, key, mode, id))
  {
    var s := Exec(Start(init), ls, mode);
    InvRun(Start(init), init, ls, mode);
    ReturnRun(Start(init), init, ls, mode);
    CleanReplay(init, s.log, mode, key);
    forall id
      ensures id in AllIds(At(s.store, key)) <==>
        id in AllIds(At(init, key)) || AcceptedBy(s.log, key, mode, id, {Completed})
      ensures id in AllIds(At(s.store, key)) <==>
        id in AllIds(At(init, key)) || ReturnedWith(s, key, mode, id) || CutOffWith(s, key, mode, id)
    {
      ReplayIds(init, s.log, mode, key, id);
      CleanAccepts(init, s.log, mode, key, id);
      StoredIsAccepted(init, ls, mode, key, id);
      if CutOffWith(s, key, mode, id) { CutOffIsStored(init, s, mode, key, id); }
    }
  }

  lemma CleanAccepts(init: Store, log: seq<Turn>, mode: Mode, key: Key, id: string)
    requires CleanLog(init, log, mode)
    ensures AcceptedBy(log, key, mode, id, {Completed, AfterInsert}) ==> AcceptedBy(log, key, mode, id, {Completed})
  {
    CleanStops(init, log, mode);
  }

  lemma {:induction false} CleanStops(init: Store, log: seq<Turn>, mode: Mode)
    requires CleanLog(init, log, mode)
    ensures forall i :: 0 <= i < |log| ==> log[i].plan.stop != AfterInsert
  {
    if log != [] {
      CleanStops(init, log[..|log| - 1], mode);
    }
  }
}
