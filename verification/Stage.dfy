/** The boundary stage as the service runs it for one call, on the stored rows; and what
    follows for deferral and for rows the detector cannot accept. */
module Stage {
  import opened Common
  import opened Messages
  import opened Merging
  import opened Boundary
  import opened Memorize

  datatype Status = Accumulated | Extracted | Skipped

  /** `Raised` is an exception leaving the stage. */
  datatype Outcome =
    | Outcome(cells: seq<Cell>, perCellIds: seq<seq<string>>, perCellSenders: seq<seq<string>>,
              status: Status, messageCount: nat)
    | Raised

  function Empty(status: Status, count: nat): Outcome {
    Outcome([], [], [], status, count)
  }

  function FromRows(rows: seq<Row>): seq<Msg> {
    seq(|rows|, i requires 0 <= i < |rows| => FromRow(rows[i]))
  }

  /** The rows of one (app, project, session): buffer table slice and ledger. */
  class SpaceStore {
    const key: Key
    var buffer: seq<Row>
    var ledger: seq<Memcell>

    constructor (key: Key)
      ensures this.key == key && View() == Space([], [])
    {
      this.key := key;
      buffer, ledger := [], [];
    }

    /** What the next read sees. */
    ghost function View(): Space
      reads this
    {
      Space(FromRows(buffer), ledger)
    }

    method ListForTrack() returns (ms: seq<Msg>)
      ensures ms == View().buffer
    {
      ms := [];
      for i := 0 to |buffer|
        invariant |ms| == i
        invariant forall j :: 0 <= j < i ==> ms[j] == FromRow(buffer[j])
      {
        ms := ms + [FromRow(buffer[i])];
      }
      assert ms == FromRows(buffer);
    }

    method ReplaceBuffer(ms: seq<Msg>)
      modifies this`buffer
      ensures View() == Keep(old(View()), ms, key)
    {
      var rows: seq<Row> := [];
      for i := 0 to |ms|
        invariant |rows| == i
        invariant forall j :: 0 <= j < i ==> rows[j] == ToRow(ms[j], key.app, key.project)
      {
        rows := rows + [ToRow(ms[i], key.app, key.project)];
      }
      buffer := rows;
      assert FromRows(rows) == PersistAll(ms, key.app, key.project);
    }

    method InsertMany(rows: seq<Memcell>)
      modifies this`ledger
      ensures View() == old(View()).(ledger := old(ledger) + rows)
    {
      ledger := ledger + rows;
    }
  }

  ghost predicate NothingPasses(msgs: seq<Msg>, mode: Mode) {
    forall m :: m in msgs ==> !Passes(m, mode)
  }

  lemma NothingPassesIff(msgs: seq<Msg>, mode: Mode)
    ensures NothingPasses(msgs, mode) <==> FilterForMode(msgs, mode) == []
  {
    var kept := FilterForMode(msgs, mode);
    assert kept != [] ==> kept[0] in kept;
    FilterKeepsExactly(msgs, mode);
  }

  method BufferMessages(store: SpaceStore, msgs: seq<Msg>, mode: Mode) returns (out: Outcome)
    modifies store
    ensures store.View() == Solo(old(store.View()), Req(store.key, msgs, false, true), mode, Plan(false, Broken, Completed))
    ensures out.Outcome? && out.cells == [] && out.messageCount == |FilterForMode(msgs, mode)|
    ensures out.status == (if FilterForMode(msgs, mode) == [] then Skipped else Accumulated)
    ensures NothingPasses(msgs, mode) ==>
      out == Empty(Skipped, 0) && store.View() == old(store.View())
    ensures !NothingPasses(msgs, mode) ==> out.status == Accumulated && out.messageCount > 0
  {
    NothingPassesIff(msgs, mode);
    var incoming := FilterForMode(msgs, mode);
    if incoming == [] {
      return Empty(Skipped, 0);
    }
    var buffered := store.ListForTrack();
    var merged := MergeDedupeSort(buffered, incoming);
    store.ReplaceBuffer(merged);
    out := Empty(Accumulated, |incoming|);
  }

  ghost predicate Reports(out: Outcome, was: seq<Memcell>, now: seq<Memcell>) {
    out.Outcome? ==>
      && |out.perCellIds| == |out.perCellSenders| == |out.cells|
      && (out.status == Extracted <==> out.cells != [])
      && now == was + seq(|out.cells|, i requires 0 <= i < |out.cells| =>
                            Memcell(out.perCellIds[i], out.perCellSenders[i], out.cells[i]))
  }

  /** When the stage raises: the list went to the detector, and no usable answer came back
      or its cells run past the list. */
  predicate Raises(route: Decision, reply: Reply) {
    route.RunDetector? && (!reply.Answer? || (reply.cells != [] && Covered(reply.cells) > |route.merged|))
  }

  /** What a stage that does not raise reports. Skipped: nothing came in, or no LLM is
      configured; extracted: the detector found cells; accumulated: everything else. */
  function StatusOf(route: Decision, reply: Reply, nothingNew: bool, anchored: bool): Status {
    match route
    case NoWrite => if nothingNew then Skipped else Accumulated
    case KeepAll(_) => if anchored then Skipped else Accumulated
    case RunDetector(_) => if reply.Answer? && reply.cells != [] then Extracted else Accumulated
  }

  /** Ledger insert and tail write-back for a non-empty list of cells. */
  method PersistCells(store: SpaceStore, merged: seq<Msg>, cells: seq<Cell>, tail: seq<Item>, count: nat)
    returns (out: Outcome)
    requires cells != []
    modifies store
    ensures store.View() == if Covered(cells) > |merged| then old(store.View())
              else Keep(InsertCells(old(store.View()), merged, cells), SliceTail(merged, |tail|), store.key)
    ensures out.Raised? <==> Covered(cells) > |merged|
    ensures Reports(out, old(store.ledger), store.ledger)
    ensures out.Outcome? ==> out.messageCount == count && out.status == Extracted && out.cells == cells
  {
    var ids := SplitMessagesPerCell(merged, cells);
    if ids.None? {
      return Raised;
    }
    var senders := CollectSenders(cells);
    var rows := CellRows(ids.value, cells);
    store.InsertMany(rows);
    store.ReplaceBuffer(SliceTail(merged, |tail|));
    out := Outcome(cells, ids.value, senders, Extracted, count);
    assert rows == seq(|out.cells|, i requires 0 <= i < |out.cells| =>
                         Memcell(out.perCellIds[i], out.perCellSenders[i], out.cells[i]));
  }

  method DetectAndPersist(store: SpaceStore, merged: seq<Msg>, mode: Mode, replies: nat -> Reply, count: nat)
    returns (out: Outcome)
    modifies store
    ensures var reply := DetectSpec(merged, mode, replies);
            store.View() ==
              if !reply.Answer? || (reply.cells != [] && Covered(reply.cells) > |merged|) then old(store.View())
              else if reply.cells == [] then Keep(old(store.View()), merged, store.key)
              else Keep(InsertCells(old(store.View()), merged, reply.cells), SliceTail(merged, |reply.tail|), store.key)
    ensures out.Raised? <==> Raises(RunDetector(merged), DetectSpec(merged, mode, replies))
    ensures out.Raised? ==> store.View() == old(store.View())
    ensures Reports(out, old(store.ledger), store.ledger)
    ensures out.Outcome? ==>
      && out.messageCount == count
      && out.cells == DetectSpec(merged, mode, replies).cells
      && out.status == (if out.cells != [] then Extracted else Accumulated)
  {
    var reply := Detect(merged, mode, replies);
    if !reply.Answer? {
      return Raised;
    }
    if reply.cells == [] {
      store.ReplaceBuffer(merged);
      return Empty(Accumulated, count);
    }
    out := PersistCells(store, merged, reply.cells, reply.tail, count);
  }

  /** The stage of an add or a flush; `replies(k)` is the detector's reply on attempt k. */
  method PrepareCells(store: SpaceStore, msgs: seq<Msg>, mode: Mode, isFinal: bool, llm: bool, replies: nat -> Reply)
    returns (out: Outcome)
    modifies store
    ensures var was := old(store.View());
            var merged := Merge(was.buffer, FilterForMode(msgs, mode));
            store.View() == Solo(was, Req(store.key, msgs, isFinal, false), mode,
                                 Plan(llm, DetectSpec(merged, mode, replies), Completed))
    ensures var merged := Merge(old(store.View()).buffer, FilterForMode(msgs, mode));
            var route := Route(old(store.View()).buffer, Req(store.key, msgs, isFinal, false), mode, llm);
            var reply := DetectSpec(merged, mode, replies);
      && (out.Raised? <==> Raises(route, reply))
      && (out.Outcome? ==>
            && out.cells == (if route.RunDetector? then reply.cells else [])
            && out.status == StatusOf(route, reply, FilterForMode(msgs, mode) == [] && !isFinal, isFinal || HasUser(merged)))
    ensures !isFinal && NothingPasses(msgs, mode) ==>
      out == Empty(Skipped, 0) && store.View() == old(store.View())
    ensures !NothingPasses(msgs, mode) && out.Outcome? ==> out.messageCount > 0
    ensures out.Raised? ==> store.View() == old(store.View())
    ensures Reports(out, old(store.ledger), store.ledger)
    ensures out.Outcome? ==> out.messageCount == |FilterForMode(msgs, mode)|
  {
    NothingPassesIff(msgs, mode);
    var incoming := FilterForMode(msgs, mode);
    if incoming == [] && !isFinal {
      return Empty(Skipped, 0);
    }
    var buffered := store.ListForTrack();
    var merged := MergeDedupeSort(buffered, incoming);
    if merged == [] {
      NothingMerged(buffered, incoming);
      return Empty(Accumulated, 0);
    }
    if !isFinal && !HasUser(merged) {
      store.ReplaceBuffer(merged);
      return Empty(Accumulated, |incoming|);
    }
    if !llm {
      store.ReplaceBuffer(merged);
      return Empty(Skipped, |incoming|);
    }
    out := DetectAndPersist(store, merged, mode, replies, |incoming|);
  }

  method CollectSenders(cells: seq<Cell>) returns (senders: seq<seq<string>>)
    ensures |senders| == |cells|
    ensures forall i :: 0 <= i < |cells| ==> senders[i] == SendersOf(cells[i].items)
  {
    senders := [];
    for i := 0 to |cells|
      invariant |senders| == i
      invariant forall j :: 0 <= j < i ==> senders[j] == SendersOf(cells[j].items)
    {
      var one := UniqueAllSenders(cells[i]);
      senders := senders + [one];
    }
  }

  lemma NothingMerged(b: seq<Msg>, x: seq<Msg>)
    requires Merge(b, x) == []
    ensures x == []
  {
    MergeIsMerge(b, x);
    assert x != [] ==> HasId(x, x[0].id);
  }

  // ── Deferral ────────────────────────────────────────────────────────────

  lemma {:induction false} PersistLookup(s: seq<Msg>, key: Key, id: string)
    ensures First(PersistAll(s, key.app, key.project), id) ==
            if First(s, id).Some? then Some(Persisted(First(s, id).value, key.app, key.project)) else None
  {
    if s != [] {
      assert PersistAll(s, key.app, key.project)[1..] == PersistAll(s[1..], key.app, key.project);
      PersistLookup(s[1..], key, id);
    }
  }

  lemma {:induction false} PersistLookupLast(s: seq<Msg>, key: Key, id: string)
    ensures Last(PersistAll(s, key.app, key.project), id) ==
            if Last(s, id).Some? then Some(Persisted(Last(s, id).value, key.app, key.project)) else None
  {
    if s != [] {
      var n := |s| - 1;
      assert PersistAll(s, key.app, key.project)[..n] == PersistAll(s[..n], key.app, key.project);
      PersistLookupLast(s[..n], key, id);
    }
  }

  /** Storing commutes with merging. */
  lemma PersistMerge(b: seq<Msg>, x: seq<Msg>, key: Key)
    ensures PersistAll(Merge(b, x), key.app, key.project) ==
            Merge(PersistAll(b, key.app, key.project), PersistAll(x, key.app, key.project))
  {
    var m := Merge(b, x);
    var pm, pb, px := PersistAll(m, key.app, key.project), PersistAll(b, key.app, key.project), PersistAll(x, key.app, key.project);
    MergeIsMerge(b, x);
    PersistKeepsOrder(m, key.app, key.project);
    forall n: Msg ensures n in pm <==> Survivor(pb, px, n.id) == Some(n) {
      PersistLookup(x, key, n.id);
      PersistLookupLast(b, key, n.id);
      if n in pm {
        var i :| 0 <= i < |pm| && pm[i] == n;
        assert m[i] in m && n == Persisted(m[i], key.app, key.project);
      }
      if Survivor(pb, px, n.id) == Some(n) {
        LastMember(b, n.id);
        FirstMember(x, n.id);
        var o := Survivor(b, x, n.id).value;
        assert o in m;
        var i :| 0 <= i < |m| && m[i] == o;
        assert pm[i] == n;
      }
    }
    MergeUnique(pb, px, pm);
  }

  lemma PersistTwice(ms: seq<Msg>, key: Key)
    ensures PersistAll(PersistAll(ms, key.app, key.project), key.app, key.project) == PersistAll(ms, key.app, key.project)
  {
  }

  /** One deferred add. */
  function Defer(sp: Space, batch: seq<Msg>, mode: Mode, key: Key): Space {
    Solo(sp, Req(key, batch, false, true), mode, Plan(false, Broken, Completed))
  }

  function DeferAll(sp: Space, batches: seq<seq<Msg>>, mode: Mode, key: Key): Space
    decreases |batches|
  {
    if batches == [] then sp else DeferAll(Defer(sp, batches[0], mode, key), batches[1..], mode, key)
  }

  /** Two lists the store and the detector cannot tell apart. */
  ghost predicate Alike(a: seq<Msg>, b: seq<Msg>, key: Key) {
    PersistAll(a, key.app, key.project) == PersistAll(b, key.app, key.project)
  }

  lemma AlikeItems(a: seq<Msg>, b: seq<Msg>, key: Key, mode: Mode)
    requires Alike(a, b, key)
    ensures DetectorItems(a, mode) == DetectorItems(b, mode) && IdSeq(a) == IdSeq(b)
  {
    PersistedItems(a, key.app, key.project, mode);
    PersistedItems(b, key.app, key.project, mode);
    assert IdSeq(a) == IdSeq(PersistAll(a, key.app, key.project));
    assert IdSeq(b) == IdSeq(PersistAll(b, key.app, key.project));
  }

  lemma DeferOne(sp: Space, batch: seq<Msg>, y: seq<Msg>, mode: Mode, key: Key)
    ensures Alike(Merge(Defer(sp, batch, mode, key).buffer, y), Merge(sp.buffer, FilterForMode(batch, mode) + y), key)
  {
    var f := FilterForMode(batch, mode);
    if f == [] {
      assert f + y == y;
    } else {
      var m := Merge(sp.buffer, f);
      var stored := PersistAll(m, key.app, key.project);
      PersistMerge(stored, y, key);
      PersistTwice(m, key);
      PersistMerge(m, y, key);
      MergeAssociates(sp.buffer, f, y);
    }
  }

  lemma AlikeChain(a: seq<Msg>, b: seq<Msg>, c: seq<Msg>, key: Key)
    requires Alike(a, b, key) && Alike(b, c, key)
    ensures Alike(a, c, key)
  {
  }

  lemma {:induction false} DeferMany(sp: Space, batches: seq<seq<Msg>>, y: seq<Msg>, mode: Mode, key: Key)
    ensures Alike(Merge(DeferAll(sp, batches, mode, key).buffer, y),
                  Merge(sp.buffer, FilterForMode(Concat(batches), mode) + y), key)
    decreases |batches|
  {
    if batches == [] {
      assert FilterForMode(Concat(batches), mode) + y == y;
    } else {
      var f, rest := FilterForMode(batches[0], mode), FilterForMode(Concat(batches[1..]), mode);
      var next := Defer(sp, batches[0], mode, key);
      DeferMany(next, batches[1..], y, mode, key);
      DeferOne(sp, batches[0], rest + y, mode, key);
      FilterAppend(batches[0], Concat(batches[1..]), mode);
      AppendAssociates(f, rest, y);
      AlikeChain(Merge(DeferAll(sp, batches, mode, key).buffer, y), Merge(next.buffer, rest + y),
                 Merge(sp.buffer, f + (rest + y)), key);
    }
  }

  /** Deferral is transparent: buffering any batches one add at a time and then flushing
      gives the detector the same items, over the same ids, as one flush carrying all the
      messages; and what either leaves in the buffer reads back the same. */
  lemma DeferralTransparent(sp: Space, batches: seq<seq<Msg>>, mode: Mode, key: Key)
    ensures var late := Merge(DeferAll(sp, batches, mode, key).buffer, []);
            var at := Merge(sp.buffer, FilterForMode(Concat(batches), mode));
      && DetectorItems(late, mode) == DetectorItems(at, mode)
      && IdSeq(late) == IdSeq(at)
      && PersistAll(late, key.app, key.project) == PersistAll(at, key.app, key.project)
  {
    DeferMany(sp, batches, [], mode, key);
    assert FilterForMode(Concat(batches), mode) + [] == FilterForMode(Concat(batches), mode);
    AlikeItems(Merge(DeferAll(sp, batches, mode, key).buffer, []), Merge(sp.buffer, FilterForMode(Concat(batches), mode)), key, mode);
  }

  lemma {:induction false} DeferKeepsLedger(sp: Space, batches: seq<seq<Msg>>, mode: Mode, key: Key)
    ensures DeferAll(sp, batches, mode, key).ledger == sp.ledger
    decreases |batches|
  {
    if batches != [] { DeferKeepsLedger(Defer(sp, batches[0], mode, key), batches[1..], mode, key); }
  }

  lemma AlikeWrites(a: seq<Msg>, b: seq<Msg>, cells: seq<Cell>, tail: nat, key: Key)
    requires Alike(a, b, key) && IdSeq(a) == IdSeq(b)
    ensures |a| == |b| && SplitIds(a, cells) == SplitIds(b, cells)
    ensures Alike(SliceTail(a, tail), SliceTail(b, tail), key)
  {
    assert |IdSeq(a)| == |a| && |IdSeq(b)| == |b|;
    if Covered(cells) <= |a| {
      forall k | 0 <= k < |cells| ensures CellIds(a, cells, k) == CellIds(b, cells, k) {
        StartOfMonotone(cells, k, k + 1);
        StartOfMonotone(cells, k + 1, |cells|);
        SliceIds(a, StartOf(cells, k), StartOf(cells, k + 1));
        SliceIds(b, StartOf(cells, k), StartOf(cells, k + 1));
      }
      assert SplitIds(a, cells).value == SplitIds(b, cells).value;
    }
    SlicePersisted(a, tail, key);
    SlicePersisted(b, tail, key);
  }

  lemma SliceIds(ms: seq<Msg>, from: nat, to: nat)
    requires from <= to <= |ms|
    ensures IdSeq(ms[from..to]) == IdSeq(ms)[from..to]
  {
  }

  lemma SlicePersisted(ms: seq<Msg>, n: nat, key: Key)
    ensures PersistAll(SliceTail(ms, n), key.app, key.project) == SliceTail(PersistAll(ms, key.app, key.project), n)
  {
  }

  /** A flush that completes: no LLM, or a usable answer whose cells fit the list. */
  predicate FlushCompletes(merged: seq<Msg>, plan: Plan) {
    && plan.stop == Completed
    && (plan.llm ==> plan.reply.Answer? && (plan.reply.cells == [] || Covered(plan.reply.cells) <= |merged|))
  }

  /** Where a completing flush ends, by what it merged. */
  function Flushed(ledger: seq<Memcell>, merged: seq<Msg>, key: Key, plan: Plan): Space {
    var sp := Space([], ledger);
    if merged == [] then sp
    else if !plan.llm || !plan.reply.Answer? || plan.reply.cells == [] then Keep(sp, merged, key)
    else Keep(InsertCells(sp, merged, plan.reply.cells), SliceTail(merged, |plan.reply.tail|), key)
  }

  lemma FlushEnds(sp: Space, msgs: seq<Msg>, mode: Mode, key: Key, plan: Plan)
    requires FlushCompletes(Merge(sp.buffer, FilterForMode(msgs, mode)), plan)
    ensures Solo(sp, Req(key, msgs, true, false), mode, plan) ==
            Flushed(sp.ledger, Merge(sp.buffer, FilterForMode(msgs, mode)), key, plan)
  {
    if Merge(sp.buffer, FilterForMode(msgs, mode)) == [] {
      NothingStored(sp.buffer, FilterForMode(msgs, mode));
    }
  }

  lemma FlushedAlike(ledger: seq<Memcell>, a: seq<Msg>, b: seq<Msg>, key: Key, plan: Plan)
    requires Alike(a, b, key) && IdSeq(a) == IdSeq(b)
    ensures Flushed(ledger, a, key, plan) == Flushed(ledger, b, key, plan)
  {
    assert |IdSeq(a)| == |a| && |IdSeq(b)| == |b|;
    if plan.reply.Answer? {
      AlikeWrites(a, b, plan.reply.cells, |plan.reply.tail|, key);
    }
  }

  /** Deferral does not show afterwards either: for one detector reply, deferring the batches
      and flushing ends in the same space, ledger and buffer, as one flush with all of them. */
  lemma DeferralSameSpace(sp: Space, batches: seq<seq<Msg>>, mode: Mode, key: Key, plan: Plan)
    requires FlushCompletes(Merge(sp.buffer, FilterForMode(Concat(batches), mode)), plan)
    ensures Solo(DeferAll(sp, batches, mode, key), Req(key, [], true, false), mode, plan) ==
            Solo(sp, Req(key, Concat(batches), true, false), mode, plan)
  {
    var stored := DeferAll(sp, batches, mode, key);
    var late, at := Merge(stored.buffer, []), Merge(sp.buffer, FilterForMode(Concat(batches), mode));
    DeferralTransparent(sp, batches, mode, key);
    DeferKeepsLedger(sp, batches, mode, key);
    assert |IdSeq(late)| == |late| && |IdSeq(at)| == |at|;
    FlushedAlike(sp.ledger, late, at, key, plan);
    FlushEnds(stored, [], mode, key, plan);
    FlushEnds(sp, Concat(batches), mode, key, plan);
  }

  lemma NothingStored(b: seq<Msg>, x: seq<Msg>)
    requires Merge(b, x) == []
    ensures b == []
  {
    assert b != [] ==> HasId(b, b[0].id);
    MergeIsMerge(b, x);
  }

  // ── Rows the detector cannot accept ─────────────────────────────────────

  predicate HasOrphan(ms: seq<Msg>) {
    exists i :: 0 <= i < |ms| && Orphan(ms[i])
  }

  /** Detection can succeed for some reply exactly when no orphan tool row is in an
      agent-mode list; otherwise it raises whatever the detector would say. */
  lemma DetectableIff(merged: seq<Msg>, mode: Mode, reply: Reply)
    requires reply.Answer?
    ensures DetectSpec(merged, mode, k => reply) == reply <==> !(mode == AgentMode && HasOrphan(merged))
    ensures mode == AgentMode && HasOrphan(merged) ==> forall replies :: DetectSpec(merged, mode, replies) == Invalid
  {
  }

  lemma MergeKeepsOrphan(b: seq<Msg>, x: seq<Msg>, key: Key)
    requires DistinctIds(b) && HasOrphan(b)
    ensures HasOrphan(Merge(b, x)) && HasOrphan(PersistAll(Merge(b, x), key.app, key.project))
  {
    var i :| 0 <= i < |b| && Orphan(b[i]);
    MergeIsMerge(b, x);
    DistinctLookup(b, b[i]);
    assert b[i] in Merge(b, x);
    var j :| 0 <= j < |Merge(b, x)| && Merge(b, x)[j] == b[i];
    assert Orphan(PersistAll(Merge(b, x), key.app, key.project)[j]);
  }

  lemma OrphanTurn(sp: Space, req: Req, plan: Plan)
    requires SpaceOk(sp) && Honest(sp, req, AgentMode, plan) && HasOrphan(sp.buffer)
    ensures var after := Solo(sp, req, AgentMode, plan);
            HasOrphan(after.buffer) && after.ledger == sp.ledger
  {
    MergeKeepsOrphan(sp.buffer, FilterForMode(req.msgs, AgentMode), req.key);
  }

  lemma {:induction false} OrphanReplay(init: Store, log: seq<Turn>, key: Key)
    requires StoreOk(init) && HonestLog(init, log, AgentMode) && HasOrphan(At(init, key).buffer)
    ensures HasOrphan(At(Replay(init, log, AgentMode), key).buffer)
    ensures At(Replay(init, log, AgentMode), key).ledger == At(init, key).ledger
  {
    if log != [] {
      var front, t := log[..|log| - 1], log[|log| - 1];
      OrphanReplay(init, front, key);
      ReplayKeepsStoreOk(init, front, AgentMode);
      if t.req.key == key {
        OrphanTurn(At(Replay(init, front, AgentMode), key), t.req, t.plan);
      }
    }
  }

  /** One buffered orphan row stops extraction for good: in agent mode, whatever calls
      follow and however they interleave, the space's ledger never grows again and the
      orphan never leaves the buffer. */
  lemma OrphanBlocksForever(init: Store, ls: seq<Label>, key: Key)
    requires StoreOk(init) && Legal(Start(init), ls, AgentMode, true)
    requires HasOrphan(At(init, key).buffer)
    requires Exec(Start(init), ls, AgentMode).owner.None?
    ensures var s := Exec(Start(init), ls, AgentMode);
            At(s.store, key).ledger == At(init, key).ledger && HasOrphan(At(s.store, key).buffer)
  {
    InvRun(Start(init), init, ls, AgentMode);
    OrphanReplay(init, Exec(Start(init), ls, AgentMode).log, key);
  }

  /** A deferred add lets an orphan in: the row is admitted and buffered unless its id
      is already there. */
  lemma DeferredOrphanEnters(sp: Space, m: Msg, key: Key)
    requires SpaceOk(sp) && Orphan(m) && !HasId(sp.buffer, m.id)
    ensures HasOrphan(Defer(sp, [m], AgentMode, key).buffer)
  {
    assert FilterForMode([m], AgentMode) == [m] by { assert [m][1..] == []; }
    MergeIsMerge(sp.buffer, [m]);
    LastMember(sp.buffer, m.id);
    assert First([m], m.id) == Some(m);
    assert m in Merge(sp.buffer, [m]);
    var j :| 0 <= j < |Merge(sp.buffer, [m])| && Merge(sp.buffer, [m])[j] == m;
    assert Orphan(PersistAll(Merge(sp.buffer, [m]), key.app, key.project)[j]);
  }
}
