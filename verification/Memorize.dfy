/** Concurrent memorize calls on one session: the per-session lock, every await point of
    the critical section, and cancellation at any of them. */
module Memorize {
  import opened Common
  import opened Messages
  import opened Merging
  import opened Boundary

  // ── What one call does ──────────────────────────────────────────────────

  /** The lock is per session; buffer and ledger are per (app, project) within it. */
  datatype Key = Key(app: string, project: string)

  datatype Req = Req(key: Key, msgs: seq<Msg>, isFinal: bool, deferred: bool)

  datatype Decision = NoWrite | KeepAll(merged: seq<Msg>) | RunDetector(merged: seq<Msg>)

  predicate HasUser(ms: seq<Msg>) {
    exists i :: 0 <= i < |ms| && ms[i].role == User
  }

  /** Which way a call goes once it has read the buffer. */
  function Route(buffer: seq<Msg>, req: Req, mode: Mode, llm: bool): Decision {
    var incoming := FilterForMode(req.msgs, mode);
    var merged := Merge(buffer, incoming);
    if req.deferred && !req.isFinal then
      if incoming == [] then NoWrite else KeepAll(merged)
    else if incoming == [] && !req.isFinal then NoWrite
    else if merged == [] then NoWrite
    else if !req.isFinal && !HasUser(merged) then KeepAll(merged)
    else if !llm then KeepAll(merged)
    else RunDetector(merged)
  }

  lemma UserInSight(ms: seq<Msg>)
    ensures HasUser(ms) <==> exists m :: m in ms && m.role == User
  {
    if HasUser(ms) {
      var i :| 0 <= i < |ms| && ms[i].role == User;
      assert ms[i] in ms;
    }
    if m :| m in ms && m.role == User {
      var i :| 0 <= i < |ms| && ms[i] == m;
      assert ms[i].role == User;
    }
  }

  lemma SomethingMerged(buffer: seq<Msg>, fetched: seq<Msg>)
    ensures Merge(buffer, fetched) != [] <==> buffer != [] || fetched != []
  {
    var merged := Merge(buffer, fetched);
    assert buffer != [] ==> HasId(buffer, buffer[0].id);
    assert fetched != [] ==> HasId(fetched, fetched[0].id);
    assert merged != [] ==> HasId(merged, merged[0].id);
    MergeIsMerge(buffer, fetched);
  }

  /** When the detector is asked: the call is not merely deferred, an LLM is configured, and
      there is something to flush, or something new with a user message in sight. */
  lemma DetectorRunsIff(buffer: seq<Msg>, req: Req, mode: Mode, llm: bool)
    ensures var fetched := FilterForMode(req.msgs, mode);
      Route(buffer, req, mode, llm).RunDetector? <==>
        && llm
        && (req.isFinal || !req.deferred)
        && (req.isFinal ==> buffer != [] || fetched != [])
        && (!req.isFinal ==> fetched != [] && exists m :: m in Merge(buffer, fetched) && m.role == User)
  {
    var fetched := FilterForMode(req.msgs, mode);
    SomethingMerged(buffer, fetched);
    UserInSight(Merge(buffer, fetched));
  }

  function CellRows(ids: seq<seq<string>>, cells: seq<Cell>): seq<Memcell>
    requires |ids| == |cells|
  {
    seq(|cells|, i requires 0 <= i < |cells| => Memcell(ids[i], SendersOf(cells[i].items), cells[i]))
  }

  function Keep(sp: Space, merged: seq<Msg>, key: Key): Space {
    sp.(buffer := PersistAll(merged, key.app, key.project))
  }

  function InsertCells(sp: Space, merged: seq<Msg>, cells: seq<Cell>): Space {
    var ids := SplitIds(merged, cells);
    if ids.None? then sp else sp.(ledger := sp.ledger + CellRows(ids.value, cells))
  }

  /** How far a call got before it ended. */
  datatype Stop = BeforeWrites | AfterInsert | Completed

  /** What the environment chose for a call: a configured LLM or not, the detector's
      reply, and where the call ended. */
  datatype Plan = Plan(llm: bool, reply: Reply, stop: Stop)

  /** The effect of a call that runs with nobody else around. An answer that walks past
      the merged list raises an IndexError before anything is written. */
  function Solo(sp: Space, req: Req, mode: Mode, plan: Plan): Space {
    if plan.stop == BeforeWrites then sp
    else
      match Route(sp.buffer, req, mode, plan.llm)
      case NoWrite => sp
      case KeepAll(merged) => Keep(sp, merged, req.key)
      case RunDetector(merged) =>
        if !plan.reply.Answer? then sp
        else if plan.reply.cells == [] then Keep(sp, merged, req.key)
        else if Covered(plan.reply.cells) > |merged| then sp
        else
          var inserted := InsertCells(sp, merged, plan.reply.cells);
          if plan.stop == AfterInsert then inserted
          else Keep(inserted, SliceTail(merged, |plan.reply.tail|), req.key)
  }

  // ── Steps ───────────────────────────────────────────────────────────────

  datatype Pc =
    | Queued
    | Holding
    | Keeping(merged: seq<Msg>)
    | Detecting(merged: seq<Msg>)
    | Inserting(merged: seq<Msg>)
    | Replacing(merged: seq<Msg>)
    | Finishing
    | Done
    | Aborted

  datatype Call = Call(req: Req, pc: Pc, plan: Plan)

  datatype Turn = Turn(call: nat, req: Req, plan: Plan)

  type Store = map<Key, Space>

  function At(store: Store, key: Key): Space {
    if key in store then store[key] else Space([], [])
  }

  /** The two stores hold the same rows; a space nobody wrote is an empty space. */
  ghost predicate Agree(a: Store, b: Store) {
    forall k :: At(a, k) == At(b, k)
  }

  /** `grants` and `log` record the calls in the order they got the lock and left it. */
  datatype St = St(
    store: Store,
    calls: map<nat, Call>,
    owner: Option<nat>,
    queue: seq<nat>,
    grants: seq<nat>,
    log: seq<Turn>)

  datatype Label =
    | Arrive(call: nat, req: Req)
    | Grant(call: nat)
    | Read(call: nat, listing: seq<Msg>, llm: bool)
    | Replied(call: nat, reply: Reply)
    | InsertMany(call: nat)
    | Replace(call: nat)
    | Return(call: nat)
    | Abort(call: nat)

  predicate Critical(pc: Pc) {
    !pc.Queued? && !pc.Done? && !pc.Aborted?
  }

  predicate Active(pc: Pc) {
    !pc.Done? && !pc.Aborted?
  }

  /** `list_for_track` orders by timestamp alone, so rows may come in any order among ties. */
  ghost predicate ListingOf(listing: seq<Msg>, buffer: seq<Msg>) {
    && DistinctIds(listing)
    && (forall m :: m in listing <==> m in buffer)
    && (forall i, j :: 0 <= i < j < |listing| ==> listing[i].timestamp <= listing[j].timestamp)
  }

  ghost predicate Enabled(s: St, l: Label, mode: Mode, locked: bool) {
    if l.Arrive? then l.call !in s.calls
    else
      l.call in s.calls &&
      var c := s.calls[l.call];
      match l
      case Grant(id) => c.pc.Queued? && (locked ==> s.owner.None? && s.queue != [] && s.queue[0] == id)
      case Read(_, listing, _) => c.pc.Holding? && ListingOf(listing, At(s.store, c.req.key).buffer)
      case Replied(_, reply) => c.pc.Detecting? && reply.Answer? && HonoursContract(c.pc.merged, mode, reply)
      case InsertMany(_) => c.pc.Inserting?
      case Replace(_) => c.pc.Keeping? || c.pc.Replacing?
      case Return(_) => c.pc.Finishing?
      case Abort(_) => Active(c.pc)
  }

  function Without(q: seq<nat>, c: nat): seq<nat> {
    if q == [] then [] else if q[0] == c then Without(q[1..], c) else [q[0]] + Without(q[1..], c)
  }

  /** Leaving the `async with`: the lock is free again and the turn is on record. */
  function Leave(s: St, id: nat, pc: Pc): St
    requires id in s.calls
  {
    var c := s.calls[id];
    var s' := s.(calls := s.calls[id := c.(pc := pc)]);
    if c.pc.Queued? then s'.(queue := Without(s.queue, id))
    else s'.(owner := if s.owner == Some(id) then None else s.owner,
             log := s.log + [Turn(id, c.req, c.plan)])
  }

  function Step(s: St, l: Label, mode: Mode): St
    requires !l.Arrive? ==> l.call in s.calls
  {
    var id := l.call;
    if l.Arrive? then
      s.(calls := s.calls[id := Call(l.req, Queued, Plan(false, Broken, BeforeWrites))], queue := s.queue + [id])
    else
      var c := s.calls[id];
      var key := c.req.key;
      match l
      case Grant(_) =>
        s.(calls := s.calls[id := c.(pc := Holding)], owner := Some(id),
           queue := Without(s.queue, id), grants := s.grants + [id])
      case Read(_, listing, llm) =>
        var pc := match Route(listing, c.req, mode, llm)
                  case NoWrite => Finishing
                  case KeepAll(m) => Keeping(m)
                  case RunDetector(m) => Detecting(m);
        s.(calls := s.calls[id := c.(pc := pc, plan := c.plan.(llm := llm))])
      case Replied(_, reply) =>
        if c.pc.Detecting? && reply.Answer? then
          var pc := if reply.cells == [] then Keeping(c.pc.merged) else Inserting(c.pc.merged);
          s.(calls := s.calls[id := c.(pc := pc, plan := c.plan.(reply := reply))])
        else s
      case InsertMany(_) =>
        if c.pc.Inserting? && c.plan.reply.Answer? then
          s.(store := s.store[key := InsertCells(At(s.store, key), c.pc.merged, c.plan.reply.cells)],
             calls := s.calls[id := c.(pc := Replacing(c.pc.merged), plan := c.plan.(stop := AfterInsert))])
        else s
      case Replace(_) =>
        var c' := c.(pc := Finishing, plan := c.plan.(stop := Completed));
        if c.pc.Keeping? then
          s.(store := s.store[key := Keep(At(s.store, key), c.pc.merged, key)], calls := s.calls[id := c'])
        else if c.pc.Replacing? && c.plan.reply.Answer? then
          s.(store := s.store[key := Keep(At(s.store, key), SliceTail(c.pc.merged, |c.plan.reply.tail|), key)],
             calls := s.calls[id := c'])
        else s
      case Return(_) => Leave(s, id, Done)
      case Abort(_) => Leave(s, id, Aborted)
  }

  ghost predicate Legal(s: St, ls: seq<Label>, mode: Mode, locked: bool)
    decreases |ls|
  {
    ls == [] || (Enabled(s, ls[0], mode, locked) && Legal(Step(s, ls[0], mode), ls[1..], mode, locked))
  }

  function Exec(s: St, ls: seq<Label>, mode: Mode): St
    decreases |ls|
  {
    if ls == [] then s
    else if !ls[0].Arrive? && ls[0].call !in s.calls then s
    else Exec(Step(s, ls[0], mode), ls[1..], mode)
  }

  function Start(store: Store): St {
    St(store, map[], None, [], [], [])
  }

  // ── Serial runs ─────────────────────────────────────────────────────────

  function ApplyTurn(store: Store, t: Turn, mode: Mode): Store {
    store[t.req.key := Solo(At(store, t.req.key), t.req, mode, t.plan)]
  }

  /** The turns run one after the other, each alone. */
  function Replay(store: Store, log: seq<Turn>, mode: Mode): Store {
    if log == [] then store
    else ApplyTurn(Replay(store, log[..|log| - 1], mode), log[|log| - 1], mode)
  }

  lemma ReplaySnoc(store: Store, log: seq<Turn>, t: Turn, mode: Mode)
    ensures Replay(store, log + [t], mode) == ApplyTurn(Replay(store, log, mode), t, mode)
  {
    assert (log + [t])[..|log|] == log;
  }

  function TurnCalls(log: seq<Turn>): seq<nat> {
    seq(|log|, i requires 0 <= i < |log| => log[i].call)
  }

  ghost predicate SpaceOk(sp: Space) {
    StrictlySorted(sp.buffer) && DistinctIds(sp.buffer)
  }

  ghost predicate StoreOk(store: Store) {
    forall k :: k in store ==> SpaceOk(store[k])
  }

  /** A turn that got to a write followed the code: a kept list is written whole, and a
      detector answer honours the contract. */
  ghost predicate Honest(sp: Space, req: Req, mode: Mode, plan: Plan) {
    plan.stop != BeforeWrites ==>
      match Route(sp.buffer, req, mode, plan.llm)
      case NoWrite => false
      case KeepAll(_) => plan.stop == Completed
      case RunDetector(m) =>
        plan.reply.Answer? && HonoursContract(m, mode, plan.reply)
        && (plan.reply.cells == [] ==> plan.stop == Completed)
  }

  ghost predicate HonestLog(store: Store, log: seq<Turn>, mode: Mode) {
    log == [] ||
    var front, t := log[..|log| - 1], log[|log| - 1];
    HonestLog(store, front, mode) && Honest(At(Replay(store, front, mode), t.req.key), t.req, mode, t.plan)
  }

  lemma {:induction false} PersistKeepsOrder(ms: seq<Msg>, app: string, project: string)
    requires StrictlySorted(ms) && DistinctIds(ms)
    ensures StrictlySorted(PersistAll(ms, app, project)) && DistinctIds(PersistAll(ms, app, project))
    ensures IdSeq(PersistAll(ms, app, project)) == IdSeq(ms)
  {
  }

  lemma SliceTailOk(ms: seq<Msg>, n: nat)
    requires StrictlySorted(ms) && DistinctIds(ms)
    ensures StrictlySorted(SliceTail(ms, n)) && DistinctIds(SliceTail(ms, n))
  {
  }

  lemma SoloKeepsSpaceOk(sp: Space, req: Req, mode: Mode, plan: Plan)
    requires SpaceOk(sp)
    ensures SpaceOk(Solo(sp, req, mode, plan))
  {
    var merged := Merge(sp.buffer, FilterForMode(req.msgs, mode));
    MergeIsMerge(sp.buffer, FilterForMode(req.msgs, mode));
    PersistKeepsOrder(merged, req.key.app, req.key.project);
    if plan.reply.Answer? {
      SliceTailOk(merged, |plan.reply.tail|);
      PersistKeepsOrder(SliceTail(merged, |plan.reply.tail|), req.key.app, req.key.project);
    }
  }

  lemma {:induction false} ReplayKeepsStoreOk(store: Store, log: seq<Turn>, mode: Mode)
    requires StoreOk(store)
    ensures StoreOk(Replay(store, log, mode))
  {
    if log != [] {
      var front, t := log[..|log| - 1], log[|log| - 1];
      ReplayKeepsStoreOk(store, front, mode);
      SoloKeepsSpaceOk(At(Replay(store, front, mode), t.req.key), t.req, mode, t.plan);
    }
  }

  // ── The invariant ───────────────────────────────────────────────────────

  /** The call did all its writes, or its route has none: filtered empty, or nothing merged. */
  ghost predicate Complete(base: Space, req: Req, mode: Mode, plan: Plan) {
    plan.stop == Completed || (plan.stop == BeforeWrites && Route(base.buffer, req, mode, plan.llm).NoWrite?)
  }

  /** What the program counter says about the decision taken on the base space. */
  ghost predicate PcOk(base: Space, c: Call, mode: Mode) {
    var route := Route(base.buffer, c.req, mode, c.plan.llm);
    var detected := route.RunDetector? && c.plan.reply.Answer? && HonoursContract(route.merged, mode, c.plan.reply);
    match c.pc
    case Holding => c.plan == Plan(false, Broken, BeforeWrites)
    case Keeping(m) =>
      c.plan.stop == BeforeWrites &&
      (route == KeepAll(m) || (route == RunDetector(m) && detected && c.plan.reply.cells == []))
    case Detecting(m) => c.plan.stop == BeforeWrites && route == RunDetector(m)
    case Inserting(m) =>
      c.plan.stop == BeforeWrites && route == RunDetector(m) && detected && c.plan.reply.cells != []
    case Replacing(m) =>
      c.plan.stop == AfterInsert && route == RunDetector(m) && detected && c.plan.reply.cells != []
    case Finishing => Honest(base, c.req, mode, c.plan) && Complete(base, c.req, mode, c.plan)
    case _ => true
  }

  ghost predicate LockInv(s: St) {
    && (forall c :: c in s.calls && Critical(s.calls[c].pc) ==> s.owner == Some(c))
    && (s.owner.Some? ==> s.owner.value in s.calls && Critical(s.calls[s.owner.value].pc))
    && (forall c :: c in s.queue ==> c in s.calls && s.calls[c].pc.Queued?)
    && s.grants == TurnCalls(s.log) + (if s.owner.Some? then [s.owner.value] else [])
  }

  /** Every call that left the section has exactly one turn on record. */
  ghost predicate LogInv(s: St) {
    && (forall i :: 0 <= i < |s.log| ==> s.log[i].call in s.calls && !Active(s.calls[s.log[i].call].pc))
    && (forall i, j :: 0 <= i < j < |s.log| ==> s.log[i].call != s.log[j].call)
    && (forall c :: c in s.calls && s.calls[c].pc.Done? ==> HasTurn(s.log, c, s.calls[c]))
  }

  ghost predicate HasTurn(log: seq<Turn>, id: nat, c: Call) {
    exists i :: 0 <= i < |log| && log[i] == Turn(id, c.req, c.plan)
  }

  /** The store is the serial replay of the finished turns, plus what the current owner
      has already done on top of it. */
  ghost predicate StoreInv(s: St, init: Store, mode: Mode) {
    var base := Replay(init, s.log, mode);
    if s.owner.None? || s.owner.value !in s.calls then Agree(s.store, base)
    else
      var c := s.calls[s.owner.value];
      && PcOk(At(base, c.req.key), c, mode)
      && Agree(s.store, ApplyTurn(base, Turn(s.owner.value, c.req, c.plan), mode))
  }

  /** A queued call has made no choices yet. */
  ghost predicate QueuedFresh(s: St) {
    forall c :: c in s.calls && s.calls[c].pc.Queued? ==> s.calls[c].plan == Plan(false, Broken, BeforeWrites)
  }

  ghost predicate Inv(s: St, init: Store, mode: Mode) {
    StoreOk(init) && LockInv(s) && LogInv(s) && QueuedFresh(s) && StoreInv(s, init, mode) && HonestLog(init, s.log, mode)
  }

  lemma {:induction false} WithoutSpec(q: seq<nat>, c: nat)
    ensures forall d :: d in Without(q, c) <==> d in q && d != c
  {
    if q != [] {
      WithoutSpec(q[1..], c);
      assert q == [q[0]] + q[1..];
    }
  }

  lemma LockStep(s: St, l: Label, mode: Mode)
    requires LockInv(s) && Enabled(s, l, mode, true)
    ensures LockInv(Step(s, l, mode))
  {
    WithoutSpec(s.queue, l.call);
    var s' := Step(s, l, mode);
    if (l.Return? || l.Abort?) && !s.calls[l.call].pc.Queued? {
      assert s.owner == Some(l.call);
      assert TurnCalls(s'.log) == TurnCalls(s.log) + [l.call];
    }
  }

  lemma QueuedStep(s: St, l: Label, mode: Mode)
    requires QueuedFresh(s) && Enabled(s, l, mode, true)
    ensures QueuedFresh(Step(s, l, mode))
  {
  }

  lemma LeaveLog(s: St, id: nat, pc: Pc)
    requires LogInv(s) && id in s.calls && Active(s.calls[id].pc) && !Active(pc)
    requires pc.Done? ==> !s.calls[id].pc.Queued?
    ensures LogInv(Leave(s, id, pc))
  {
    var s' := Leave(s, id, pc);
    if !s.calls[id].pc.Queued? {
      assert s'.log[|s.log|] == Turn(id, s.calls[id].req, s.calls[id].plan);
    }
    KeepsTurns(s, s');
  }

  lemma KeepsTurns(s: St, s': St)
    requires LogInv(s) && s.log <= s'.log
    ensures forall c :: c in s.calls && s.calls[c].pc.Done? ==> HasTurn(s'.log, c, s.calls[c])
  {
    forall c | c in s.calls && s.calls[c].pc.Done? ensures HasTurn(s'.log, c, s.calls[c]) {
      var i :| 0 <= i < |s.log| && s.log[i] == Turn(c, s.calls[c].req, s.calls[c].plan);
      assert s'.log[i] == s.log[i];
    }
  }

  lemma LogStep(s: St, l: Label, mode: Mode)
    requires LogInv(s) && Enabled(s, l, mode, true)
    ensures LogInv(Step(s, l, mode))
  {
    if l.Return? {
      LeaveLog(s, l.call, Done);
    } else if l.Abort? {
      LeaveLog(s, l.call, Aborted);
    }
  }

  lemma ReadSeesBase(base: Space, listing: seq<Msg>, req: Req, mode: Mode, llm: bool)
    requires SpaceOk(base) && ListingOf(listing, base.buffer)
    ensures Route(listing, req, mode, llm) == Route(base.buffer, req, mode, llm)
  {
    var incoming := FilterForMode(req.msgs, mode);
    MergeOfListing(base.buffer, listing, incoming);
  }

  lemma MergeOfListing(b: seq<Msg>, listing: seq<Msg>, x: seq<Msg>)
    requires DistinctIds(b) && ListingOf(listing, b)
    ensures Merge(listing, x) == Merge(b, x)
  {
    MergeIsMerge(b, x);
    forall m: Msg ensures Survivor(listing, x, m.id) == Survivor(b, x, m.id) {
      SameLookup(listing, b, m.id);
    }
    MergeUnique(listing, x, Merge(b, x));
  }

  /** Steps of a call that is not in the critical section, and arrivals, write nothing. */
  lemma OutsiderStep(s: St, init: Store, l: Label, mode: Mode)
    requires Inv(s, init, mode) && Enabled(s, l, mode, true)
    requires l.Arrive? || !Critical(s.calls[l.call].pc)
    requires !l.Grant?
    ensures StoreInv(Step(s, l, mode), init, mode) && HonestLog(init, Step(s, l, mode).log, mode)
  {
  }

  lemma GrantStep(s: St, init: Store, l: Label, mode: Mode)
    requires Inv(s, init, mode) && Enabled(s, l, mode, true) && l.Grant?
    requires s.calls[l.call].plan == Plan(false, Broken, BeforeWrites)
    ensures StoreInv(Step(s, l, mode), init, mode) && HonestLog(init, Step(s, l, mode).log, mode)
  {
  }

  lemma LeaveStep(s: St, init: Store, l: Label, mode: Mode)
    requires Inv(s, init, mode) && Enabled(s, l, mode, true) && (l.Return? || l.Abort?)
    requires Critical(s.calls[l.call].pc)
    ensures StoreInv(Step(s, l, mode), init, mode) && HonestLog(init, Step(s, l, mode).log, mode)
  {
    var c := s.calls[l.call];
    var t := Turn(l.call, c.req, c.plan);
    var base := Replay(init, s.log, mode);
    assert s.owner == Some(l.call);
    ReplaySnoc(init, s.log, t, mode);
    assert (s.log + [t])[..|s.log|] == s.log;
    assert Honest(At(base, c.req.key), c.req, mode, c.plan);
    assert HonestLog(init, s.log + [t], mode);
  }

  /** Before a step of the lock holder: it stands where a lone call on the base space
      would stand, and has stored what that lone call would have stored. */
  ghost predicate Standing(s: St, base: Store, id: nat, mode: Mode) {
    && id in s.calls
    && var c := s.calls[id];
       PcOk(At(base, c.req.key), c, mode) && At(s.store, c.req.key) == Solo(At(base, c.req.key), c.req, mode, c.plan)
  }

  ghost predicate OnlyKey(s: St, s': St, key: Key) {
    forall k :: k != key ==> At(s'.store, k) == At(s.store, k)
  }

  lemma OwnerReads(s: St, base: Store, l: Label, mode: Mode)
    requires Enabled(s, l, mode, true) && l.Read? && StoreOk(base) && Standing(s, base, l.call, mode)
    ensures Standing(Step(s, l, mode), base, l.call, mode)
  {
    var c := s.calls[l.call];
    ReadSeesBase(At(base, c.req.key), l.listing, c.req, mode, l.llm);
  }

  lemma OwnerHearsBack(s: St, base: Store, l: Label, mode: Mode)
    requires Enabled(s, l, mode, true) && l.Replied? && Standing(s, base, l.call, mode)
    ensures Standing(Step(s, l, mode), base, l.call, mode)
  {
  }

  lemma OwnerInserts(s: St, base: Store, l: Label, mode: Mode)
    requires Enabled(s, l, mode, true) && l.InsertMany? && Standing(s, base, l.call, mode)
    ensures Standing(Step(s, l, mode), base, l.call, mode)
    ensures OnlyKey(s, Step(s, l, mode), s.calls[l.call].req.key)
  {
    var c := s.calls[l.call];
    if !c.pc.Keeping? {
      ContractPartitions(c.pc.merged, mode, c.plan.reply);
    }
  }

  lemma OwnerKeeps(s: St, base: Store, l: Label, mode: Mode)
    requires Enabled(s, l, mode, true) && l.Replace? && Standing(s, base, l.call, mode)
    requires s.calls[l.call].pc.Keeping?
    ensures Standing(Step(s, l, mode), base, l.call, mode)
    ensures OnlyKey(s, Step(s, l, mode), s.calls[l.call].req.key)
  {
  }

  lemma OwnerKeepsTail(s: St, base: Store, l: Label, mode: Mode)
    requires Enabled(s, l, mode, true) && l.Replace? && Standing(s, base, l.call, mode)
    requires s.calls[l.call].pc.Replacing?
    ensures Standing(Step(s, l, mode), base, l.call, mode)
    ensures OnlyKey(s, Step(s, l, mode), s.calls[l.call].req.key)
  {
    var c := s.calls[l.call];
    ContractPartitions(c.pc.merged, mode, c.plan.reply);
  }

  lemma OwnerLocal(s: St, base: Store, l: Label, mode: Mode)
    requires Enabled(s, l, mode, true) && (l.Read? || l.Replied? || l.InsertMany? || l.Replace?)
    requires StoreOk(base) && Standing(s, base, l.call, mode)
    ensures Standing(Step(s, l, mode), base, l.call, mode)
    ensures OnlyKey(s, Step(s, l, mode), s.calls[l.call].req.key)
    ensures Step(s, l, mode).calls[l.call].req == s.calls[l.call].req
  {
    if l.Read? { OwnerReads(s, base, l, mode); }
    else if l.Replied? { OwnerHearsBack(s, base, l, mode); }
    else if l.InsertMany? { OwnerInserts(s, base, l, mode); }
    else if s.calls[l.call].pc.Keeping? { OwnerKeeps(s, base, l, mode); }
    else { OwnerKeepsTail(s, base, l, mode); }
  }

  lemma OwnerWorks(s: St, init: Store, l: Label, mode: Mode)
    requires Inv(s, init, mode) && Enabled(s, l, mode, true)
    requires !l.Arrive? && !l.Grant? && !l.Return? && !l.Abort?
    requires Critical(s.calls[l.call].pc)
    ensures StoreInv(Step(s, l, mode), init, mode) && Step(s, l, mode).log == s.log
  {
    var c := s.calls[l.call];
    var base := Replay(init, s.log, mode);
    ReplayKeepsStoreOk(init, s.log, mode);
    var was := ApplyTurn(base, Turn(l.call, c.req, c.plan), mode);
    assert Agree(s.store, was);
    assert At(s.store, c.req.key) == At(was, c.req.key);
    OwnerLocal(s, base, l, mode);
    var s' := Step(s, l, mode);
    var now := ApplyTurn(base, Turn(l.call, c.req, s'.calls[l.call].plan), mode);
    forall k ensures At(s'.store, k) == At(now, k) {
      if k != c.req.key {
        assert At(s'.store, k) == At(s.store, k) == At(was, k);
      }
    }
    assert Agree(s'.store, now);
  }

  lemma InvStep(s: St, init: Store, l: Label, mode: Mode)
    requires Inv(s, init, mode) && Enabled(s, l, mode, true)
    ensures Inv(Step(s, l, mode), init, mode)
  {
    LockStep(s, l, mode);
    LogStep(s, l, mode);
    QueuedStep(s, l, mode);
    if l.Arrive? {
      OutsiderStep(s, init, l, mode);
    } else if l.Grant? {
      GrantStep(s, init, l, mode);
    } else if (l.Return? || l.Abort?) && Critical(s.calls[l.call].pc) {
      LeaveStep(s, init, l, mode);
    } else if l.Abort? {
      OutsiderStep(s, init, l, mode);
    } else {
      OwnerWorks(s, init, l, mode);
    }
  }

  lemma {:induction false} InvRun(s: St, init: Store, ls: seq<Label>, mode: Mode)
    requires Inv(s, init, mode) && Legal(s, ls, mode, true)
    ensures Inv(Exec(s, ls, mode), init, mode)
    decreases |ls|
  {
    if ls != [] {
      InvStep(s, init, ls[0], mode);
      InvRun(Step(s, ls[0], mode), init, ls[1..], mode);
    }
  }

  // ── Calls that returned ─────────────────────────────────────────────────

  /** Turns and ended calls agree: every turn is the record of an ended call, and every ended
      call that wrote anything has one. */
  ghost predicate TurnsMatch(s: St) {
    && (forall i :: 0 <= i < |s.log| ==> IsRecord(s.log[i], s.calls))
    && (forall c :: c in s.calls && !Active(s.calls[c].pc) && s.calls[c].plan.stop != BeforeWrites ==>
          HasTurn(s.log, c, s.calls[c]))
  }

  ghost predicate IsRecord(t: Turn, calls: map<nat, Call>) {
    && t.call in calls && !Active(calls[t.call].pc)
    && t.req == calls[t.call].req && t.plan == calls[t.call].plan
  }

  /** The turn at place i is complete on the space its call found. */
  ghost predicate CompleteTurn(init: Store, log: seq<Turn>, i: nat, mode: Mode)
    requires i < |log|
  {
    Complete(At(Replay(init, log[..i], mode), log[i].req.key), log[i].req, mode, log[i].plan)
  }

  ghost predicate ReturnsComplete(s: St, init: Store, mode: Mode) {
    forall i :: 0 <= i < |s.log| && s.log[i].call in s.calls && s.calls[s.log[i].call].pc.Done? ==>
      CompleteTurn(init, s.log, i, mode)
  }

  ghost predicate SameEnded(s: St, s': St) {
    && s'.log == s.log
    && (forall c :: c in s.calls && !Active(s.calls[c].pc) ==> c in s'.calls && s'.calls[c] == s.calls[c])
    && (forall c :: c in s'.calls && !Active(s'.calls[c].pc) ==> c in s.calls && !Active(s.calls[c].pc))
  }

  /** Only returning and aborting end a call. */
  lemma NobodyEnds(s: St, l: Label, mode: Mode)
    requires Enabled(s, l, mode, true) && !l.Return? && !l.Abort?
    ensures SameEnded(s, Step(s, l, mode))
  {
  }

  lemma EndedTurns(s: St, id: nat, pc: Pc)
    requires TurnsMatch(s) && QueuedFresh(s) && id in s.calls && Active(s.calls[id].pc) && !Active(pc)
    ensures TurnsMatch(Leave(s, id, pc))
  {
    var s' := Leave(s, id, pc);
    forall i | 0 <= i < |s'.log| ensures IsRecord(s'.log[i], s'.calls) {
      if i < |s.log| { assert IsRecord(s.log[i], s.calls); }
    }
    forall c | c in s'.calls && !Active(s'.calls[c].pc) && s'.calls[c].plan.stop != BeforeWrites
      ensures HasTurn(s'.log, c, s'.calls[c])
    {
      if c == id {
        assert s'.log[|s.log|] == Turn(c, s'.calls[c].req, s'.calls[c].plan);
      } else {
        var i :| 0 <= i < |s.log| && s.log[i] == Turn(c, s.calls[c].req, s.calls[c].plan);
        assert s'.log[i] == s.log[i];
      }
    }
  }

  lemma TurnsMatchStep(s: St, l: Label, mode: Mode)
    requires TurnsMatch(s) && QueuedFresh(s) && Enabled(s, l, mode, true)
    ensures TurnsMatch(Step(s, l, mode))
  {
    if l.Return? {
      EndedTurns(s, l.call, Done);
    } else if l.Abort? {
      EndedTurns(s, l.call, Aborted);
    } else {
      NobodyEnds(s, l, mode);
      SameTurns(s, Step(s, l, mode));
    }
  }

  lemma SameTurns(s: St, s': St)
    requires TurnsMatch(s) && SameEnded(s, s')
    ensures TurnsMatch(s')
  {
    forall i | 0 <= i < |s'.log| ensures IsRecord(s'.log[i], s'.calls) {
      assert IsRecord(s.log[i], s.calls);
    }
  }

  lemma ReturnLeaves(s: St, init: Store, id: nat, mode: Mode)
    requires TurnsMatch(s) && ReturnsComplete(s, init, mode)
    requires id in s.calls && s.calls[id].pc.Finishing?
    requires Complete(At(Replay(init, s.log, mode), s.calls[id].req.key), s.calls[id].req, mode, s.calls[id].plan)
    ensures ReturnsComplete(Leave(s, id, Done), init, mode)
  {
    var s' := Leave(s, id, Done);
    forall i | 0 <= i < |s'.log| && s'.log[i].call in s'.calls && s'.calls[s'.log[i].call].pc.Done?
      ensures CompleteTurn(init, s'.log, i, mode)
    {
      if i < |s.log| {
        assert IsRecord(s.log[i], s.calls);
        assert s'.log[..i] == s.log[..i];
        assert CompleteTurn(init, s.log, i, mode);
      } else {
        assert s'.log[..i] == s.log;
      }
    }
  }

  lemma AbortLeaves(s: St, init: Store, id: nat, mode: Mode)
    requires TurnsMatch(s) && ReturnsComplete(s, init, mode)
    requires id in s.calls && Active(s.calls[id].pc)
    ensures ReturnsComplete(Leave(s, id, Aborted), init, mode)
  {
    var s' := Leave(s, id, Aborted);
    forall i | 0 <= i < |s'.log| && s'.log[i].call in s'.calls && s'.calls[s'.log[i].call].pc.Done?
      ensures CompleteTurn(init, s'.log, i, mode)
    {
      assert s'.log[..i] == s.log[..i];
      assert CompleteTurn(init, s.log, i, mode);
    }
  }

  lemma SameReturns(s: St, s': St, init: Store, mode: Mode)
    requires TurnsMatch(s) && ReturnsComplete(s, init, mode) && SameEnded(s, s')
    ensures ReturnsComplete(s', init, mode)
  {
    forall i | 0 <= i < |s'.log| && s'.log[i].call in s'.calls && s'.calls[s'.log[i].call].pc.Done?
      ensures CompleteTurn(init, s'.log, i, mode)
    {
      assert IsRecord(s.log[i], s.calls);
      assert CompleteTurn(init, s.log, i, mode);
    }
  }

  lemma ReturnStep(s: St, init: Store, l: Label, mode: Mode)
    requires Inv(s, init, mode) && TurnsMatch(s) && ReturnsComplete(s, init, mode) && Enabled(s, l, mode, true)
    ensures ReturnsComplete(Step(s, l, mode), init, mode)
  {
    if l.Return? {
      assert s.owner == Some(l.call);
      ReturnLeaves(s, init, l.call, mode);
    } else if l.Abort? {
      AbortLeaves(s, init, l.call, mode);
    } else {
      NobodyEnds(s, l, mode);
      SameReturns(s, Step(s, l, mode), init, mode);
    }
  }

  lemma {:induction false} ReturnRun(s: St, init: Store, ls: seq<Label>, mode: Mode)
    requires Inv(s, init, mode) && TurnsMatch(s) && ReturnsComplete(s, init, mode) && Legal(s, ls, mode, true)
    ensures TurnsMatch(Exec(s, ls, mode)) && ReturnsComplete(Exec(s, ls, mode), init, mode)
    decreases |ls|
  {
    if ls != [] {
      InvStep(s, init, ls[0], mode);
      TurnsMatchStep(s, ls[0], mode);
      ReturnStep(s, init, ls[0], mode);
      ReturnRun(Step(s, ls[0], mode), init, ls[1..], mode);
    }
  }

  // ── Main results ────────────────────────────────────────────────────────

  /** Serialisation. However calls interleave and wherever they are cancelled, what is
      stored is what the finished turns would store one after the other in the order the
      lock was granted, plus the current holder's own progress; nobody else is inside. A call
      that returned has exactly one turn, and that turn is complete on the space it found: all
      its writes, or a route without any. */
  lemma Serialised(init: Store, ls: seq<Label>, mode: Mode)
    requires StoreOk(init) && Legal(Start(init), ls, mode, true)
    ensures var s := Exec(Start(init), ls, mode);
      && (s.owner.None? ==> Agree(s.store, Replay(init, s.log, mode)) && TurnCalls(s.log) == s.grants)
      && (s.owner.Some? ==>
            && TurnCalls(s.log) + [s.owner.value] == s.grants
            && s.owner.value in s.calls
            && var c := s.calls[s.owner.value];
               Agree(s.store, ApplyTurn(Replay(init, s.log, mode), Turn(s.owner.value, c.req, c.plan), mode)))
      && (forall c :: c in s.calls && Critical(s.calls[c].pc) ==> s.owner == Some(c))
      && (forall c :: c in s.calls && s.calls[c].pc.Done? ==> HasTurn(s.log, c, s.calls[c]))
      && (forall i, j :: 0 <= i < j < |s.log| ==> s.log[i].call != s.log[j].call)
      && (forall i :: 0 <= i < |s.log| && s.log[i].call in s.calls && s.calls[s.log[i].call].pc.Done? ==>
            CompleteTurn(init, s.log, i, mode))
  {
    InvRun(Start(init), init, ls, mode);
    ReturnRun(Start(init), init, ls, mode);
  }

  /** While a call holds the lock, no step of another call changes what is stored. */
  lemma NobodyElseWrites(init: Store, ls: seq<Label>, mode: Mode, l: Label)
    requires StoreOk(init) && Legal(Start(init), ls, mode, true)
    requires Enabled(Exec(Start(init), ls, mode), l, mode, true)
    requires Exec(Start(init), ls, mode).owner.Some? && Exec(Start(init), ls, mode).owner.value != l.call
    ensures Step(Exec(Start(init), ls, mode), l, mode).store == Exec(Start(init), ls, mode).store
    ensures Step(Exec(Start(init), ls, mode), l, mode).owner == Exec(Start(init), ls, mode).owner
  {
    InvRun(Start(init), init, ls, mode);
  }

  lemma CancelKeepsLockInv(s: St, init: Store, mode: Mode, id: nat)
    requires Inv(s, init, mode) && Enabled(s, Abort(id), mode, true)
    ensures var s' := Step(s, Abort(id), mode);
      LockInv(s') && s'.owner != Some(id) && id !in s'.queue && s'.store == s.store
  {
    LockStep(s, Abort(id), mode);
    WithoutSpec(s.queue, id);
  }

  /** Cancelling the holder always frees the lock, and a free lock can be granted to the
      call at the head of the queue. */
  lemma CancelReleases(init: Store, ls: seq<Label>, mode: Mode, id: nat)
    requires StoreOk(init) && Legal(Start(init), ls, mode, true)
    requires Enabled(Exec(Start(init), ls, mode), Abort(id), mode, true)
    ensures var s := Exec(Start(init), ls, mode);
            var s' := Step(s, Abort(id), mode);
      && s'.owner != Some(id) && id !in s'.queue
      && s'.store == s.store
      && (s'.owner.None? && s'.queue != [] ==> Enabled(s', Grant(s'.queue[0]), mode, true))
  {
    var s := Exec(Start(init), ls, mode);
    InvRun(Start(init), init, ls, mode);
    CancelKeepsLockInv(s, init, mode, id);
  }
}
