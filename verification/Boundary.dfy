/** The boundary stage: routing of one call, detection with retries, the split of the
    merged list into cells and tail, and the writes to ledger and buffer. */
module Boundary {
  import opened Common
  import opened Messages
  import opened Merging

  datatype Cell = Cell(items: seq<Item>, timestamp: int)

  /** One `memcell` ledger row; the minted memcell id is left to the environment. */
  datatype Memcell = Memcell(messageIds: seq<string>, senderIds: seq<string>, payload: Cell)

  /** What is stored for one (app, project, session): the buffer as it reads back, and
      the ledger in insertion order. */
  datatype Space = Space(buffer: seq<Msg>, ledger: seq<Memcell>)

  /** One reply of the detector: an answer, a ValueError, or any other exception. */
  datatype Reply = Answer(cells: seq<Cell>, tail: seq<Item>) | Invalid | Broken

  function IdSeq(ms: seq<Msg>): seq<string> {
    seq(|ms|, i requires 0 <= i < |ms| => ms[i].id)
  }

  lemma IdSeqAppend(a: seq<Msg>, b: seq<Msg>)
    ensures IdSeq(a + b) == IdSeq(a) + IdSeq(b)
  {
  }

  lemma IdSeqSplit(ms: seq<Msg>, c: nat)
    requires c <= |ms|
    ensures IdSeq(ms[..c]) + IdSeq(ms[c..]) == IdSeq(ms)
  {
  }

  // ── Detection with retries ──────────────────────────────────────────────

  const MAX_ATTEMPTS: nat := 3

  /** The first reply that is not Invalid, within the allowed attempts. */
  function FirstUsable(replies: nat -> Reply, attempt: nat): Reply
    requires attempt <= MAX_ATTEMPTS
    decreases MAX_ATTEMPTS - attempt
  {
    if attempt == MAX_ATTEMPTS then Invalid
    else if replies(attempt).Invalid? then FirstUsable(replies, attempt + 1)
    else replies(attempt)
  }

  function DetectSpec(merged: seq<Msg>, mode: Mode, replies: nat -> Reply): Reply {
    if DetectorItems(merged, mode).None? then Invalid else FirstUsable(replies, 0)
  }

  /** `replies(k)` is what the detector would answer on attempt k. */
  method Detect(merged: seq<Msg>, mode: Mode, replies: nat -> Reply) returns (r: Reply)
    ensures r == DetectSpec(merged, mode, replies)
    ensures mode == AgentMode && (exists i :: 0 <= i < |merged| && Orphan(merged[i])) ==> r == Invalid
    ensures !r.Invalid? ==>
      exists k :: 0 <= k < MAX_ATTEMPTS && r == replies(k) && forall j :: 0 <= j < k ==> replies(j).Invalid?
    ensures DetectorItems(merged, mode).Some? ==>
      (r.Invalid? <==> replies(0).Invalid? && replies(1).Invalid? && replies(2).Invalid?)
  {
    for attempt := 0 to MAX_ATTEMPTS
      invariant DetectorItems(merged, mode).Some? ==> FirstUsable(replies, 0) == FirstUsable(replies, attempt)
      invariant DetectorItems(merged, mode).Some? ==> forall j :: 0 <= j < attempt ==> replies(j).Invalid?
    {
      var items := DetectorItems(merged, mode);
      if items.Some? {
        var reply := replies(attempt);
        if !reply.Invalid? {
          return reply;
        }
      }
    }
    return Invalid;
  }

  // ── Cells and tail against the merged list ──────────────────────────────

  /** The sum of the sizes of the first k cells: where cell k starts. */
  function StartOf(cells: seq<Cell>, k: nat): nat
    requires k <= |cells|
  {
    if k == 0 then 0 else StartOf(cells, k - 1) + |cells[k - 1].items|
  }

  function Covered(cells: seq<Cell>): nat {
    StartOf(cells, |cells|)
  }

  function CellItems(cells: seq<Cell>): seq<Item> {
    if cells == [] then [] else CellItems(cells[..|cells| - 1]) + cells[|cells| - 1].items
  }

  /** The detector's contract: its cells followed by its tail are the list it was given. */
  ghost predicate HonoursContract(merged: seq<Msg>, mode: Mode, reply: Reply) {
    reply.Answer? ==>
      DetectorItems(merged, mode).Some? && CellItems(reply.cells) + reply.tail == DetectorItems(merged, mode).value
  }

  lemma {:induction false} StartOfMonotone(cells: seq<Cell>, j: nat, k: nat)
    requires j <= k <= |cells|
    ensures StartOf(cells, j) <= StartOf(cells, k)
  {
    if j < k { StartOfMonotone(cells, j, k - 1); }
  }

  lemma {:induction false} StartOfPrefix(cells: seq<Cell>, n: nat, k: nat)
    requires k <= n <= |cells|
    ensures StartOf(cells[..n], k) == StartOf(cells, k)
  {
    if k > 0 { StartOfPrefix(cells, n, k - 1); }
  }

  lemma {:induction false} CoveredIsLength(cells: seq<Cell>)
    ensures |CellItems(cells)| == Covered(cells)
  {
    if cells != [] {
      var n := |cells| - 1;
      CoveredIsLength(cells[..n]);
      StartOfPrefix(cells, n, n);
    }
  }

  lemma {:induction false} CellItemAt(cells: seq<Cell>, k: nat, i: nat)
    requires k < |cells| && i < |cells[k].items|
    ensures StartOf(cells, k) + i < |CellItems(cells)|
    ensures CellItems(cells)[StartOf(cells, k) + i] == cells[k].items[i]
  {
    var n := |cells| - 1;
    CoveredIsLength(cells[..n]);
    StartOfPrefix(cells, n, n);
    if k < n {
      CellItemAt(cells[..n], k, i);
      StartOfPrefix(cells, n, k);
    }
  }

  /** The ids cell k owns: the messages from its start, one per item. */
  function CellIds(merged: seq<Msg>, cells: seq<Cell>, k: nat): seq<string>
    requires k < |cells| && Covered(cells) <= |merged|
  {
    StartOfMonotone(cells, k + 1, |cells|);
    IdSeq(merged[StartOf(cells, k)..StartOf(cells, k + 1)])
  }

  /** Per-cell message ids; `None` is the IndexError of walking past the end. */
  function SplitIds(merged: seq<Msg>, cells: seq<Cell>): Option<seq<seq<string>>> {
    if Covered(cells) > |merged| then None
    else Some(seq(|cells|, k requires 0 <= k < |cells| => CellIds(merged, cells, k)))
  }

  method SplitMessagesPerCell(merged: seq<Msg>, cells: seq<Cell>) returns (r: Option<seq<seq<string>>>)
    ensures r == SplitIds(merged, cells)
  {
    var result: seq<seq<string>> := [];
    var ptr := 0;
    for c := 0 to |cells|
      invariant ptr == StartOf(cells, c) <= |merged|
      invariant |result| == c
      invariant Covered(cells) <= |merged| ==> forall k :: 0 <= k < c ==> result[k] == CellIds(merged, cells, k)
    {
      var n := |cells[c].items|;
      StartOfMonotone(cells, c + 1, |cells|);
      if ptr + n > |merged| {
        return None;
      }
      result := result + [IdSeq(merged[ptr..ptr + n])];
      ptr := ptr + n;
    }
    r := Some(result);
    assert result == SplitIds(merged, cells).value;
  }

  /** `merged[-n:]`: the whole list when n exceeds its length. */
  function SliceTail(merged: seq<Msg>, n: nat): seq<Msg> {
    if n == 0 then [] else if n >= |merged| then merged else merged[|merged| - n..]
  }

  lemma {:induction false} FirstCellsCover(merged: seq<Msg>, cells: seq<Cell>, k: nat)
    requires k <= |cells| && Covered(cells) <= |merged|
    ensures StartOf(cells, k) <= |merged|
    ensures Concat(SplitIds(merged, cells).value[..k]) == IdSeq(merged[..StartOf(cells, k)])
  {
    StartOfMonotone(cells, k, |cells|);
    if k > 0 {
      FirstCellsCover(merged, cells, k - 1);
      var ids := SplitIds(merged, cells).value;
      var from, to := StartOf(cells, k - 1), StartOf(cells, k);
      assert ids[..k] == ids[..k - 1] + [CellIds(merged, cells, k - 1)];
      ConcatSnoc(ids[..k - 1], CellIds(merged, cells, k - 1));
      IdSeqAppend(merged[..from], merged[from..to]);
      assert merged[..from] + merged[from..to] == merged[..to];
    }
  }

  lemma SplitCoversPrefix(merged: seq<Msg>, cells: seq<Cell>)
    requires Covered(cells) <= |merged|
    ensures Concat(SplitIds(merged, cells).value) == IdSeq(merged[..Covered(cells)])
  {
    FirstCellsCover(merged, cells, |cells|);
    var ids := SplitIds(merged, cells).value;
    assert ids[..|cells|] == ids;
  }

  /** The cells' ids followed by the tail's ids are the merged ids, in order and without
      overlap or gap, exactly when the sizes add up. */
  lemma Partition(merged: seq<Msg>, cells: seq<Cell>, tail: nat)
    requires Covered(cells) <= |merged|
    ensures SplitIds(merged, cells).Some?
    ensures Concat(SplitIds(merged, cells).value) + IdSeq(SliceTail(merged, tail)) == IdSeq(merged)
            <==> Covered(cells) + Min(tail, |merged|) == |merged|
  {
    SplitCoversPrefix(merged, cells);
    var c := Covered(cells);
    if c + Min(tail, |merged|) == |merged| {
      assert SliceTail(merged, tail) == merged[c..];
      IdSeqSplit(merged, c);
    } else {
      assert |SliceTail(merged, tail)| == Min(tail, |merged|);
      assert |IdSeq(merged[..c]) + IdSeq(SliceTail(merged, tail))| == c + Min(tail, |merged|);
    }
  }

  /** An answer that honours the contract partitions the merged ids. */
  lemma ContractPartitions(merged: seq<Msg>, mode: Mode, reply: Reply)
    requires reply.Answer? && HonoursContract(merged, mode, reply)
    ensures Covered(reply.cells) + |reply.tail| == |merged|
    ensures SliceTail(merged, |reply.tail|) == merged[Covered(reply.cells)..]
    ensures SplitIds(merged, reply.cells).Some?
    ensures Concat(SplitIds(merged, reply.cells).value) + IdSeq(SliceTail(merged, |reply.tail|)) == IdSeq(merged)
  {
    CoveredIsLength(reply.cells);
    Partition(merged, reply.cells, |reply.tail|);
  }

  /** The tail put back into the buffer is the messages of the tail items. */
  lemma ContractAlignsTail(merged: seq<Msg>, mode: Mode, reply: Reply)
    requires reply.Answer? && HonoursContract(merged, mode, reply)
    ensures |SliceTail(merged, |reply.tail|)| == |reply.tail|
    ensures forall i :: 0 <= i < |reply.tail| ==>
      ToItem(SliceTail(merged, |reply.tail|)[i], mode) == Some(reply.tail[i])
  {
    ContractPartitions(merged, mode, reply);
    CoveredIsLength(reply.cells);
    var items := DetectorItems(merged, mode).value;
    var c := Covered(reply.cells);
    forall i | 0 <= i < |reply.tail|
      ensures ToItem(SliceTail(merged, |reply.tail|)[i], mode) == Some(reply.tail[i])
    {
      assert items[c + i] == reply.tail[i];
      assert merged[c..][i] == merged[c + i];
    }
  }

  /** Item i of cell k is the image of the message listed at that place. */
  ghost predicate AlignedAt(merged: seq<Msg>, mode: Mode, cells: seq<Cell>, k: nat, i: nat)
    requires k < |cells| && i < |cells[k].items|
  {
    var at := StartOf(cells, k) + i;
    at < |merged| && ToItem(merged[at], mode) == Some(cells[k].items[i])
  }

  lemma ItemAligns(merged: seq<Msg>, mode: Mode, reply: Reply, k: nat, i: nat)
    requires reply.Answer? && HonoursContract(merged, mode, reply)
    requires k < |reply.cells| && i < |reply.cells[k].items|
    ensures AlignedAt(merged, mode, reply.cells, k, i)
  {
    var items, at := DetectorItems(merged, mode).value, StartOf(reply.cells, k) + i;
    CellItemAt(reply.cells, k, i);
    assert items[at] == CellItems(reply.cells)[at];
    assert ToItem(merged[at], mode) == Some(items[at]);
  }

  /** Under the contract every item of every cell is aligned, and so is the tail. */
  lemma ContractAligns(merged: seq<Msg>, mode: Mode, reply: Reply)
    requires reply.Answer? && HonoursContract(merged, mode, reply)
    ensures forall k, i :: 0 <= k < |reply.cells| && 0 <= i < |reply.cells[k].items| ==>
      AlignedAt(merged, mode, reply.cells, k, i)
    ensures |SliceTail(merged, |reply.tail|)| == |reply.tail|
    ensures forall i :: 0 <= i < |reply.tail| ==>
      ToItem(SliceTail(merged, |reply.tail|)[i], mode) == Some(reply.tail[i])
  {
    forall k, i | 0 <= k < |reply.cells| && 0 <= i < |reply.cells[k].items|
      ensures AlignedAt(merged, mode, reply.cells, k, i)
    {
      ItemAligns(merged, mode, reply, k, i);
    }
    ContractAlignsTail(merged, mode, reply);
  }

  lemma FiledAt(merged: seq<Msg>, cells: seq<Cell>, k: nat, i: nat)
    requires k < |cells| && i < |cells[k].items| && Covered(cells) <= |merged|
    ensures StartOf(cells, k) + i < |merged|
    ensures |CellIds(merged, cells, k)| == |cells[k].items|
    ensures CellIds(merged, cells, k)[i] == merged[StartOf(cells, k) + i].id
  {
    StartOfMonotone(cells, k + 1, |cells|);
    assert merged[StartOf(cells, k)..StartOf(cells, k + 1)][i] == merged[StartOf(cells, k) + i];
  }

  /** Cell by cell: the i-th id a cell files is that of the very message its i-th item is the
      image of. */
  lemma FiledUnderItsItem(merged: seq<Msg>, mode: Mode, reply: Reply, k: nat, i: nat)
    requires reply.Answer? && HonoursContract(merged, mode, reply)
    requires k < |reply.cells| && i < |reply.cells[k].items|
    ensures SplitIds(merged, reply.cells).Some? && |SplitIds(merged, reply.cells).value| == |reply.cells|
    ensures var ids := SplitIds(merged, reply.cells).value[k];
            var at := StartOf(reply.cells, k) + i;
      && |ids| == |reply.cells[k].items|
      && at < |merged| && ids[i] == merged[at].id && ToItem(merged[at], mode) == Some(reply.cells[k].items[i])
  {
    ContractPartitions(merged, mode, reply);
    ItemAligns(merged, mode, reply, k, i);
    FiledAt(merged, reply.cells, k, i);
  }

  // ── Senders of a cell ───────────────────────────────────────────────────

  /** Tool results carry no sender; an empty sender id counts as none. */
  function SenderOf(item: Item): Option<string> {
    match item
    case ToolCallResult(_, _, _) => None
    case ToolCallRequest(_, _, _, s, _) => if s == "" then None else Some(s)
    case ChatMessage(_, _, s, _, _, _) => if s == "" then None else Some(s)
  }

  /** Who a message's item speaks for: nobody for a tool result, else its sender, if named. */
  lemma SpeaksForSender(m: Msg, mode: Mode)
    requires ToItem(m, mode).Some?
    ensures SenderOf(ToItem(m, mode).value) ==
            if (mode == AgentMode && m.role == Tool) || m.senderId == "" then None else Some(m.senderId)
  {
  }

  ghost predicate SpeaksAt(items: seq<Item>, i: int, sender: string) {
    0 <= i < |items| && SenderOf(items[i]) == Some(sender)
  }

  /** `at` is the first place where `sender` speaks. */
  ghost predicate FirstSpeaksAt(items: seq<Item>, at: int, sender: string) {
    SpeaksAt(items, at, sender) && forall i :: 0 <= i < at ==> !SpeaksAt(items, i, sender)
  }

  /** Earlier entries speak first, so no sender is listed twice either. */
  ghost predicate InSpeakingOrder(items: seq<Item>, senders: seq<string>) {
    forall a, b, i, j ::
      (0 <= a < b < |senders| && FirstSpeaksAt(items, i, senders[a]) && FirstSpeaksAt(items, j, senders[b]))
      ==> i < j
  }

  method UniqueAllSenders(cell: Cell) returns (senders: seq<string>)
    ensures forall s :: s in senders <==> exists i :: SpeaksAt(cell.items, i, s)
    ensures InSpeakingOrder(cell.items, senders)
    ensures senders == SendersOf(cell.items)
  {
    senders := [];
    for n := 0 to |cell.items|
      invariant senders == SendersOf(cell.items[..n])
    {
      assert cell.items[..n + 1][..n] == cell.items[..n];
      var sid := SenderOf(cell.items[n]);
      if sid.Some? && sid.value !in senders {
        senders := senders + [sid.value];
      }
    }
    assert cell.items[..|cell.items|] == cell.items;
    SendersOfMeaning(cell.items);
  }

  function SendersOf(items: seq<Item>): seq<string> {
    if items == [] then []
    else
      var rest := SendersOf(items[..|items| - 1]);
      var s := SenderOf(items[|items| - 1]);
      if s.Some? && s.value !in rest then rest + [s.value] else rest
  }

  /** The senders are the distinct speakers, listed in the order they first speak. */
  lemma {:induction false} SendersOfMeaning(items: seq<Item>)
    ensures forall s :: s in SendersOf(items) <==> exists i :: SpeaksAt(items, i, s)
    ensures InSpeakingOrder(items, SendersOf(items))
  {
    if items != [] {
      var n := |items| - 1;
      var front := items[..n];
      SendersOfMeaning(front);
      var before, after := SendersOf(front), SendersOf(items);
      forall s ensures s in after <==> exists i :: SpeaksAt(items, i, s) {
        if exists i :: SpeaksAt(items, i, s) {
          var i :| SpeaksAt(items, i, s);
          if i < n { assert SpeaksAt(front, i, s); }
        }
        if s in before {
          var i :| SpeaksAt(front, i, s);
          assert SpeaksAt(items, i, s);
        } else if s in after {
          assert SpeaksAt(items, n, s);
        }
      }
      forall a, b, i, j | 0 <= a < b < |after| && FirstSpeaksAt(items, i, after[a]) && FirstSpeaksAt(items, j, after[b])
        ensures i < j
      {
        assert after[a] in before;
        var k :| SpeaksAt(front, k, after[a]);
        assert SpeaksAt(items, k, after[a]);
        assert i <= k;
        FirstInFront(items, i, after[a]);
        if b < |before| {
          assert after[b] in before;
          var l :| SpeaksAt(front, l, after[b]);
          assert SpeaksAt(items, l, after[b]);
          FirstInFront(items, j, after[b]);
        } else if j < n {
          assert SpeaksAt(front, j, after[b]);
        }
      }
    }
  }

  lemma FirstInFront(items: seq<Item>, i: int, s: string)
    requires items != [] && FirstSpeaksAt(items, i, s) && i < |items| - 1
    ensures FirstSpeaksAt(items[..|items| - 1], i, s)
  {
    var front := items[..|items| - 1];
    forall j | 0 <= j < i ensures !SpeaksAt(front, j, s) {
      assert !SpeaksAt(items, j, s);
    }
  }
}
