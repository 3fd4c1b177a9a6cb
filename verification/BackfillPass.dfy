/** What one backfill pass leaves behind: which rows a rescan finds, what was written, and
    what the two counters do and do not account for. */
module BackfillPass {
  import opened Common
  import opened Backfill

  ghost predicate DistinctRecs(table: seq<Rec>) {
    forall i, j :: 0 <= i < j < |table| ==> table[i].id != table[j].id
  }

  /** A record after the pass. */
  function Filled(r: Rec, hasSubject: bool, env: Env): Rec {
    var row := RowOf(r, hasSubject, env);
    if row.Some? && Writes(row.value, env)
    then Patch(r, PrimaryOf(row.value, env), SubjectOf(row.value, env)) else r
  }

  function FillAll(table: seq<Rec>, hasSubject: bool, env: Env): seq<Rec> {
    seq(|table|, i requires 0 <= i < |table| => Filled(table[i], hasSubject, env))
  }

  /** What a pass leaves in the two vector columns, from the record alone: a NULL primary gets
      the embedding of the text, a NULL subject vector that of the subject, each in its own
      column, when the text can be extracted, the side exists and the write goes through. */
  ghost predicate HoldsItsVectors(was: Rec, now: Rec, hasSubject: bool, env: Env) {
    && now.vector ==
         (if was.vector.None? && was.text.Some? && env.writable(was.id)
          then env.embed(was.text.value) else was.vector)
    && now.subjectVector ==
         (if hasSubject && was.text.Some? && was.subject.Some? && was.subject.value != ""
            && was.subjectVector.None? && env.writable(was.id)
          then env.embed(was.subject.value) else was.subjectVector)
    && now == was.(vector := now.vector, subjectVector := now.subjectVector)
  }

  lemma {:induction false} FilledExactly(r: Rec, hasSubject: bool, env: Env)
    ensures HoldsItsVectors(r, Filled(r, hasSubject, env), hasSubject, env)
  {
  }

  /** The scan's row for a record, field by field: which records have one, which sides it
      needs, and whose tokens it counts. */
  lemma {:induction false} BacklogRowIs(r: Rec, hasSubject: bool, env: Env)
    ensures RowOf(r, hasSubject, env).Some? <==>
      && r.text.Some?
      && (r.vector.None? || (hasSubject && r.subject.Some? && r.subject.value != "" && r.subjectVector.None?))
    ensures RowOf(r, hasSubject, env).Some? ==>
      var row, wanted := RowOf(r, hasSubject, env).value,
          hasSubject && r.subject.Some? && r.subject.value != "" && r.subjectVector.None?;
      && row.id == r.id && row.text == r.text.value
      && row.needsPrimary == r.vector.None? && row.needsSubject == wanted
      && (wanted ==> row.subjectText == r.subject)
      && row.tokens == env.countTokens(if wanted then r.text.value + " " + r.subject.value else r.text.value)
  {
  }

  // ── The pass, record by record ──────────────────────────────────────────

  lemma {:induction false} BacklogIds(table: seq<Rec>, hasSubject: bool, env: Env)
    ensures forall row :: row in Backlog(table, hasSubject, env) ==>
      exists i :: 0 <= i < |table| && RowOf(table[i], hasSubject, env) == Some(row) && row.id == table[i].id
  {
    if table != [] {
      var n := |table| - 1;
      BacklogIds(table[..n], hasSubject, env);
      forall row | row in Backlog(table, hasSubject, env)
        ensures exists i :: 0 <= i < |table| && RowOf(table[i], hasSubject, env) == Some(row) && row.id == table[i].id
      {
        if row in Backlog(table[..n], hasSubject, env) {
          var i :| 0 <= i < n && RowOf(table[..n][i], hasSubject, env) == Some(row) && row.id == table[..n][i].id;
          assert table[i] == table[..n][i];
        } else {
          assert RowOf(table[n], hasSubject, env) == Some(row);
        }
      }
    }
  }

  lemma {:induction false} BacklogDistinct(table: seq<Rec>, hasSubject: bool, env: Env)
    requires DistinctRecs(table)
    ensures DistinctRows(Backlog(table, hasSubject, env))
  {
    if table != [] {
      var n := |table| - 1;
      BacklogDistinct(table[..n], hasSubject, env);
      BacklogIds(table[..n], hasSubject, env);
      var front := Backlog(table[..n], hasSubject, env);
      forall k | 0 <= k < |front| ensures front[k].id != table[n].id {
        assert front[k] in front;
        var i :| 0 <= i < n && RowOf(table[..n][i], hasSubject, env) == Some(front[k]) && front[k].id == table[..n][i].id;
        assert table[i].id != table[n].id;
      }
    }
  }

  lemma UpdateOneRecord(table: seq<Rec>, k: nat, p: Option<Vec>, s: Option<Vec>)
    requires k < |table| && (forall i :: 0 <= i < |table| && i != k ==> table[i].id != table[k].id)
    ensures UpdateWhere(table, table[k].id, p, s) == table[k := Patch(table[k], p, s)]
  {
  }

  lemma {:induction false} PassPrefix(table: seq<Rec>, k: nat, hasSubject: bool, env: Env)
    requires DistinctRecs(table) && k <= |table|
    ensures WriteRows(table, Backlog(table[..k], hasSubject, env), env) ==
            FillAll(table[..k], hasSubject, env) + table[k..]
  {
    if k == 0 {
      assert FillAll(table[..0], hasSubject, env) == [];
    } else {
      var n := k - 1;
      PassPrefix(table, n, hasSubject, env);
      var front, rec := table[..n], table[n];
      assert table[..k][..n] == front && table[..k][n] == rec;
      var before := FillAll(front, hasSubject, env) + table[n..];
      assert FillAll(table[..k], hasSubject, env) + table[k..] == before[n := Filled(rec, hasSubject, env)];
      var row := RowOf(rec, hasSubject, env);
      if row.Some? {
        var rows := Backlog(table[..k], hasSubject, env);
        assert rows[..|rows| - 1] == Backlog(front, hasSubject, env);
        if Writes(row.value, env) {
          FillKeepsIds(front, hasSubject, env);
          UpdateOneRecord(before, n, PrimaryOf(row.value, env), SubjectOf(row.value, env));
        }
      }
    }
  }

  lemma FillKeepsIds(table: seq<Rec>, hasSubject: bool, env: Env)
    ensures forall i :: 0 <= i < |table| ==> FillAll(table, hasSubject, env)[i].id == table[i].id
  {
  }

  /** Writing the backlog row by row fills each record by itself. */
  lemma {:induction false} PassIsPointwise(table: seq<Rec>, hasSubject: bool, env: Env)
    requires DistinctRecs(table)
    ensures WriteRows(table, Backlog(table, hasSubject, env), env) == FillAll(table, hasSubject, env)
  {
    PassPrefix(table, |table|, hasSubject, env);
    assert table[..|table|] == table;
  }

  /** Scan, then backfill what the scan found. */
  method Pass(table: Table, hasSubject: bool, env: Env, batchSize: nat) returns (res: Result, scanFailed: nat)
    requires batchSize >= 1 && DistinctRecs(table.rows)
    modifies table
    ensures table.rows == FillAll(old(table.rows), hasSubject, env)
    ensures |table.rows| == |old(table.rows)|
    ensures forall i :: 0 <= i < |table.rows| ==> HoldsItsVectors(old(table.rows)[i], table.rows[i], hasSubject, env)
    ensures res == Tally(Backlog(old(table.rows), hasSubject, env), hasSubject, env)
    ensures |Backlog(table.rows, hasSubject, env)| == |Backlog(old(table.rows), hasSubject, env)| - res.processed
    ensures scanFailed == CountUnreadable(old(table.rows), hasSubject)
  {
    var rows;
    rows, scanFailed := ScanNullVectorBacklog(table.rows, hasSubject, env);
    BacklogDistinct(table.rows, hasSubject, env);
    PassIsPointwise(table.rows, hasSubject, env);
    Rescan(table.rows, hasSubject, env);
    forall i | 0 <= i < |table.rows|
      ensures HoldsItsVectors(table.rows[i], FillAll(table.rows, hasSubject, env)[i], hasSubject, env)
    {
      FilledExactly(table.rows[i], hasSubject, env);
    }
    res := BackfillTable(table, rows, hasSubject, env, batchSize);
  }

  // ── Rescan ──────────────────────────────────────────────────────────────

  /** A side that was filled is never written again, and nothing but the two vector
      columns changes. */
  lemma {:induction false} NothingOverwritten(r: Rec, hasSubject: bool, env: Env)
    ensures Filled(r, hasSubject, env) ==
            r.(vector := Filled(r, hasSubject, env).vector, subjectVector := Filled(r, hasSubject, env).subjectVector)
    ensures r.vector.Some? ==> Filled(r, hasSubject, env).vector == r.vector
    ensures r.subjectVector.Some? ==> Filled(r, hasSubject, env).subjectVector == r.subjectVector
  {
  }

  /** A record is in the next scan exactly when it was in this one and was not processed;
      then it needs exactly the sides that were not written. */
  lemma {:induction false} StillOpen(r: Rec, hasSubject: bool, env: Env)
    ensures var was, now := RowOf(r, hasSubject, env), RowOf(Filled(r, hasSubject, env), hasSubject, env);
      && (now.Some? <==> was.Some? && !IsProcessed(was.value, hasSubject, env))
      && (now.Some? ==>
            && now.value.id == was.value.id && now.value.text == was.value.text
            && now.value.subjectText == was.value.subjectText
            && now.value.needsPrimary ==
                 (was.value.needsPrimary && !(Writes(was.value, env) && PrimaryOf(was.value, env).Some?))
            && now.value.needsSubject ==
                 (was.value.needsSubject && !(Writes(was.value, env) && SubjectOf(was.value, env).Some?)))
  {
  }

  function Unprocessed(rows: seq<NullRow>, hasSubject: bool, env: Env): seq<NullRow> {
    if rows == [] then []
    else
      var rest := Unprocessed(rows[..|rows| - 1], hasSubject, env);
      if IsProcessed(rows[|rows| - 1], hasSubject, env) then rest else rest + [rows[|rows| - 1]]
  }

  function RowIds(rows: seq<NullRow>): seq<string> {
    seq(|rows|, i requires 0 <= i < |rows| => rows[i].id)
  }

  /** A rescan finds precisely the rows the pass did not process, in the same order. */
  lemma {:induction false} Rescan(table: seq<Rec>, hasSubject: bool, env: Env)
    ensures RowIds(Backlog(FillAll(table, hasSubject, env), hasSubject, env))
         == RowIds(Unprocessed(Backlog(table, hasSubject, env), hasSubject, env))
    ensures |Backlog(FillAll(table, hasSubject, env), hasSubject, env)|
          + Processed(Backlog(table, hasSubject, env), hasSubject, env) == |Backlog(table, hasSubject, env)|
  {
    if table != [] {
      var n := |table| - 1;
      var front, rec := table[..n], table[n];
      Rescan(front, hasSubject, env);
      StillOpen(rec, hasSubject, env);
      assert FillAll(table, hasSubject, env)[..n] == FillAll(front, hasSubject, env);
      var rows := Backlog(table, hasSubject, env);
      var was := RowOf(rec, hasSubject, env);
      if was.Some? {
        var before := Backlog(front, hasSubject, env);
        assert rows == before + [was.value] && rows[..|rows| - 1] == before;
        RowIdsSnoc(Unprocessed(before, hasSubject, env), was.value);
        var now := RowOf(Filled(rec, hasSubject, env), hasSubject, env);
        if now.Some? {
          RowIdsSnoc(Backlog(FillAll(front, hasSubject, env), hasSubject, env), now.value);
        }
      }
    }
  }

  lemma RowIdsSnoc(rows: seq<NullRow>, row: NullRow)
    ensures RowIds(rows + [row]) == RowIds(rows) + [row.id]
  {
  }

  // ── Progress ────────────────────────────────────────────────────────────

  /** NULL sides that have a text to embed. */
  function OpenSides(r: Rec, hasSubject: bool): nat {
    var primary := if r.vector.None? then 1 else 0;
    var subject := if SubjectText(r, hasSubject).Some? && r.subjectVector.None? then 1 else 0;
    if r.text.None? then 0 else primary + subject
  }

  function AllOpenSides(table: seq<Rec>, hasSubject: bool): nat {
    if table == [] then 0
    else AllOpenSides(table[..|table| - 1], hasSubject) + OpenSides(table[|table| - 1], hasSubject)
  }

  lemma {:induction false} SideProgress(r: Rec, hasSubject: bool, env: Env)
    ensures OpenSides(Filled(r, hasSubject, env), hasSubject) <= OpenSides(r, hasSubject)
    ensures OpenSides(Filled(r, hasSubject, env), hasSubject) < OpenSides(r, hasSubject) <==>
            RowOf(r, hasSubject, env).Some? && Writes(RowOf(r, hasSubject, env).value, env)
    ensures OpenSides(r, hasSubject) > 0 <==> RowOf(r, hasSubject, env).Some?
  {
  }

  ghost predicate AnyWrite(rows: seq<NullRow>, env: Env) {
    exists k :: 0 <= k < |rows| && Writes(rows[k], env)
  }

  /** The open sides never grow, shrink exactly when some row was written, and are gone
      exactly when the backlog is empty. */
  lemma {:induction false} Progress(table: seq<Rec>, hasSubject: bool, env: Env)
    ensures AllOpenSides(FillAll(table, hasSubject, env), hasSubject) <= AllOpenSides(table, hasSubject)
    ensures AllOpenSides(FillAll(table, hasSubject, env), hasSubject) < AllOpenSides(table, hasSubject) <==>
            AnyWrite(Backlog(table, hasSubject, env), env)
    ensures AllOpenSides(table, hasSubject) == 0 <==> Backlog(table, hasSubject, env) == []
  {
    if table != [] {
      var n := |table| - 1;
      var front, rec := table[..n], table[n];
      Progress(front, hasSubject, env);
      SideProgress(rec, hasSubject, env);
      assert FillAll(table, hasSubject, env)[..n] == FillAll(front, hasSubject, env);
      var rows, before := Backlog(table, hasSubject, env), Backlog(front, hasSubject, env);
      if AnyWrite(before, env) {
        var k :| 0 <= k < |before| && Writes(before[k], env);
        assert rows[k] == before[k];
      }
      if RowOf(rec, hasSubject, env).Some? {
        assert rows[|rows| - 1] == RowOf(rec, hasSubject, env).value;
      }
    }
  }

  // ── What the counters account for ───────────────────────────────────────

  /** Counted nowhere: only the subject was needed and its embed failed. */
  predicate Silent(row: NullRow, env: Env) {
    !HasUpdate(row, env) && !PrimaryPoisoned(row, env)
  }

  /** Charged twice: the primary failed, and the subject was taken to a write. */
  predicate ChargedTwice(row: NullRow, env: Env) {
    PrimaryPoisoned(row, env) && HasUpdate(row, env)
  }

  function Silents(rows: seq<NullRow>, env: Env): nat {
    if rows == [] then 0 else Silents(rows[..|rows| - 1], env) + if Silent(rows[|rows| - 1], env) then 1 else 0
  }

  function Doubles(rows: seq<NullRow>, env: Env): nat {
    if rows == [] then 0 else Doubles(rows[..|rows| - 1], env) + if ChargedTwice(rows[|rows| - 1], env) then 1 else 0
  }

  /** The exact account: processed plus failed is the number of rows, less the silent
      ones, plus the ones charged twice. */
  lemma {:induction false} Account(rows: seq<NullRow>, hasSubject: bool, env: Env)
    ensures Processed(rows, hasSubject, env) + Failed(rows, hasSubject, env) + Silents(rows, env)
         == |rows| + Doubles(rows, env)
  {
    if rows != [] {
      Account(rows[..|rows| - 1], hasSubject, env);
    }
  }

  /** So the two counters add up to the rows exactly when silent and double rows balance. */
  lemma {:induction false} CountersAddUpIff(rows: seq<NullRow>, hasSubject: bool, env: Env)
    ensures Processed(rows, hasSubject, env) + Failed(rows, hasSubject, env) == |rows|
       <==> Silents(rows, env) == Doubles(rows, env)
  {
    Account(rows, hasSubject, env);
  }

  lemma {:induction false} TallyOne(row: NullRow, hasSubject: bool, env: Env)
    ensures Processed([row], hasSubject, env) == (if IsProcessed(row, hasSubject, env) then 1 else 0)
    ensures Failed([row], hasSubject, env) == Failures(row, hasSubject, env)
  {
    assert [row][..0] == [];
  }

  /** A row that needs only a subject nobody can embed is counted nowhere. */
  lemma {:induction false} SilentRow(row: NullRow, env: Env)
    requires !row.needsPrimary && row.needsSubject && row.subjectText.Some?
    requires env.embed(row.subjectText.value).None?
    ensures Processed([row], true, env) == 0 && Failed([row], true, env) == 0
  {
    TallyOne(row, true, env);
  }

  /** A row whose primary fails while its subject embeds is charged twice. */
  lemma {:induction false} DoubleRow(row: NullRow, env: Env)
    requires row.needsPrimary && row.needsSubject && row.subjectText.Some?
    requires env.embed(row.text).None? && env.embed(row.subjectText.value).Some?
    ensures Processed([row], true, env) == 0 && Failed([row], true, env) == 2
  {
    TallyOne(row, true, env);
  }

  lemma {:induction false} BacklogOfOne(r: Rec, hasSubject: bool, env: Env)
    requires RowOf(r, hasSubject, env).Some?
    ensures Backlog([r], hasSubject, env) == [RowOf(r, hasSubject, env).value]
  {
    assert [r][..0] == [];
  }

  ghost predicate CountsOneAs(table: seq<Rec>, env: Env, total: nat) {
    var rows := Backlog(table, true, env);
    |table| == |rows| == 1 && Processed(rows, true, env) + Failed(rows, true, env) == total
  }

  /** Every one-record table that lacks only its subject vector, of a subject nobody can
      embed, is scanned and then counted nowhere. */
  lemma {:induction false} SilentTable(r: Rec, env: Env)
    requires r.text.Some? && r.subject.Some? && r.subject.value != "" && r.vector.Some? && r.subjectVector.None?
    requires env.embed(r.subject.value).None?
    ensures CountsOneAs([r], env, 0)
  {
    BacklogOfOne(r, true, env);
    SilentRow(RowOf(r, true, env).value, env);
  }

  /** Every one-record table that lacks both vectors, where only the subject can be embedded,
      is scanned and then charged twice. */
  lemma {:induction false} DoubleTable(r: Rec, env: Env)
    requires r.text.Some? && r.subject.Some? && r.subject.value != "" && r.vector.None? && r.subjectVector.None?
    requires env.embed(r.text.value).None? && env.embed(r.subject.value).Some?
    ensures CountsOneAs([r], env, 2)
  {
    BacklogOfOne(r, true, env);
    DoubleRow(RowOf(r, true, env).value, env);
  }

  /** An environment where exactly the text "s" can be embedded, if v is given. */
  function Embeds(v: Option<Vec>): Env {
    Env(t => if t == "s" then v else None, (k, p) => false, id => true, t => |t|)
  }

  /** Neither balance is automatic: for each way the sum goes wrong, a one-record table whose
      scan yields its one row. */
  lemma {:induction false} CountersDoNotAddUp(v: Vec)
    ensures exists table, env :: CountsOneAs(table, env, 0)
    ensures exists table, env :: CountsOneAs(table, env, 2)
  {
    SilentTable(Rec("a", Some("t"), Some("s"), Some(v), None), Embeds(None));
    DoubleTable(Rec("a", Some("t"), Some("s"), None, None), Embeds(Some(v)));
  }

  /** A rescan is empty exactly when nothing was charged and nothing was silent. */
  lemma {:induction false} EmptyRescanIff(table: seq<Rec>, hasSubject: bool, env: Env)
    ensures var rows := Backlog(table, hasSubject, env);
            Backlog(FillAll(table, hasSubject, env), hasSubject, env) == []
            <==> Failed(rows, hasSubject, env) == 0 && Silents(rows, env) == 0
  {
    var rows := Backlog(table, hasSubject, env);
    Rescan(table, hasSubject, env);
    Account(rows, hasSubject, env);
    DoublesAreCharged(rows, hasSubject, env);
  }

  lemma {:induction false} DoublesAreCharged(rows: seq<NullRow>, hasSubject: bool, env: Env)
    ensures 2 * Doubles(rows, env) <= Failed(rows, hasSubject, env)
  {
    if rows != [] {
      DoublesAreCharged(rows[..|rows| - 1], hasSubject, env);
    }
  }

  lemma {:induction false} NoSilents(rows: seq<NullRow>, env: Env)
    requires forall k :: 0 <= k < |rows| ==> rows[k].needsPrimary
    ensures Silents(rows, env) == 0
  {
    if rows != [] {
      NoSilents(rows[..|rows| - 1], env);
    }
  }

  /** When every row needs its primary vector, a clean counter does mean a clean table. */
  lemma {:induction false} CleanCountersMeanDone(table: seq<Rec>, hasSubject: bool, env: Env)
    requires forall k :: 0 <= k < |Backlog(table, hasSubject, env)| ==> Backlog(table, hasSubject, env)[k].needsPrimary
    ensures Failed(Backlog(table, hasSubject, env), hasSubject, env) == 0 <==>
            Backlog(FillAll(table, hasSubject, env), hasSubject, env) == []
  {
    EmptyRescanIff(table, hasSubject, env);
    NoSilents(Backlog(table, hasSubject, env), env);
  }
}
